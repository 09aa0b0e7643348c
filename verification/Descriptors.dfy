/** The descriptor table of a process, and the operating system's calls on it. A file is what one opening of it gives;
    duplicates of a descriptor share it. */
module Descriptors {
  type File = nat

  datatype Entry = Entry(file: File, inheritable: bool)

  type Table = map<nat, Entry>

  /** The lowest descriptor from `n` on that is not in use. */
  function LowestFree(used: set<nat>, n: nat): (free: nat)
    ensures n <= free && free !in used && forall m | n <= m < free :: m in used
    decreases |used|
  {
    if n !in used then n
    else
      var free := LowestFree(used - {n}, n + 1);
      assert forall m | n <= m < free :: m in used by {
        forall m | n <= m < free ensures m in used {
          assert m == n || m in used - {n};
        }
      }
      free
  }

  // ---- The move as one step ----

  /** What is known when the process starts: which standard streams it came with, and which files an event loop can
      watch for input. */
  datatype Start = Start(hasStdin: bool, hasStdout: bool, hasStderr: bool, suitable: set<File>, watchable: set<File>)

  predicate StdinFits(t: Table, s: Start) {
    s.hasStdin && 0 in t && t[0].file in s.suitable && t[0].file in s.watchable
  }

  predicate StdoutFits(t: Table, s: Start) { s.hasStdout && 1 in t }

  /** The table after the call: the private duplicates `i` and `o` are new, descriptors 0 to 2 are as shown, and all
      else is as before. */
  ghost predicate Moved(t: Table, u: Table, s: Start, i: nat, o: nat, stderrNull: File, devNull: File)
    requires 0 in t && 1 in t
  {
    var stderr := if 2 in t then t[2] else Entry(stderrNull, false);
    && i !in t && o !in t && i > 2 && o > 2 && i != o
    && u == t[2 := stderr][i := Entry(t[0].file, false)][o := Entry(t[1].file, false)]
             [0 := Entry(devNull, true)][1 := Entry(if s.hasStderr then stderr.file else devNull, true)]
  }

  /** `fd` refers to the original stdin or stdout. */
  predicate RefersToConnection(t: Table, u: Table, fd: nat)
    requires 0 in t && 1 in t
  {
    fd in u && (u[fd].file == t[0].file || u[fd].file == t[1].file)
  }

  ghost predicate FilesBelow(t: Table, n: File) { forall fd | fd in t :: t[fd].file < n }

  /** Afterwards only the private duplicates refer to the original stdin or stdout, exactly if before only descriptors 0
      and 1 did. */
  lemma OnlyPrivateExactlyIf(t: Table, u: Table, s: Start, i: nat, o: nat, stderrNull: File, devNull: File)
    requires 0 in t && 1 in t && FilesBelow(t, stderrNull) && FilesBelow(t, devNull)
    requires Moved(t, u, s, i, o, stderrNull, devNull)
    ensures (forall fd | RefersToConnection(t, u, fd) :: fd == i || fd == o) <==>
            (forall fd | RefersToConnection(t, t, fd) :: fd == 0 || fd == 1)
    ensures RefersToConnection(t, u, i) && RefersToConnection(t, u, o) && !RefersToConnection(t, u, 0)
    ensures RefersToConnection(t, u, 1) <==> s.hasStderr && RefersToConnection(t, t, 2)
  {
    if forall fd | RefersToConnection(t, u, fd) :: fd == i || fd == o {
      forall fd | RefersToConnection(t, t, fd) ensures fd == 0 || fd == 1 {
        if fd != 0 && fd != 1 {
          assert RefersToConnection(t, u, fd);
        }
      }
    }
    if forall fd | RefersToConnection(t, t, fd) :: fd == 0 || fd == 1 {
      forall fd | RefersToConnection(t, u, fd) ensures fd == i || fd == o {
        if fd != i && fd != o {
          assert 2 in t ==> !RefersToConnection(t, t, 2);
          assert fd > 2 ==> RefersToConnection(t, t, fd);
        }
      }
    }
  }

  /** A child process inherits the connection exactly if it did through some descriptor other than 0 and 1, or through
      stderr, which stdout then shares. */
  lemma ChildrenInheritExactlyIf(t: Table, u: Table, s: Start, i: nat, o: nat, stderrNull: File, devNull: File)
    requires 0 in t && 1 in t && FilesBelow(t, stderrNull) && FilesBelow(t, devNull)
    requires Moved(t, u, s, i, o, stderrNull, devNull)
    ensures (exists fd :: RefersToConnection(t, u, fd) && u[fd].inheritable) <==>
            || (exists fd :: fd > 1 && RefersToConnection(t, t, fd) && t[fd].inheritable)
            || (s.hasStderr && RefersToConnection(t, t, 2))
  {
    if fd: nat :| RefersToConnection(t, u, fd) && u[fd].inheritable {
      if fd == 1 {
        assert RefersToConnection(t, t, 2);
      } else {
        assert fd in t && u[fd] == t[fd];
        assert RefersToConnection(t, t, fd);
      }
    }
    if fd: nat :| fd > 1 && RefersToConnection(t, t, fd) && t[fd].inheritable {
      assert RefersToConnection(t, u, fd) && u[fd].inheritable;
    }
    if s.hasStderr && RefersToConnection(t, t, 2) {
      assert RefersToConnection(t, u, 1) && u[1].inheritable;
    }
  }
}
