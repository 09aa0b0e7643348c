/** A process that takes its standard streams away from everything but one connection. */
module Stdio {
  import opened Descriptors

  class Process {
    /** Which standard streams the process came with, and what its event loop can watch. */
    const start: Start
    /** Whether the selector that tries stdin takes a descriptor while it does. */
    const selectorUsesDescriptor: bool
    var table: Table
    /** The number of the next opened file. */
    var nextFile: File

    ghost predicate Valid()
      reads this
    {
      FilesBelow(table, nextFile)
    }

    // ---- The operating system ----

    method Open() returns (fd: nat)
      requires Valid()
      modifies this
      ensures Valid() && fd == LowestFree(old(table).Keys, 0)
      ensures table == old(table)[fd := Entry(old(nextFile), false)] && nextFile == old(nextFile) + 1
    {
      fd := LowestFree(table.Keys, 0);
      table := table[fd := Entry(nextFile, false)];
      nextFile := nextFile + 1;
    }

    method Dup(from: nat) returns (fd: nat)
      requires Valid() && from in table
      modifies `table
      ensures Valid() && fd == LowestFree(old(table).Keys, 0)
      ensures table == old(table)[fd := Entry(old(table)[from].file, false)]
    {
      fd := LowestFree(table.Keys, 0);
      table := table[fd := Entry(table[from].file, false)];
    }

    /** Without further argument, `os.dup2` makes the target inheritable. */
    method Dup2(from: nat, to: nat)
      requires Valid() && from in table && from != to
      modifies `table
      ensures Valid() && table == old(table)[to := Entry(old(table)[from].file, true)]
    {
      table := table[to := Entry(table[from].file, true)];
    }

    method Close(fd: nat)
      requires Valid() && fd in table
      modifies `table
      ensures Valid() && table == old(table) - {fd}
    {
      table := table - {fd};
    }

    // ---- stdio.py ----

    /** `_check_stdin`; the selector is gone again when the check ends. */
    method CheckStdin() returns (ok: bool)
      requires Valid()
      modifies this
      ensures Valid() && table == old(table) && nextFile >= old(nextFile)
      ensures ok <==> StdinFits(table, start)
    {
      if !start.hasStdin || 0 !in table || table[0].file !in start.suitable {
        return false;
      }
      if selectorUsesDescriptor {
        var probe := Open();
        ok := table[0].file in start.watchable;
        Close(probe);
        assert table == old(table);
      } else {
        ok := table[0].file in start.watchable;
      }
    }

    /** `_check_stdout` */
    method CheckStdout() returns (ok: bool)
      ensures ok <==> StdoutFits(table, start)
    {
      ok := start.hasStdout && 1 in table;
    }

    /** `_occupy_closed_stderr`: child processes inherit the null device there only if descriptor 0 or 1 was free too. */
    method OccupyClosedStderr()
      requires Valid()
      modifies this
      ensures Valid() && nextFile >= old(nextFile)
      ensures table == if 2 in old(table) then old(table)
        else old(table)[2 := Entry(old(nextFile), 0 !in old(table) || 1 !in old(table))]
    {
      if 2 !in table {
        var devNull := Open();
        if devNull != 2 {
          Dup2(devNull, 2);
          Close(devNull);
        }
      }
    }

    /** `_move_standard_streams` */
    method MoveStandardStreams()
      requires Valid() && 0 in table && 1 in table && 2 in table
      modifies this
      ensures Valid()
      ensures table == old(table)[0 := Entry(old(nextFile), true)]
                                 [1 := Entry(if start.hasStderr then old(table)[2].file else old(nextFile), true)]
    {
      var devNull := Open();
      Dup2(devNull, 0);
      Dup2(if start.hasStderr then 2 else devNull, 1);
      Close(devNull);
    }

    /** `open_stdio_connection` as far as the descriptors go: the private duplicates, or a refusal. */
    method OpenStdioConnection() returns (ok: bool, i: nat, o: nat)
      requires Valid()
      modifies this
      ensures Valid() && (ok <==> StdinFits(old(table), start) && StdoutFits(old(table), start))
      ensures !ok ==> table == old(table)
      ensures ok ==> exists stderrNull: File, devNull: File ::
        && FilesBelow(old(table), stderrNull) && FilesBelow(old(table), devNull)
        && Moved(old(table), table, start, i, o, stderrNull, devNull)
    {
      i, o := 0, 0;
      ok := CheckStdin();
      if ok {
        ok := CheckStdout();
      }
      if !ok {
        return;
      }
      ghost var stderrNull := nextFile;
      OccupyClosedStderr();
      i := Dup(0);
      o := Dup(1);
      ghost var devNull := nextFile;
      MoveStandardStreams();
      assert Moved(old(table), table, start, i, o, stderrNull, devNull);
    }
  }
}
