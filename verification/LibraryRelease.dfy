/** A client that asks for the end of a library gets it: once the commands queued up to then have run, the library is
    released, and once its handler has gone on, the client's endpoint lists it no more. */
module LibraryRelease {
  import opened Libraries
  import opened LibraryCleanUp
  import opened LibraryTheorems
  import opened LibraryTokens

  // ---- The store ----

  /** How many commands the runner runs during `es`. */
  function CommandsRun(s: Server, ids: Endpoint -> string, es: seq<Event>): nat
    decreases |es|
  {
    if es == [] then 0
    else (if es[0].RunE? && s.queue != [] then 1 else 0) + CommandsRun(Step(s, ids, es[0]), ids, es[1..])
  }

  predicate Imports(c: Command, t: string) { c.Import? && c.token == t }

  /** The library is finalized at place `k` of the queue, and not imported from there on. */
  ghost predicate EndsAt(cs: seq<Command>, t: string, k: nat) {
    k < |cs| && Finalizes(cs[k], t) && forall j | k <= j < |cs| :: !Imports(cs[j], t)
  }

  ghost predicate Released(s: Server, t: string) {
    t !in s.store && forall c | c in s.queue :: !Imports(c, t)
  }

  /** No step gives out a token a second time, and each adds at most one command, at the end of the queue. */
  lemma StepPushes(s: Server, ids: Endpoint -> string, ev: Event, t: string) returns (cs: seq<Command>)
    requires DistinctIds(ids) && TokensFollowCounters(s, ids) && t in s.origins && !ev.RunE?
    ensures var s' := Step(s, ids, ev);
      s'.queue == s.queue + cs && s'.store == s.store && forall c | c in cs :: !Imports(c, t)
  {
    cs := [];
    if Enabled(s, ev) {
      match ev
      case ImportE(e, name) =>
        FreshToken(s, ids, e, name);
        cs := [Import(e, Token(name, ids(e), CounterOf(s, e)))];
      case FinalizeE(e, u) => cs := [Finalize(e, u, Handler)];
      case SweepE(e) => cs := [Finalize(e, s.disconnected[e].left[0], CleanUp)];
      case ResumeE =>
        var c := s.finished[0];
        if c.Import? && c.endpoint in s.disconnected { cs := [Finalize(c.endpoint, c.token, LateImport)]; }
      case _ =>
    }
  }

  lemma StaysReleased(s: Server, ids: Endpoint -> string, ev: Event, t: string)
    requires DistinctIds(ids) && TokensFollowCounters(s, ids) && t in s.origins && Released(s, t)
    ensures Released(Step(s, ids, ev), t)
  {
    if ev.RunE? {
      if s.queue != [] {
        assert s.queue[0] in s.queue;
        assert forall c | c in s.queue[1..] :: c in s.queue;
      }
    } else {
      var cs := StepPushes(s, ids, ev, t);
    }
  }

  lemma RunsToTheEnd(s: Server, fails: bool, t: string, k: nat)
    requires EndsAt(s.queue, t, k)
    ensures if k == 0 then Released(RunNext(s, fails), t) else EndsAt(RunNext(s, fails).queue, t, k - 1)
  {
    var rest := s.queue[1..];
    assert forall j | 0 <= j < |rest| :: rest[j] == s.queue[j + 1];
  }

  lemma PushKeepsEnd(cs: seq<Command>, more: seq<Command>, t: string, k: nat)
    requires EndsAt(cs, t, k) && forall c | c in more :: !Imports(c, t)
    ensures EndsAt(cs + more, t, k)
  {
  }

  lemma {:induction false} ReleasedFrom(s: Server, ids: Endpoint -> string, es: seq<Event>, t: string, k: nat)
    requires DistinctIds(ids) && TokensFollowCounters(s, ids) && t in s.origins
    requires Released(s, t) || (EndsAt(s.queue, t, k) && CommandsRun(s, ids, es) > k)
    ensures Released(RunOn(s, ids, es), t)
    decreases |es|
  {
    if es != [] {
      var ev, s' := es[0], Step(s, ids, es[0]);
      StepFollowsCounters(s, ids, ev);
      StepKeepsOrigins(s, ids, ev, t);
      if Released(s, t) {
        StaysReleased(s, ids, ev, t);
        ReleasedFrom(s', ids, es[1..], t, k);
      } else if ev.RunE? {
        RunsToTheEnd(s, ev.fails, t, k);
        ReleasedFrom(s', ids, es[1..], t, if k > 0 then k - 1 else 0);
      } else {
        var cs := StepPushes(s, ids, ev, t);
        PushKeepsEnd(s.queue, cs, t, k);
        ReleasedFrom(s', ids, es[1..], t, k);
      }
    }
  }

  /** A client asks for the end of a library whose token was given out: once the runner has run as many commands as were
      queued then, the request among them, the store does not hold the library, and if it was imported at all, it was torn
      down once. Whatever others do meanwhile, that stays so. */
  lemma FinalizedOnceRun(ids: Endpoint -> string, es: seq<Event>, e: Endpoint, t: string, more: seq<Event>)
    requires DistinctIds(ids) && t in Run(ids, es).origins
    requires var asked := Run(ids, es + [FinalizeE(e, t)]); CommandsRun(asked, ids, more) >= |asked.queue|
    ensures var s := Run(ids, es + [FinalizeE(e, t)] + more);
      t !in s.store && TornDown(s, t) == if t in s.ran then 1 else 0
  {
    var fs := es + [FinalizeE(e, t)];
    var s, asked := Run(ids, es), Run(ids, fs);
    assert fs[..|es|] == es;
    RunsTrack(ids, es, t, e);
    RunsTrack(ids, fs, t, e);
    AskedIsLast(ids, es, e, t);
    ReleasedFrom(asked, ids, more, t, |asked.queue| - 1);
    RunConcat(ids, fs, more);
    TornDownAtMostOnce(ids, fs + more, t);
  }

  lemma AskedIsLast(ids: Endpoint -> string, es: seq<Event>, e: Endpoint, t: string)
    ensures var asked := Run(ids, es + [FinalizeE(e, t)]);
      asked.origins == Run(ids, es).origins && asked.queue != [] && EndsAt(asked.queue, t, |asked.queue| - 1)
  {
    assert (es + [FinalizeE(e, t)])[..|es|] == es;
  }

  // ---- The endpoint's list ----

  /** All that the handlers of an endpoint still go on to, in this order. */
  function Ahead(s: Server): seq<Command> { s.finished + s.queue }

  /** At place `k` the token is struck off the list of `e`, and from there on it is not put there again. */
  ghost predicate StruckAt(cs: seq<Command>, e: Endpoint, t: string, k: nat) {
    k < |cs| && cs[k] == Finalize(e, t, Handler) && forall j | k <= j < |cs| :: !Imports(cs[j], t)
  }

  ghost predicate Unlisted(s: Server, e: Endpoint, t: string) {
    t !in ImportedBy(s, e) && forall c | c in Ahead(s) :: !Imports(c, t)
  }

  ghost predicate WillBeUnlisted(s: Server, e: Endpoint, t: string) {
    Unlisted(s, e, t) || exists k: nat :: StruckAt(Ahead(s), e, t, k)
  }

  lemma PushKeepsUnlisted(s: Server, s': Server, cs: seq<Command>, e: Endpoint, t: string)
    requires WillBeUnlisted(s, e, t) && s'.finished == s.finished && s'.queue == s.queue + cs && s'.imported == s.imported
    requires forall c | c in cs :: !Imports(c, t)
    ensures WillBeUnlisted(s', e, t)
  {
    assert Ahead(s') == Ahead(s) + cs;
    if !Unlisted(s, e, t) {
      var k: nat :| StruckAt(Ahead(s), e, t, k);
      assert StruckAt(Ahead(s'), e, t, k);
    }
  }

  /** An import that fails leaves the line, wherever it is in it. */
  lemma DropKeepsStruck(all: seq<Command>, n: nat, e: Endpoint, t: string, k: nat) returns (k': nat)
    requires n < |all| && all[n].Import? && StruckAt(all, e, t, k)
    ensures StruckAt(all[..n] + all[n + 1..], e, t, k')
  {
    var rest := all[..n] + all[n + 1..];
    k' := if k < n then k else k - 1;
    forall j | k' <= j < |rest| ensures !Imports(rest[j], t) {
      assert rest[j] == if j < n then all[j] else all[j + 1];
    }
  }

  lemma RunKeepsUnlisted(s: Server, fails: bool, e: Endpoint, t: string)
    requires WillBeUnlisted(s, e, t) && s.queue != []
    ensures WillBeUnlisted(RunNext(s, fails), e, t)
  {
    var s', n, all := RunNext(s, fails), |s.finished|, Ahead(s);
    if s.queue[0].Import? && fails {
      assert all[n] == s.queue[0] && Ahead(s') == all[..n] + all[n + 1..];
      if Unlisted(s, e, t) {
        assert forall d | d in Ahead(s') :: d in all;
      } else {
        var k: nat :| StruckAt(all, e, t, k);
        var k' := DropKeepsStruck(all, n, e, t, k);
      }
    } else {
      assert Ahead(s') == all;
    }
  }

  /** The first of the line goes on; what it may add is a finalization. */
  lemma FirstGoesOn(all: seq<Command>, more: seq<Command>, e: Endpoint, t: string, k: nat)
    requires StruckAt(all, e, t, k) && forall c | c in more :: !Imports(c, t)
    ensures if k == 0 then forall c | c in all[1..] + more :: !Imports(c, t) else StruckAt(all[1..] + more, e, t, k - 1)
  {
    var rest := all[1..] + more;
    forall j | 0 <= j < |rest| ensures j < |all| - 1 ==> rest[j] == all[j + 1] {}
  }

  lemma ResumeMoves(s: Server, t: string) returns (more: seq<Command>)
    requires s.finished != []
    ensures Ahead(s) != [] && Ahead(s)[0] == s.finished[0]
    ensures Ahead(Resume(s)) == Ahead(s)[1..] + more && forall c | c in more :: !Imports(c, t)
  {
    var c := s.finished[0];
    more := if c.Import? && c.endpoint in s.disconnected then [Finalize(c.endpoint, c.token, LateImport)] else [];
    assert Ahead(Resume(s)) == Ahead(s)[1..] + more;
  }

  lemma ResumeKeepsUnlisted(s: Server, e: Endpoint, t: string)
    requires WillBeUnlisted(s, e, t) && s.finished != []
    ensures WillBeUnlisted(Resume(s), e, t)
  {
    var more := ResumeMoves(s, t);
    var all := Ahead(s);
    if Unlisted(s, e, t) {
      assert all[0] in all;
      assert forall d | d in all[1..] :: d in all;
    } else {
      var k: nat :| StruckAt(all, e, t, k);
      FirstGoesOn(all, more, e, t, k);
      if k == 0 {
        assert t !in ImportedBy(Resume(s), e);
        assert Unlisted(Resume(s), e, t);
      }
    }
  }

  lemma StepKeepsUnlisted(s: Server, ids: Endpoint -> string, ev: Event, e: Endpoint, t: string)
    requires DistinctIds(ids) && TokensFollowCounters(s, ids) && t in s.origins && WillBeUnlisted(s, e, t) && Enabled(s, ev)
    ensures WillBeUnlisted(Step(s, ids, ev), e, t)
  {
    if ev.RunE? {
      RunKeepsUnlisted(s, ev.fails, e, t);
    } else if ev.ResumeE? {
      ResumeKeepsUnlisted(s, e, t);
    } else {
      var cs := StepPushes(s, ids, ev, t);
      PushKeepsUnlisted(s, Step(s, ids, ev), cs, e, t);
    }
  }

  lemma {:induction false} UnlistedFrom(ids: Endpoint -> string, es: seq<Event>, more: seq<Event>, e: Endpoint, t: string)
    requires DistinctIds(ids) && t in Run(ids, es).origins && WillBeUnlisted(Run(ids, es), e, t)
    ensures t in Run(ids, es + more).origins && WillBeUnlisted(Run(ids, es + more), e, t)
  {
    if more == [] {
      assert es + more == es;
    } else {
      var front, last := more[..|more| - 1], more[|more| - 1];
      assert (es + more)[..|es + more| - 1] == es + front;
      UnlistedFrom(ids, es, front, e, t);
      RunsTrack(ids, es + front, t, e);
      StepKeepsOrigins(Run(ids, es + front), ids, last, t);
      if Enabled(Run(ids, es + front), last) {
        StepKeepsUnlisted(Run(ids, es + front), ids, last, e, t);
      }
    }
  }

  /** And once the handler of that request has gone on, the client's endpoint does not list the library anymore. */
  lemma UnlistedOnceHandled(ids: Endpoint -> string, es: seq<Event>, e: Endpoint, t: string, more: seq<Event>)
    requires DistinctIds(ids) && t in Run(ids, es).origins
    requires Finalize(e, t, Handler) !in Ahead(Run(ids, es + [FinalizeE(e, t)] + more))
    ensures t !in ImportedBy(Run(ids, es + [FinalizeE(e, t)] + more), e)
  {
    var fs := es + [FinalizeE(e, t)];
    var asked := Run(ids, fs);
    AskedIsLast(ids, es, e, t);
    AskedIsStruck(ids, es, e, t);
    UnlistedFrom(ids, fs, more, e, t);
  }

  lemma AskedIsStruck(ids: Endpoint -> string, es: seq<Event>, e: Endpoint, t: string)
    ensures WillBeUnlisted(Run(ids, es + [FinalizeE(e, t)]), e, t)
  {
    assert (es + [FinalizeE(e, t)])[..|es|] == es;
    var all := Ahead(Run(ids, es + [FinalizeE(e, t)]));
    assert all == Ahead(Run(ids, es)) + [Finalize(e, t, Handler)];
    assert StruckAt(all, e, t, |all| - 1);
  }
}
