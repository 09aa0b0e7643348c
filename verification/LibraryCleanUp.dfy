/** The clean-up of a client that has gone comes to its end, whatever else is going on. */
module LibraryCleanUp {
  import opened LibraryTokens
  import opened Libraries

  // ---- The clean-up comes to its end ----

  /** The steps that a command still causes, counting what its handler goes on to do. */
  function Cost(c: Command, run: bool): nat {
    (if c.Import? then 3 else 1) + if run then 0 else 1
  }

  function Costs(cs: seq<Command>, run: bool): nat {
    if cs == [] then 0 else Cost(cs[0], run) + Costs(cs[1..], run)
  }

  lemma {:induction false} CostsAppend(cs: seq<Command>, c: Command, run: bool)
    ensures Costs(cs + [c], run) == Costs(cs, run) + Cost(c, run)
  {
    if cs == [] {
      assert cs + [c] == [c];
    } else {
      assert (cs + [c])[1..] == cs[1..] + [c];
      CostsAppend(cs[1..], c, run);
    }
  }

  function WorkLeft(s: Server, e: Endpoint): nat {
    Costs(s.queue, false) + Costs(s.finished, true) + if e in s.disconnected then 3 * |s.disconnected[e].left| else 0
  }

  /** Everything but new requests and other clients' clean-ups. */
  predicate Concludes(ev: Event, e: Endpoint) { ev.RunE? || ev.ResumeE? || ev == SweepE(e) }

  lemma WorkShrinks(s: Server, ids: Endpoint -> string, ev: Event, e: Endpoint)
    requires Enabled(s, ev) && Concludes(ev, e)
    ensures WorkLeft(Step(s, ids, ev), e) < WorkLeft(s, e)
  {
    match ev
    case RunE(fails) => CostsAppend(s.finished, s.queue[0], true);
    case ResumeE =>
      var c := s.finished[0];
      CostsAppend(s.queue, Finalize(c.endpoint, c.token, LateImport), false);
    case SweepE(_) => CostsAppend(s.queue, Finalize(e, s.disconnected[e].left[0], CleanUp), false);
  }

  function CleanUpOf(c: Command, e: Endpoint): seq<string> {
    if c.Finalize? && c.waiter.CleanUp? && c.endpoint == e then [c.token] else []
  }

  function CleanUps(cs: seq<Command>, e: Endpoint): seq<string> {
    if cs == [] then [] else CleanUpOf(cs[0], e) + CleanUps(cs[1..], e)
  }

  lemma {:induction false} CleanUpsAppend(cs: seq<Command>, c: Command, e: Endpoint)
    ensures CleanUps(cs + [c], e) == CleanUps(cs, e) + CleanUpOf(c, e)
  {
    if cs == [] {
      assert cs + [c] == [c];
    } else {
      assert (cs + [c])[1..] == cs[1..] + [c];
      CleanUpsAppend(cs[1..], c, e);
    }
  }

  function Awaited(s: Server, e: Endpoint): seq<string> {
    if e in s.disconnected && s.disconnected[e].current.Some? then [s.disconnected[e].current.value] else []
  }

  /** The clean-up of an endpoint waits for the one finalization of its own that is on its way. */
  ghost predicate SweepWaits(s: Server, e: Endpoint) {
    CleanUps(s.finished, e) + CleanUps(s.queue, e) == Awaited(s, e)
  }

  /** What a client that has gone had imported is still ahead of the clean-up. */
  ghost predicate SweepCovers(s: Server, e: Endpoint) {
    e in s.disconnected ==> forall t | t in ImportedBy(s, e) :: t in s.disconnected[e].left || t in Awaited(s, e)
  }

  lemma PushKeepsSweep(s: Server, c: Command, e: Endpoint)
    requires SweepWaits(s, e) && CleanUpOf(c, e) == []
    ensures SweepWaits(s.(queue := s.queue + [c]), e)
  {
    CleanUpsAppend(s.queue, c, e);
  }

  lemma SweepNextKeepsSweep(s: Server, f: Endpoint, e: Endpoint)
    requires SweepWaits(s, e) && SweepCovers(s, e) && Enabled(s, SweepE(f))
    ensures SweepWaits(SweepNext(s, f), e) && SweepCovers(SweepNext(s, f), e)
  {
    CleanUpsAppend(s.queue, Finalize(f, s.disconnected[f].left[0], CleanUp), e);
  }

  lemma RunKeepsSweep(s: Server, fails: bool, e: Endpoint)
    requires SweepWaits(s, e) && s.queue != []
    ensures SweepWaits(RunNext(s, fails), e)
  {
    var c := s.queue[0];
    CleanUpsAppend(s.finished, c, e);
    assert CleanUps(s.finished, e) + (CleanUpOf(c, e) + CleanUps(s.queue[1..], e)) == Awaited(s, e);
  }

  lemma FirstOfThree(a: seq<string>, b: seq<string>, c: seq<string>, one: seq<string>)
    requires (a + b) + c == one && |one| <= 1
    ensures if a == [] then b + c == one else a == one && b == [] && c == []
  {
    assert a == [] ==> a + b == b;
    if a != [] {
      assert |a| == 1 && |b| == 0 && |c| == 0;
      assert a[0] == one[0];
    }
  }

  lemma ResumeKeepsWaiting(s: Server, e: Endpoint)
    requires SweepWaits(s, e) && s.finished != []
    ensures SweepWaits(Resume(s), e)
    ensures CleanUpOf(s.finished[0], e) != [] ==> Awaited(s, e) == [s.finished[0].token]
  {
    var c := s.finished[0];
    CleanUpsAppend(s.queue, Finalize(c.endpoint, c.token, LateImport), e);
    FirstOfThree(CleanUpOf(c, e), CleanUps(s.finished[1..], e), CleanUps(s.queue, e), Awaited(s, e));
    if CleanUpOf(c, e) != [] {
      assert Awaited(Resume(s), e) == [];
    } else {
      assert Awaited(Resume(s), e) == Awaited(s, e);
    }
  }

  lemma ResumeKeepsSweep(s: Server, e: Endpoint)
    requires SweepWaits(s, e) && SweepCovers(s, e) && s.finished != []
    ensures SweepWaits(Resume(s), e) && SweepCovers(Resume(s), e)
  {
    ResumeKeepsWaiting(s, e);
    var s', c := Resume(s), s.finished[0];
    if e in s.disconnected {
      assert s'.disconnected[e].left == s.disconnected[e].left;
      assert ImportedBy(s', e) <= ImportedBy(s, e);
      if CleanUpOf(c, e) != [] {
        assert c.token !in ImportedBy(s', e);
      } else {
        assert Awaited(s', e) == Awaited(s, e);
      }
    }
  }

  lemma DisconnectKeepsSweep(s: Server, f: Endpoint, order: seq<string>, e: Endpoint)
    requires SweepWaits(s, e) && SweepCovers(s, e) && Enabled(s, DisconnectE(f, order))
    ensures SweepWaits(Disconnect(s, f, order), e) && SweepCovers(Disconnect(s, f, order), e)
  {
    assert forall t | t in ImportedBy(s, f) :: t in order;
  }

  lemma StepKeepsSweep(s: Server, ids: Endpoint -> string, ev: Event, e: Endpoint)
    requires SweepWaits(s, e) && SweepCovers(s, e) && Enabled(s, ev)
    ensures SweepWaits(Step(s, ids, ev), e) && SweepCovers(Step(s, ids, ev), e)
  {
    match ev
    case ImportE(f, name) => PushKeepsSweep(s, Import(f, Token(name, ids(f), CounterOf(s, f))), e);
    case FinalizeE(f, u) => PushKeepsSweep(s, Finalize(f, u, Handler), e);
    case DisconnectE(f, order) => DisconnectKeepsSweep(s, f, order, e);
    case SweepE(f) => SweepNextKeepsSweep(s, f, e);
    case RunE(fails) => RunKeepsSweep(s, fails, e);
    case ResumeE => ResumeKeepsSweep(s, e);
  }

  lemma {:induction false} RunsKeepSweep(ids: Endpoint -> string, es: seq<Event>, e: Endpoint)
    ensures SweepWaits(Run(ids, es), e) && SweepCovers(Run(ids, es), e)
  {
    if es != [] {
      var s := Run(ids, es[..|es| - 1]);
      RunsKeepSweep(ids, es[..|es| - 1], e);
      if Enabled(s, es[|es| - 1]) {
        StepKeepsSweep(s, ids, es[|es| - 1], e);
      }
    }
  }

  lemma SomethingConcludes(s: Server, ids: Endpoint -> string, e: Endpoint) returns (ev: Event)
    requires e in s.disconnected && SweepWaits(s, e) && !AllOver(s, e)
    ensures Enabled(s, ev) && Concludes(ev, e) && e in Step(s, ids, ev).disconnected
    ensures WorkLeft(Step(s, ids, ev), e) < WorkLeft(s, e)
  {
    ev := if s.queue != [] then RunE(false) else if s.finished != [] then ResumeE else SweepE(e);
    WorkShrinks(s, ids, ev, e);
  }

  lemma NothingListed(s: Server, e: Endpoint)
    requires AllOver(s, e) && SweepCovers(s, e)
    ensures ImportedBy(s, e) == {}
  {
    assert Awaited(s, e) == [];
    assert forall t :: t !in ImportedBy(s, e);
  }

  function RunOn(s: Server, ids: Endpoint -> string, es: seq<Event>): Server
    decreases |es|
  {
    if es == [] then s else RunOn(Step(s, ids, es[0]), ids, es[1..])
  }

  lemma {:induction false} CleanUpEndsFrom(s: Server, ids: Endpoint -> string, e: Endpoint) returns (more: seq<Event>)
    requires e in s.disconnected && SweepWaits(s, e) && SweepCovers(s, e)
    ensures AllOver(RunOn(s, ids, more), e) && ImportedBy(RunOn(s, ids, more), e) == {}
    ensures forall ev | ev in more :: Concludes(ev, e)
    decreases WorkLeft(s, e)
  {
    if AllOver(s, e) {
      NothingListed(s, e);
      more := [];
    } else {
      var ev := SomethingConcludes(s, ids, e);
      StepKeepsSweep(s, ids, ev, e);
      var rest := CleanUpEndsFrom(Step(s, ids, ev), ids, e);
      more := [ev] + rest;
      assert more[1..] == rest;
    }
  }

  lemma {:induction false} RunConcat(ids: Endpoint -> string, es: seq<Event>, more: seq<Event>)
    ensures Run(ids, es + more) == RunOn(Run(ids, es), ids, more)
    decreases |more|
  {
    if more == [] {
      assert es + more == es;
    } else {
      var fs := es + [more[0]];
      assert fs[..|fs| - 1] == es;
      RunConcat(ids, fs, more[1..]);
      assert es + more == fs + more[1..];
    }
  }

  /** Once a client has gone, the runner and the event loop alone bring every run to the point where all is over. */
  lemma CleanUpEnds(ids: Endpoint -> string, es: seq<Event>, e: Endpoint) returns (more: seq<Event>)
    requires e in Run(ids, es).disconnected
    ensures AllOver(Run(ids, es + more), e) && OverFor(Run(ids, es + more), e) && ImportedBy(Run(ids, es + more), e) == {}
    ensures forall ev | ev in more :: Concludes(ev, e)
  {
    RunsKeepSweep(ids, es, e);
    more := CleanUpEndsFrom(Run(ids, es), ids, e);
    RunConcat(ids, es, more);
  }
}
