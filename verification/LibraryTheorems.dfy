/** Over all runs: no library leaks, none is torn down twice, and none is taken from a client that is still there. */
module LibraryTheorems {
  import opened LibraryTokens
  import opened Libraries

  // ---- One token, seen from one endpoint ----

  predicate Finalizes(c: Command, t: string) { c.Finalize? && c.token == t }

  /** What a command means for a token: its import or its end, by the endpoint in question or by another one. */
  datatype Mark = Ours | Theirs | Final | TheirFinal

  predicate Ends(m: Mark) { m == Final || m == TheirFinal }

  function MarkOf(c: Command, t: string, e: Endpoint): seq<Mark> {
    if c.token != t then []
    else if c.Finalize? then if c.endpoint == e then [Final] else [TheirFinal]
    else if c.endpoint == e then [Ours]
    else [Theirs]
  }

  function Marks(cs: seq<Command>, t: string, e: Endpoint): seq<Mark> {
    if cs == [] then [] else MarkOf(cs[0], t, e) + Marks(cs[1..], t, e)
  }

  /** `kept`: the endpoint lists the token as imported; `swept`: its clean-up will come to it. */
  datatype View = View(queue: seq<Mark>, finished: seq<Mark>, ran: bool, stored: bool, torn: nat, kept: bool, gone: bool, swept: bool)

  ghost function ViewOf(s: Server, t: string, e: Endpoint): View {
    View(Marks(s.queue, t, e), Marks(s.finished, t, e), t in s.ran, t in s.store, TornDown(s, t), t in ImportedBy(s, e),
         e in s.disconnected, e in s.disconnected && t in s.disconnected[e].left)
  }

  lemma {:induction false} MarksAppend(cs: seq<Command>, c: Command, t: string, e: Endpoint)
    ensures Marks(cs + [c], t, e) == Marks(cs, t, e) + MarkOf(c, t, e)
  {
    if cs == [] {
      assert cs + [c] == [c];
    } else {
      assert (cs + [c])[1..] == cs[1..] + [c];
      MarksAppend(cs[1..], c, t, e);
    }
  }

  /** The import is on its way at most once, and not after it has run. */
  ghost predicate ImportedOnce(v: View) {
    && multiset(v.queue)[Ours] + multiset(v.finished)[Ours] <= 1
    && Theirs !in v.queue && Theirs !in v.finished
    && (v.ran ==> Ours !in v.queue)
  }

  /** Torn down exactly when the import has run and the store holds the library no more. */
  ghost predicate TornDownOnce(v: View) {
    v.torn + (if v.stored then 1 else 0) == (if v.ran then 1 else 0)
  }

  /** The endpoint itself will still finalize the library, or put it where its clean-up finds it. */
  ghost predicate InGoodHands(v: View) {
    Ours in v.finished || Final in v.queue || (v.kept && (v.gone ==> v.swept))
  }

  /** A finalization by the endpoint whose handler has not gone on yet comes before the import. */
  ghost predicate EndsBeforeImport(ms: seq<Mark>) {
    forall i | 0 <= i < |ms| && ms[i] == Final :: Ours in ms[i + 1..]
  }

  ghost predicate Known(v: View) {
    && ImportedOnce(v)
    && TornDownOnce(v)
    && (v.stored ==> InGoodHands(v) && EndsBeforeImport(v.finished))
  }

  /** Nothing but requests to finalize it has anything to do with a token that is not given out yet. */
  ghost predicate Unknown(v: View) {
    && (forall m | m in v.queue :: Ends(m)) && (forall m | m in v.finished :: Ends(m))
    && !v.ran && !v.stored && v.torn == 0 && !v.kept && !v.swept
  }

  /** An endpoint has nothing to do with the token of another one, except that its client may name it. */
  ghost predicate Foreign(v: View) {
    Ours !in v.queue && Ours !in v.finished && !v.kept && !v.swept
  }

  ghost predicate Tracked(s: Server, t: string, e: Endpoint) {
    if t !in s.origins then Unknown(ViewOf(s, t, e))
    else if s.origins[t].endpoint == e then Known(ViewOf(s, t, e))
    else Foreign(ViewOf(s, t, e))
  }

  // ---- What a view goes through ----

  lemma PushKeeps(v: View, ms: seq<Mark>)
    requires Known(v) && (ms == [] || ms == [Final] || ms == [TheirFinal])
    ensures Known(v.(queue := v.queue + ms))
  {
  }

  lemma PushFinalKeeps(v: View, m: Mark, swept: bool)
    requires Ends(m) && if m == Final then swept ==> v.swept else swept == v.swept
    ensures var w := v.(queue := v.queue + [m], swept := swept);
      (Known(v) ==> Known(w)) && (Unknown(v) ==> Unknown(w)) && (Foreign(v) ==> Foreign(w))
  {
    if Known(v) {
      PushKeeps(v, [m]);
      assert m in v.queue + [m];
    }
  }

  lemma FirstImport(v: View)
    requires Unknown(v)
    ensures Known(v.(queue := v.queue + [Ours]))
  {
    assert Ours !in v.queue && Ours !in v.finished;
  }

  function Ran(v: View, fails: bool): View
    requires v.queue != []
  {
    var w := v.(queue := v.queue[1..]);
    if Ends(v.queue[0]) then
      w.(finished := v.finished + [v.queue[0]], stored := false, torn := v.torn + if v.stored then 1 else 0)
    else if fails then w
    else w.(finished := v.finished + [v.queue[0]], ran := true, stored := true)
  }

  lemma RunKeeps(v: View, fails: bool)
    requires v.queue != [] && Known(v)
    ensures Known(Ran(v, fails))
  {
    assert v.queue == [v.queue[0]] + v.queue[1..];
    var ms := v.finished + [Ours];
    forall i | 0 <= i < |ms| && ms[i] == Final ensures Ours in ms[i + 1..] {
      assert ms[i + 1..][|ms| - i - 2] == Ours;
    }
  }

  lemma RunKeepsOthers(v: View, fails: bool)
    requires v.queue != []
    ensures Unknown(v) ==> Unknown(Ran(v, fails))
    ensures Foreign(v) ==> Foreign(Ran(v, fails))
  {
    assert v.queue[0] in v.queue;
    assert forall m | m in v.queue[1..] :: m in v.queue;
  }

  /** `kept` is what the endpoint's list says of the token after a finalization of its own. */
  function Resumed(v: View, kept: bool): View
    requires v.finished != []
  {
    var w := v.(finished := v.finished[1..]);
    if v.finished[0] == Ours && v.gone then w.(queue := v.queue + [Final])
    else if v.finished[0] == TheirFinal then w
    else w.(kept := v.finished[0] == Ours || kept)
  }

  lemma EndsBeforeImportTail(ms: seq<Mark>)
    requires ms != [] && EndsBeforeImport(ms)
    ensures EndsBeforeImport(ms[1..])
    ensures ms[0] == Final ==> Ours in ms[1..]
  {
    var ns := ms[1..];
    forall i | 0 <= i < |ns| && ns[i] == Final ensures Ours in ns[i + 1..] {
      assert ms[i + 1] == Final && ms[i + 2..] == ns[i + 1..];
    }
    assert ms[0] == Final ==> Ours in ms[0 + 1..];
  }

  lemma ResumeKeepsImports(v: View, kept: bool)
    requires v.finished != [] && ImportedOnce(v)
    ensures ImportedOnce(Resumed(v, kept))
    ensures v.finished[0] == Ours ==> Ours !in v.finished[1..]
  {
    assert v.finished == [v.finished[0]] + v.finished[1..];
    assert multiset(v.finished) == multiset{v.finished[0]} + multiset(v.finished[1..]);
  }

  lemma ResumeKeeps(v: View, kept: bool)
    requires v.finished != [] && (kept ==> v.kept) && Known(v)
    ensures Known(Resumed(v, kept))
  {
    ResumeKeepsImports(v, kept);
    if v.stored {
      assert v.finished[0] in v.finished;
      EndsBeforeImportTail(v.finished);
      ResumeKeepsHands(v, kept);
    }
  }

  lemma ResumeKeepsHands(v: View, kept: bool)
    requires v.finished != [] && (kept ==> v.kept) && InGoodHands(v)
    requires v.finished[0] != Theirs && (v.finished[0] == Final ==> Ours in v.finished[1..])
    ensures InGoodHands(Resumed(v, kept))
  {
    var first, rest := v.finished[0], v.finished[1..];
    if first == Ours && v.gone {
      assert Final in v.queue + [Final];
    } else if Ours in v.finished && first != Ours {
      assert v.finished == [first] + rest;
      assert Ours in rest;
    }
  }

  lemma ResumeKeepsOthers(v: View, kept: bool)
    requires v.finished != [] && (kept ==> v.kept)
    ensures Unknown(v) ==> Unknown(Resumed(v, kept))
    ensures Foreign(v) ==> Foreign(Resumed(v, kept))
  {
    assert v.finished[0] in v.finished;
    assert forall m | m in v.finished[1..] :: m in v.finished;
  }

  // ---- Each step keeps track of every token ----

  /** Endpoint ids are random; the model takes them as distinct. */
  ghost predicate DistinctIds(ids: Endpoint -> string) {
    && (forall e: Endpoint :: IsEndpointId(ids(e)))
    && (forall e: Endpoint, f: Endpoint :: ids(e) == ids(f) ==> e == f)
  }

  ghost predicate TokensFollowCounters(s: Server, ids: Endpoint -> string) {
    forall t | t in s.origins ::
      var o := s.origins[t]; t == Token(o.name, ids(o.endpoint), o.n) && o.n < CounterOf(s, o.endpoint)
  }

  lemma FreshToken(s: Server, ids: Endpoint -> string, e: Endpoint, name: string)
    requires DistinctIds(ids) && TokensFollowCounters(s, ids)
    ensures Token(name, ids(e), CounterOf(s, e)) !in s.origins
    ensures TokensFollowCounters(StartImport(s, ids, e, name), ids)
  {
    var t := Token(name, ids(e), CounterOf(s, e));
    if t in s.origins {
      var o := s.origins[t];
      TokensNeverCollide(o.name, ids(o.endpoint), o.n, name, ids(e), CounterOf(s, e));
      assert false;
    }
  }

  lemma StartImportTracks(s: Server, ids: Endpoint -> string, f: Endpoint, name: string, t: string, e: Endpoint)
    requires Tracked(s, t, e) && Token(name, ids(f), CounterOf(s, f)) !in s.origins
    ensures Tracked(StartImport(s, ids, f, name), t, e)
  {
    var v := ViewOf(s, t, e);
    var c := Import(f, Token(name, ids(f), CounterOf(s, f)));
    MarksAppend(s.queue, c, t, e);
    assert ViewOf(StartImport(s, ids, f, name), t, e) == v.(queue := v.queue + MarkOf(c, t, e));
    if t == c.token {
      FirstImport(v);
    }
  }

  lemma PushTracks(s: Server, f: Endpoint, u: string, w: Waiter, t: string, e: Endpoint)
    requires Tracked(s, t, e)
    ensures Tracked(s.(queue := s.queue + [Finalize(f, u, w)]), t, e)
  {
    var v := ViewOf(s, t, e);
    var c := Finalize(f, u, w);
    MarksAppend(s.queue, c, t, e);
    assert ViewOf(s.(queue := s.queue + [c]), t, e) == v.(queue := v.queue + MarkOf(c, t, e));
    if Known(v) {
      PushKeeps(v, MarkOf(c, t, e));
    }
  }

  lemma DisconnectTracks(s: Server, f: Endpoint, order: seq<string>, t: string, e: Endpoint)
    requires Tracked(s, t, e) && Enabled(s, DisconnectE(f, order))
    ensures Tracked(Disconnect(s, f, order), t, e)
  {
    var v := ViewOf(s, t, e);
    assert t in order <==> t in ImportedBy(s, f);
    assert ViewOf(Disconnect(s, f, order), t, e) == if f == e then v.(gone := true, swept := v.kept) else v;
  }

  lemma SweepTracks(s: Server, f: Endpoint, t: string, e: Endpoint)
    requires Tracked(s, t, e) && Enabled(s, SweepE(f))
    ensures Tracked(SweepNext(s, f), t, e)
  {
    var left := s.disconnected[f].left;
    var c := Finalize(f, left[0], CleanUp);
    var v, w := ViewOf(s, t, e), ViewOf(SweepNext(s, f), t, e);
    MarksAppend(s.queue, c, t, e);
    assert left == [left[0]] + left[1..];
    if t == left[0] {
      var m := MarkOf(c, t, e)[0];
      assert w == v.(queue := v.queue + [m], swept := w.swept) && (w.swept ==> v.swept);
      PushFinalKeeps(v, m, w.swept);
    } else {
      assert w == v;
    }
  }

  lemma MarksFirst(cs: seq<Command>, t: string, e: Endpoint)
    requires cs != []
    ensures var ms := Marks(cs, t, e);
      if cs[0].token == t then ms != [] && MarkOf(cs[0], t, e) == [ms[0]] && ms[1..] == Marks(cs[1..], t, e)
      else ms == Marks(cs[1..], t, e)
  {
  }

  lemma OthersUnseen(s: Server, fails: bool, t: string, e: Endpoint)
    ensures s.queue != [] && s.queue[0].token != t ==> ViewOf(RunNext(s, fails), t, e) == ViewOf(s, t, e)
  {
    if s.queue != [] && s.queue[0].token != t {
      MarksAppend(s.finished, s.queue[0], t, e);
      MarksFirst(s.queue, t, e);
      var s' := RunNext(s, fails);
      assert Marks(s'.finished, t, e) == Marks(s.finished, t, e);
    }
  }

  lemma RunSeen(s: Server, fails: bool, t: string, e: Endpoint)
    requires s.queue != [] && s.queue[0].token == t
    ensures ViewOf(s, t, e).queue != [] && ViewOf(RunNext(s, fails), t, e) == Ran(ViewOf(s, t, e), fails)
  {
    var v, w, c := ViewOf(s, t, e), ViewOf(RunNext(s, fails), t, e), s.queue[0];
    MarksAppend(s.finished, c, t, e);
    MarksFirst(s.queue, t, e);
    assert w.queue == v.queue[1..] && MarkOf(c, t, e) == [v.queue[0]];
    if c.Finalize? {
      assert w.torn == v.torn + if v.stored then 1 else 0;
    } else {
      assert w.torn == v.torn;
    }
  }

  lemma RunTracks(s: Server, fails: bool, t: string, e: Endpoint)
    requires Tracked(s, t, e) && s.queue != []
    ensures Tracked(RunNext(s, fails), t, e)
  {
    var v := ViewOf(s, t, e);
    OthersUnseen(s, fails, t, e);
    if s.queue[0].token == t {
      RunSeen(s, fails, t, e);
      if Known(v) { RunKeeps(v, fails); }
      RunKeepsOthers(v, fails);
    }
  }

  lemma ResumeOther(s: Server, t: string, e: Endpoint)
    requires s.finished != [] && s.finished[0].token != t
    ensures ViewOf(Resume(s), t, e) == ViewOf(s, t, e)
  {
    var c, s' := s.finished[0], Resume(s);
    MarksAppend(s.queue, Finalize(c.endpoint, c.token, LateImport), t, e);
    MarksFirst(s.finished, t, e);
    assert Marks(s'.queue, t, e) == Marks(s.queue, t, e);
  }

  lemma ResumeImportSeen(s: Server, t: string, e: Endpoint)
    requires s.finished != [] && s.finished[0] == Import(e, t)
    ensures ViewOf(s, t, e).finished != [] && ViewOf(s, t, e).finished[0] == Ours
    ensures ViewOf(Resume(s), t, e) == Resumed(ViewOf(s, t, e), false)
  {
    MarksAppend(s.queue, Finalize(e, t, LateImport), t, e);
    MarksFirst(s.finished, t, e);
  }

  lemma ResumeForeignSeen(s: Server, t: string, e: Endpoint)
    requires s.finished != [] && s.finished[0].Import? && s.finished[0].token == t && s.finished[0].endpoint != e
    requires Foreign(ViewOf(s, t, e))
    ensures Foreign(ViewOf(Resume(s), t, e))
  {
    var v, w := ViewOf(s, t, e), ViewOf(Resume(s), t, e);
    MarksAppend(s.queue, Finalize(s.finished[0].endpoint, t, LateImport), t, e);
    MarksFirst(s.finished, t, e);
    assert v.finished == [Theirs] + w.finished;
    assert w.queue == v.queue || w.queue == v.queue + [TheirFinal];
  }

  lemma ResumeFinalizeSeen(s: Server, t: string, e: Endpoint)
    requires s.finished != [] && Finalizes(s.finished[0], t)
    ensures var v, w := ViewOf(s, t, e), ViewOf(Resume(s), t, e);
      v.finished != [] && Ends(v.finished[0]) && (w.kept ==> v.kept) && w == Resumed(v, w.kept)
  {
    MarksFirst(s.finished, t, e);
  }

  lemma ResumeTracks(s: Server, t: string, e: Endpoint)
    requires Tracked(s, t, e) && s.finished != []
    ensures Tracked(Resume(s), t, e)
  {
    var c, v := s.finished[0], ViewOf(s, t, e);
    if c.token != t {
      ResumeOther(s, t, e);
    } else if c.Finalize? {
      ResumeFinalizeSeen(s, t, e);
      var kept := t in ImportedBy(Resume(s), e);
      if Known(v) { ResumeKeeps(v, kept); }
      ResumeKeepsOthers(v, kept);
    } else {
      MarksFirst(s.finished, t, e);
      assert v.finished[0] in v.finished;
      if Known(v) {
        assert c.endpoint == e;
        ResumeImportSeen(s, t, e);
        ResumeKeeps(v, false);
      } else if Foreign(v) {
        assert c.endpoint != e;
        ResumeForeignSeen(s, t, e);
      }
    }
  }

  lemma StepTracks(s: Server, ids: Endpoint -> string, ev: Event, t: string, e: Endpoint)
    requires DistinctIds(ids) && TokensFollowCounters(s, ids) && Tracked(s, t, e) && Enabled(s, ev)
    ensures Tracked(Step(s, ids, ev), t, e)
  {
    match ev
    case ImportE(f, name) =>
      FreshToken(s, ids, f, name);
      StartImportTracks(s, ids, f, name, t, e);
    case FinalizeE(f, u) => PushTracks(s, f, u, Handler, t, e);
    case DisconnectE(f, order) => DisconnectTracks(s, f, order, t, e);
    case SweepE(f) => SweepTracks(s, f, t, e);
    case RunE(fails) => RunTracks(s, fails, t, e);
    case ResumeE => ResumeTracks(s, t, e);
  }

  lemma StepFollowsCounters(s: Server, ids: Endpoint -> string, ev: Event)
    requires DistinctIds(ids) && TokensFollowCounters(s, ids)
    ensures TokensFollowCounters(Step(s, ids, ev), ids)
  {
    if ev.ImportE? {
      FreshToken(s, ids, ev.e, ev.name);
    } else {
      assert Step(s, ids, ev).counters == s.counters && Step(s, ids, ev).origins == s.origins;
    }
  }

  lemma {:induction false} RunsTrack(ids: Endpoint -> string, es: seq<Event>, t: string, e: Endpoint)
    requires DistinctIds(ids)
    ensures TokensFollowCounters(Run(ids, es), ids) && Tracked(Run(ids, es), t, e)
  {
    if es != [] {
      RunsTrack(ids, es[..|es| - 1], t, e);
      var s := Run(ids, es[..|es| - 1]);
      StepFollowsCounters(s, ids, es[|es| - 1]);
      if Enabled(s, es[|es| - 1]) {
        StepTracks(s, ids, es[|es| - 1], t, e);
      }
    }
  }

  /** The runner runs the import of `t` at event `i`, and it succeeds. */
  predicate ImportsAt(ids: Endpoint -> string, es: seq<Event>, i: nat, t: string)
    requires i < |es|
  {
    var queue := Run(ids, es[..i]).queue;
    es[i] == RunE(false) && queue != [] && queue[0].Import? && queue[0].token == t
  }

  /** What is recorded as imported is what the runner has imported. */
  lemma {:induction false} RanExactlyIf(ids: Endpoint -> string, es: seq<Event>, t: string)
    ensures t in Run(ids, es).ran <==> exists i | 0 <= i < |es| :: ImportsAt(ids, es, i, t)
  {
    if es != [] {
      var n := |es| - 1;
      RanExactlyIf(ids, es[..n], t);
      forall i | 0 <= i < n ensures ImportsAt(ids, es, i, t) <==> ImportsAt(ids, es[..n], i, t) {
        assert es[..n][..i] == es[..i];
      }
      assert t in Run(ids, es).ran <==> t in Run(ids, es[..n]).ran || ImportsAt(ids, es, n, t);
    }
  }

  // ---- Nothing leaks ----

  lemma {:induction false} NoMarksOfItsOwn(cs: seq<Command>, t: string, e: Endpoint)
    requires forall c | c in cs :: c.endpoint != e
    ensures Ours !in Marks(cs, t, e) && Final !in Marks(cs, t, e)
  {
    if cs != [] {
      NoMarksOfItsOwn(cs[1..], t, e);
    }
  }

  /** However imports, finalizations, the disconnect and the runner take turns, and whatever other clients still have
      under way: when the commands of a client that has gone are run, its handlers have gone on and its clean-up is at its
      end, the store holds none of its libraries, and each one that was imported was torn down once. */
  lemma NothingLeaks(ids: Endpoint -> string, es: seq<Event>, t: string)
    requires DistinctIds(ids)
    requires var s := Run(ids, es); t in s.origins && OverFor(s, s.origins[t].endpoint)
    ensures var s := Run(ids, es);
      t !in s.store && TornDown(s, t) == if t in s.ran then 1 else 0
  {
    var s := Run(ids, es);
    var e := s.origins[t].endpoint;
    RunsTrack(ids, es, t, e);
    NoMarksOfItsOwn(s.queue, t, e);
    NoMarksOfItsOwn(s.finished, t, e);
    assert Known(ViewOf(s, t, e));
  }

  /** At no time is a library torn down twice, or torn down while the store holds it, or held without its import. */
  lemma TornDownAtMostOnce(ids: Endpoint -> string, es: seq<Event>, t: string)
    requires DistinctIds(ids)
    ensures var s := Run(ids, es); TornDown(s, t) + (if t in s.store then 1 else 0) == (if t in s.ran then 1 else 0)
    ensures Run(ids, es).store <= Run(ids, es).origins.Keys
  {
    var s := Run(ids, es);
    var e := if t in s.origins then s.origins[t].endpoint else 0;
    RunsTrack(ids, es, t, e);
    forall u | u in s.store ensures u in s.origins {
      RunsTrack(ids, es, u, 0);
      assert u !in s.origins ==> Unknown(ViewOf(s, u, 0));
    }
  }

  // ---- Nothing is taken from a client that is still there ----

  ghost predicate Untouched(s: Server, t: string, e: Endpoint) {
    e !in s.disconnected ==> Final !in Marks(s.queue, t, e) && TheirFinal !in Marks(s.queue, t, e) && TornDown(s, t) == 0
  }

  predicate AsksFor(ev: Event, t: string) { ev.FinalizeE? && ev.token == t }

  lemma PushUntouched(s: Server, c: Command, t: string, e: Endpoint)
    requires Untouched(s, t, e) && (Finalizes(c, t) ==> e in s.disconnected)
    ensures Untouched(s.(queue := s.queue + [c]), t, e)
  {
    MarksAppend(s.queue, c, t, e);
  }

  lemma RunUntouched(s: Server, fails: bool, t: string, e: Endpoint)
    requires Untouched(s, t, e) && s.queue != []
    ensures Untouched(RunNext(s, fails), t, e)
  {
    MarksFirst(s.queue, t, e);
  }

  lemma ResumeUntouched(s: Server, t: string, e: Endpoint)
    requires Untouched(s, t, e) && s.finished != [] && Theirs !in Marks(s.finished, t, e)
    ensures Untouched(Resume(s), t, e)
  {
    var c := s.finished[0];
    MarksFirst(s.finished, t, e);
    MarksAppend(s.queue, Finalize(c.endpoint, c.token, LateImport), t, e);
  }

  lemma StepUntouched(s: Server, ids: Endpoint -> string, ev: Event, t: string, e: Endpoint)
    requires Untouched(s, t, e) && !AsksFor(ev, t) && Enabled(s, ev)
    requires ev.SweepE? && ev.e != e ==> !ViewOf(s, t, ev.e).swept
    requires Theirs !in Marks(s.finished, t, e)
    ensures Untouched(Step(s, ids, ev), t, e)
  {
    match ev
    case ImportE(f, name) => PushUntouched(s, Import(f, Token(name, ids(f), CounterOf(s, f))), t, e);
    case FinalizeE(f, u) => PushUntouched(s, Finalize(f, u, Handler), t, e);
    case DisconnectE(f, order) =>
    case SweepE(f) => PushUntouched(s, Finalize(f, s.disconnected[f].left[0], CleanUp), t, e);
    case RunE(fails) => RunUntouched(s, fails, t, e);
    case ResumeE => ResumeUntouched(s, t, e);
  }

  lemma StepKeepsOrigins(s: Server, ids: Endpoint -> string, ev: Event, t: string)
    requires DistinctIds(ids) && TokensFollowCounters(s, ids) && t in s.origins
    ensures t in Step(s, ids, ev).origins && Step(s, ids, ev).origins[t] == s.origins[t]
  {
    if ev.ImportE? {
      FreshToken(s, ids, ev.e, ev.name);
    }
  }

  lemma {:induction false} RunsLeaveUntouched(ids: Endpoint -> string, es: seq<Event>, t: string, e: Endpoint)
    requires DistinctIds(ids) && forall ev | ev in es :: !AsksFor(ev, t)
    requires t in Run(ids, es).origins ==> Run(ids, es).origins[t].endpoint == e
    ensures Untouched(Run(ids, es), t, e)
  {
    if es != [] {
      var fs, ev := es[..|es| - 1], es[|es| - 1];
      var s := Run(ids, fs);
      RunsTrack(ids, fs, t, e);
      if t in s.origins {
        StepKeepsOrigins(s, ids, ev, t);
      }
      RunsLeaveUntouched(ids, fs, t, e);
      if Enabled(s, ev) {
        if ev.SweepE? {
          RunsTrack(ids, fs, t, ev.e);
        }
        StepUntouched(s, ids, ev, t, e);
      }
    }
  }

  /** While its client is there and nobody asks for its end, an imported library stays in the store, whatever other
      clients do and whichever of them go. */
  lemma KeptWhileConnected(ids: Endpoint -> string, es: seq<Event>, t: string)
    requires DistinctIds(ids) && forall ev | ev in es :: !AsksFor(ev, t)
    requires var s := Run(ids, es); t in s.ran && t in s.origins && s.origins[t].endpoint !in s.disconnected
    ensures t in Run(ids, es).store
  {
    RunsLeaveUntouched(ids, es, t, Run(ids, es).origins[t].endpoint);
    TornDownAtMostOnce(ids, es, t);
  }
}
