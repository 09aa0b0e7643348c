/** Two peers joined by two first-in-first-out channels. Each sends requests, numbered from "1", handles each
    incoming message in a task of its own, gives up on requests and may close, in any interleaving. */
module TwoPeers {
  import opened Decimal
  import opened JsonTypes
  import opened Messages
  import opened PeerStates

  /** A run of a handler: the call that it was for, the answer it gave, and the message that was made of it. */
  datatype Handled = Handled(call: Members, answer: Answer<Json>, reply: Members)

  /** One side: its peer, the channel to the other side, the tasks for messages that have arrived. For the record,
      what it sent for each request, and the last run for each id that the other side asked with. */
  datatype Side = Side(
    peer: Peer,
    out: seq<Members>,
    tasks: seq<Members>,
    sent: map<string, Members>,
    ran: map<string, Handled>)

  datatype System = System(left: Side, right: Side)

  const START := System(Side(INITIAL, [], [], map[], map[]), Side(INITIAL, [], [], map[], map[]))

  datatype Event =
    | Call(name: string, params: Json)       // send a request
    | Arrive                                 // take the next message of the other side and start its task
    | Finish(i: nat, answer: Answer<Json>, lost: bool)  // a task ends; its answer may be lost with the writer
    | Cancel(i: nat)                         // a task is cancelled
    | Abandon(n: nat)                        // a request times out or its caller is cancelled
    | GoOn(n: nat)                           // the caller of a request goes on
    | Close

  // ---- Messages on the wire ----

  function CallMessage(id: string, name: string, params: Json): Members {
    map["jsonrpc" := Str("2.0"), "method" := Str(name), "id" := Str(id), "params" := params]
  }

  /** The answer of a request handler, written under the id of its request. */
  function AnswerMessage(id: string, a: Answer<Json>): Members {
    match a
    case Result(_, r) => map["jsonrpc" := Str("2.0"), "id" := Str(id), "result" := r]
    case Error(_, code) =>
      map["jsonrpc" := Str("2.0"), "id" := Str(id), "error" := Obj(map["code" := Int(code), "message" := Str("")])]
  }

  /** What the caller is to get for the answer of a handler: its result, or its error. */
  function Received(a: Answer<Json>): Future {
    match a
    case Result(_, r) => Resolved(r)
    case Error(_, code) => Refused(Int(code))
  }

  /** A message about the request `id` of its sender. */
  predicate IsCallFor(m: Members, id: string) { "method" in m && Member(m, "id") == Str(id) }

  /** A message about the request `id` of its receiver. */
  predicate IsAnswerTo(m: Members, id: string) { "method" !in m && Member(m, "id") == Str(id) }

  // ---- Steps of the side `me`, next to the side `other` ----

  function Without<A>(s: seq<A>, i: nat): seq<A>
    requires i < |s|
  {
    s[..i] + s[i + 1..]
  }

  predicate Enabled(me: Side, other: Side, e: Event) {
    match e
    case Arrive => other.out != [] && !me.peer.closed
    case Finish(i, _, _) => i < |me.tasks|
    case Cancel(i) => i < |me.tasks|
    case _ => true
  }

  function SendCall(me: Side, name: string, params: Json): Side {
    if me.peer.closed then me
    else Sending(me, Numeral(me.peer.counter), CallMessage(Numeral(me.peer.counter), name, params))
  }

  function Sending(me: Side, id: string, m: Members): Side {
    me.(peer := Send(me.peer), out := me.out + [m], sent := me.sent[id := m])
  }

  /** The task for a response hands it to the peer; any other task that has an id to answer ends with an answer. */
  function FinishTask(me: Side, i: nat, answer: Answer<Json>, lost: bool): Side
    requires i < |me.tasks|
  {
    var m := me.tasks[i];
    var rest := me.(tasks := Without(me.tasks, i));
    if TakenAsResponse(Obj(m)) then rest.(peer := Respond(me.peer, m))
    else if !Member(m, "id").Str? then rest
    else EndRun(rest, Member(m, "id").s, RunOf(m, answer), lost)
  }

  function RunOf(m: Members, answer: Answer<Json>): Handled
    requires Member(m, "id").Str?
  {
    Handled(m, answer, AnswerMessage(Member(m, "id").s, answer))
  }

  function EndRun(me: Side, id: string, h: Handled, lost: bool): Side {
    me.(ran := me.ran[id := h], out := if lost then me.out else me.out + [h.reply])
  }

  function Mine(me: Side, other: Side, e: Event): Side
    requires Enabled(me, other, e)
  {
    match e
    case Call(name, params) => SendCall(me, name, params)
    case Arrive => me.(tasks := me.tasks + [other.out[0]])
    case Finish(i, answer, lost) => FinishTask(me, i, answer, lost)
    case Cancel(i) => me.(tasks := Without(me.tasks, i))
    case Abandon(n) => me.(peer := GiveUp(me.peer, n))
    case GoOn(n) => me.(peer := Leave(me.peer, n))
    case Close => me.(peer := PeerStates.Finish(me.peer))
  }

  function Others(me: Side, other: Side, e: Event): Side
    requires Enabled(me, other, e)
  {
    if e.Arrive? then other.(out := other.out[1..]) else other
  }

  function Step(s: System, onLeft: bool, e: Event): System {
    if onLeft then
      if Enabled(s.left, s.right, e) then System(Mine(s.left, s.right, e), Others(s.left, s.right, e)) else s
    else
      if Enabled(s.right, s.left, e) then System(Others(s.right, s.left, e), Mine(s.right, s.left, e)) else s
  }

  function Run(s: System, es: seq<(bool, Event)>): System {
    if es == [] then s else var (onLeft, e) := es[|es| - 1]; Step(Run(s, es[..|es| - 1]), onLeft, e)
  }

  // ---- Where the requests of a peer are ----

  /** The requests of one side: what is under way to the other side and back, in channels or tasks, and what the
      runs over there have answered. */
  datatype View = View(
    peer: Peer,
    sent: map<string, Members>,
    there: multiset<Members>,
    back: multiset<Members>,
    ran: map<string, Handled>)

  ghost function ViewOf(p: Side, q: Side): View {
    View(p.peer, p.sent, multiset(p.out) + multiset(q.tasks), multiset(q.out) + multiset(p.tasks), q.ran)
  }

  ghost predicate Issued(peer: Peer, id: string) {
    AllDigits(id) && 1 <= ValueOf(id) < peer.counter && id == Numeral(ValueOf(id))
  }

  ghost predicate Answered(f: Future) { f.Resolved? || f.Refused? || f.Invalid? }

  /** A call is underway once, as it was sent, and only until a run has answered it. */
  ghost predicate CallsOnce(v: View) {
    forall m, id | m in v.there && IsCallFor(m, id) :: v.there[m] == 1 && id in v.sent && m == v.sent[id] && id !in v.ran
  }

  /** An answer is underway once, and it is the one of the run for its request. */
  ghost predicate AnswersOnce(v: View) {
    forall m, id | m in v.back && IsAnswerTo(m, id) :: v.back[m] == 1 && id in v.ran && m == v.ran[id].reply
  }

  /** The message says what the handler answered. */
  ghost predicate TellsItsAnswer(h: Handled) { OutcomeOf(h.reply) == Received(h.answer) }

  /** Every run was for a call that was sent. */
  ghost predicate RunsKnown(v: View) {
    && (forall id | id in v.sent :: Issued(v.peer, id))
    && (forall id | id in v.ran ::
          id in v.sent && v.ran[id].call == v.sent[id] && IsAnswerTo(v.ran[id].reply, id) && TellsItsAnswer(v.ran[id]))
  }

  /** A request that got an answer got the one of its own run, and that is not underway anymore. */
  ghost predicate Consumed(v: View) {
    forall n: nat | n in v.peer.futures && Answered(v.peer.futures[n]) ::
      var id := Numeral(n);
      id in v.ran && v.peer.futures[n] == OutcomeOf(v.ran[id].reply) && v.ran[id].reply !in v.back
  }

  ghost predicate Good(v: View) {
    Valid(v.peer) && CallsOnce(v) && AnswersOnce(v) && RunsKnown(v) && Consumed(v)
  }

  ghost predicate Both(me: Side, other: Side) { Good(ViewOf(me, other)) && Good(ViewOf(other, me)) }

  ghost predicate Inv(s: System) { Both(s.left, s.right) }

  // ---- How steps change a view ----

  /** Nothing new is underway or received. */
  ghost predicate Shrinks(v: View, w: View) {
    && Valid(w.peer) && v.peer.counter <= w.peer.counter
    && w.sent == v.sent && w.ran == v.ran && w.there <= v.there && w.back <= v.back
    && (forall n | n in w.peer.futures && Answered(w.peer.futures[n]) ::
          n in v.peer.futures && v.peer.futures[n] == w.peer.futures[n])
  }

  lemma ShrinkingIsGood(v: View, w: View)
    requires Good(v) && Shrinks(v, w)
    ensures Good(w)
  {
    assert forall m :: w.there[m] <= v.there[m] && w.back[m] <= v.back[m];
  }

  ghost function AfterSending(v: View, id: string, m: Members): View {
    v.(peer := Send(v.peer), sent := v.sent[id := m], there := v.there + multiset{m})
  }

  lemma SendingIsGood(v: View, id: string, m: Members)
    requires Good(v) && !v.peer.closed && id == Numeral(v.peer.counter) && IsCallFor(m, id)
    ensures Good(AfterSending(v, id, m))
  {
    SendKeepsValid(v.peer);
    ValueOfNumeral(v.peer.counter);
    assert !Issued(v.peer, id);
    assert id !in v.sent && id !in v.ran;
    SendingCallsOnce(v, id, m);
    SendingRunsKnown(v, id, m);
  }

  lemma SendingCallsOnce(v: View, id: string, m: Members)
    requires CallsOnce(v) && IsCallFor(m, id) && id !in v.sent && id !in v.ran
    ensures CallsOnce(AfterSending(v, id, m))
  {
    assert m !in v.there;
  }

  lemma SendingRunsKnown(v: View, id: string, m: Members)
    requires RunsKnown(v) && !v.peer.closed && id == Numeral(v.peer.counter) && v.peer.counter >= 1 && id !in v.sent
    ensures RunsKnown(AfterSending(v, id, m))
  {
    ValueOfNumeral(v.peer.counter);
  }

  /** A message from the other side that says nothing about a request of this one. */
  lemma OtherMessageIsGood(v: View, m: Members)
    requires Good(v) && "method" in m
    ensures Good(v.(back := v.back + multiset{m}))
  {
  }

  lemma OwnAnswerIsGood(v: View, m: Members)
    requires Good(v) && "method" !in m
    ensures Good(v.(there := v.there + multiset{m}))
  {
  }

  /** The response `m` reaches the peer. */
  lemma ReceivingIsGood(v: View, m: Members, id: string)
    requires Good(v) && m in v.back && IsAnswerTo(m, id)
    ensures Good(v.(peer := Respond(v.peer, m), back := v.back - multiset{m}))
  {
    RespondKeepsValid(v.peer, m);
    ShrinkingIsGood(v, v.(back := v.back - multiset{m}));
    ReceivedIsConsumed(v, m, id);
  }

  lemma ReceivedIsConsumed(v: View, m: Members, id: string)
    requires Valid(v.peer) && Consumed(v) && AnswersOnce(v) && m in v.back && IsAnswerTo(m, id)
    ensures Consumed(v.(peer := Respond(v.peer, m), back := v.back - multiset{m}))
  {
    var w := v.(peer := Respond(v.peer, m), back := v.back - multiset{m});
    assert v.back[m] == 1 && w.back[m] == 0;
    forall n: nat | n in w.peer.futures && Answered(w.peer.futures[n])
      ensures Numeral(n) in w.ran && w.peer.futures[n] == OutcomeOf(w.ran[Numeral(n)].reply) && w.ran[Numeral(n)].reply !in w.back
    {
      ResponseResolvesItsRequest(v.peer, m, n);
    }
  }

  /** The run `h` for its call ends, and its message is written or lost. */
  ghost function AfterRun(v: View, id: string, h: Handled, lost: bool): View {
    v.(there := v.there - multiset{h.call}, ran := v.ran[id := h], back := if lost then v.back else v.back + multiset{h.reply})
  }

  lemma AnsweringIsGood(v: View, id: string, h: Handled, lost: bool)
    requires Good(v) && h.call in v.there && IsCallFor(h.call, id) && IsAnswerTo(h.reply, id) && TellsItsAnswer(h)
    ensures Good(AfterRun(v, id, h, lost))
  {
    assert id !in v.ran;
    assert h.reply !in v.back;
    CallAnswered(v, id, h, lost);
    AnswerUnderway(v, id, h, lost);
    StillConsumed(v, id, h, lost);
  }

  lemma StillConsumed(v: View, id: string, h: Handled, lost: bool)
    requires Consumed(v) && RunsKnown(v) && id !in v.ran && IsAnswerTo(h.reply, id)
    ensures Consumed(AfterRun(v, id, h, lost))
  {
  }

  lemma CallAnswered(v: View, id: string, h: Handled, lost: bool)
    requires CallsOnce(v) && h.call in v.there && IsCallFor(h.call, id)
    ensures CallsOnce(AfterRun(v, id, h, lost))
  {
    var w := AfterRun(v, id, h, lost);
    assert v.there[h.call] == 1 && w.there[h.call] == 0;
  }

  lemma AnswerUnderway(v: View, id: string, h: Handled, lost: bool)
    requires AnswersOnce(v) && id !in v.ran && h.reply !in v.back && IsAnswerTo(h.reply, id)
    ensures AnswersOnce(AfterRun(v, id, h, lost))
  {
  }

  // ---- The invariant over the steps ----

  lemma Split(s: seq<Members>, i: nat)
    requires i < |s|
    ensures multiset(Without(s, i)) == multiset(s) - multiset{s[i]} && s[i] in multiset(s)
  {
    assert s == s[..i] + [s[i]] + s[i + 1..];
  }

  lemma PeerStep(me: Side, other: Side, peer': Peer)
    requires Both(me, other) && Valid(peer') && Extends(me.peer, peer')
    requires forall n | n in peer'.futures && Answered(peer'.futures[n]) :: n in me.peer.futures && me.peer.futures[n] == peer'.futures[n]
    ensures Both(me.(peer := peer'), other)
  {
    ShrinkingIsGood(ViewOf(me, other), ViewOf(me.(peer := peer'), other));
  }

  lemma CallStep(me: Side, other: Side, name: string, params: Json)
    requires Both(me, other)
    ensures Both(SendCall(me, name, params), other)
  {
    if !me.peer.closed {
      var m := CallMessage(Numeral(me.peer.counter), name, params);
      var me' := SendCall(me, name, params);
      SendingIsGood(ViewOf(me, other), Numeral(me.peer.counter), m);
      OtherMessageIsGood(ViewOf(other, me), m);
      CallViews(me, other, Numeral(me.peer.counter), m);
    }
  }

  lemma CallViews(me: Side, other: Side, id: string, m: Members)
    ensures var (v, u) := (ViewOf(me, other), ViewOf(other, me));
      var me' := Sending(me, id, m);
      && ViewOf(me', other) == AfterSending(v, id, m)
      && ViewOf(other, me') == u.(back := u.back + multiset{m})
  {
  }

  lemma ArriveStep(me: Side, other: Side)
    requires Both(me, other) && Enabled(me, other, Arrive)
    ensures Both(Mine(me, other, Arrive), Others(me, other, Arrive))
  {
    var me', other' := Mine(me, other, Arrive), Others(me, other, Arrive);
    assert other.out == [other.out[0]] + other.out[1..];
    assert multiset(other'.out) + multiset(me'.tasks) == multiset(other.out) + multiset(me.tasks);
    assert ViewOf(me', other') == ViewOf(me, other) && ViewOf(other', me') == ViewOf(other, me);
  }

  lemma DropStep(me: Side, other: Side, i: nat)
    requires Both(me, other) && i < |me.tasks|
    ensures Both(me.(tasks := Without(me.tasks, i)), other)
  {
    var me' := me.(tasks := Without(me.tasks, i));
    Split(me.tasks, i);
    ShrinkingIsGood(ViewOf(me, other), ViewOf(me', other));
    ShrinkingIsGood(ViewOf(other, me), ViewOf(other, me'));
  }

  lemma ResponseViews(me: Side, other: Side, i: nat)
    requires i < |me.tasks|
    ensures var (v, u, m) := (ViewOf(me, other), ViewOf(other, me), me.tasks[i]);
      var me' := me.(tasks := Without(me.tasks, i), peer := Respond(me.peer, m));
      && ViewOf(me', other) == v.(peer := Respond(v.peer, m), back := v.back - multiset{m})
      && ViewOf(other, me') == u.(there := u.there - multiset{m})
      && m in v.back
  {
    Split(me.tasks, i);
  }

  /** A response ends at the request that it names. */
  lemma ResponseStep(me: Side, other: Side, i: nat)
    requires Both(me, other) && i < |me.tasks| && TakenAsResponse(Obj(me.tasks[i]))
    ensures Both(me.(tasks := Without(me.tasks, i), peer := Respond(me.peer, me.tasks[i])), other)
  {
    var m := me.tasks[i];
    if Member(m, "id").Str? {
      ResponseViews(me, other, i);
      ReceivingIsGood(ViewOf(me, other), m, Member(m, "id").s);
      FewerThere(ViewOf(other, me), m);
    } else {
      DropStep(me, other, i);
      assert Respond(me.peer, m) == me.peer;
    }
  }

  lemma FewerThere(v: View, m: Members)
    requires Good(v)
    ensures Good(v.(there := v.there - multiset{m}))
  {
    ShrinkingIsGood(v, v.(there := v.there - multiset{m}));
  }

  lemma RunViews(me: Side, other: Side, i: nat, id: string, h: Handled, lost: bool)
    requires i < |me.tasks| && h.call == me.tasks[i]
    ensures var u := ViewOf(other, me);
      var me' := EndRun(me.(tasks := Without(me.tasks, i)), id, h, lost);
      ViewOf(other, me') == AfterRun(u, id, h, lost) && h.call in u.there
  {
    Split(me.tasks, i);
    TakenFrom(multiset(other.out), multiset(me.tasks), me.tasks[i]);
    AddedTo(me.out, h.reply, multiset(other.tasks));
  }

  lemma TakenFrom(a: multiset<Members>, b: multiset<Members>, m: Members)
    requires m in b
    ensures a + (b - multiset{m}) == (a + b) - multiset{m}
  {
  }

  lemma AddedTo(s: seq<Members>, m: Members, b: multiset<Members>)
    ensures multiset(s + [m]) + b == (multiset(s) + b) + multiset{m}
  {
  }

  lemma RunViewsBack(me: Side, other: Side, i: nat, id: string, h: Handled, lost: bool)
    requires i < |me.tasks|
    ensures var (v, m) := (ViewOf(me, other), me.tasks[i]);
      var me' := EndRun(me.(tasks := Without(me.tasks, i)), id, h, lost);
      ViewOf(me', other) == v.(back := v.back - multiset{m}, there := if lost then v.there else v.there + multiset{h.reply})
  {
    Split(me.tasks, i);
  }

  /** A handler run ends: from then on, its request is on its way back, or its answer is lost. */
  lemma AnswerStep(me: Side, other: Side, i: nat, id: string, h: Handled, lost: bool)
    requires Both(me, other) && i < |me.tasks| && h.call == me.tasks[i] && IsCallFor(h.call, id)
    requires IsAnswerTo(h.reply, id) && TellsItsAnswer(h)
    ensures Both(EndRun(me.(tasks := Without(me.tasks, i)), id, h, lost), other)
  {
    AnswerSeenThere(me, other, i, id, h, lost);
    AnswerSeenHere(me, other, i, id, h, lost);
  }

  lemma AnswerSeenThere(me: Side, other: Side, i: nat, id: string, h: Handled, lost: bool)
    requires Good(ViewOf(other, me)) && i < |me.tasks| && h.call == me.tasks[i] && IsCallFor(h.call, id)
    requires IsAnswerTo(h.reply, id) && TellsItsAnswer(h)
    ensures Good(ViewOf(other, EndRun(me.(tasks := Without(me.tasks, i)), id, h, lost)))
  {
    RunViews(me, other, i, id, h, lost);
    AnsweringIsGood(ViewOf(other, me), id, h, lost);
  }

  lemma AnswerSeenHere(me: Side, other: Side, i: nat, id: string, h: Handled, lost: bool)
    requires Good(ViewOf(me, other)) && i < |me.tasks| && "method" !in h.reply
    ensures Good(ViewOf(EndRun(me.(tasks := Without(me.tasks, i)), id, h, lost), other))
  {
    var v := ViewOf(me, other);
    var w := v.(back := v.back - multiset{me.tasks[i]});
    RunViewsBack(me, other, i, id, h, lost);
    ShrinkingIsGood(v, w);
    OwnAnswerIsGood(w, h.reply);
  }

  /** Whatever a handler answers, the message made of it is a response to its request that says just that. */
  lemma AnswerTellsItself(id: string, a: Answer<Json>)
    ensures IsAnswerTo(AnswerMessage(id, a), id) && TakenAsResponse(Obj(AnswerMessage(id, a)))
    ensures OutcomeOf(AnswerMessage(id, a)) == Received(a)
  {
  }

  lemma TaskStep(me: Side, other: Side, i: nat, answer: Answer<Json>, lost: bool)
    requires Both(me, other) && i < |me.tasks|
    ensures Both(FinishTask(me, i, answer, lost), other)
  {
    var m := me.tasks[i];
    if TakenAsResponse(Obj(m)) {
      ResponseStep(me, other, i);
    } else if Member(m, "id").Str? {
      var id := Member(m, "id").s;
      AnswerTellsItself(id, answer);
      AnswerStep(me, other, i, id, RunOf(m, answer), lost);
    } else {
      DropStep(me, other, i);
    }
  }

  lemma AbandonStep(me: Side, other: Side, n: nat)
    requires Both(me, other)
    ensures Both(me.(peer := GiveUp(me.peer, n)), other)
  {
    GiveUpKeepsValid(me.peer, n);
    PeerStep(me, other, GiveUp(me.peer, n));
  }

  lemma GoOnStep(me: Side, other: Side, n: nat)
    requires Both(me, other)
    ensures Both(me.(peer := Leave(me.peer, n)), other)
  {
    LeaveKeepsValid(me.peer, n);
    PeerStep(me, other, Leave(me.peer, n));
  }

  lemma CloseStep(me: Side, other: Side)
    requires Both(me, other)
    ensures Both(me.(peer := PeerStates.Finish(me.peer)), other)
  {
    FinishKeepsValid(me.peer, false);
    PeerStep(me, other, PeerStates.Finish(me.peer));
  }

  lemma StepKeepsBoth(me: Side, other: Side, e: Event)
    requires Both(me, other) && Enabled(me, other, e)
    ensures Both(Mine(me, other, e), Others(me, other, e))
  {
    match e
    case Call(name, params) => CallStep(me, other, name, params);
    case Arrive => ArriveStep(me, other);
    case Finish(i, answer, lost) => TaskStep(me, other, i, answer, lost);
    case Cancel(i) => DropStep(me, other, i);
    case Abandon(n) => AbandonStep(me, other, n);
    case GoOn(n) => GoOnStep(me, other, n);
    case Close => CloseStep(me, other);
  }

  // ---- Whole runs ----

  lemma {:induction false} RunsKeepInv(es: seq<(bool, Event)>)
    ensures Inv(Run(START, es))
  {
    if es != [] {
      var (onLeft, e) := es[|es| - 1];
      RunsKeepInv(es[..|es| - 1]);
      var s := Run(START, es[..|es| - 1]);
      if onLeft {
        if Enabled(s.left, s.right, e) { StepKeepsBoth(s.left, s.right, e); }
      } else {
        if Enabled(s.right, s.left, e) { StepKeepsBoth(s.right, s.left, e); }
      }
    }
  }

  ghost function SideOf(s: System, left: bool): Side { if left then s.left else s.right }

  ghost function Record(es: seq<(bool, Event)>, left: bool): View {
    var s := Run(START, es);
    ViewOf(SideOf(s, left), SideOf(s, !left))
  }

  /** However the steps of the two sides interleave: a request that has got an answer has the one that the run of a handler
      gave for that very call, even if the other side has used the same id for a request of its own. It has succeeded with
      the result of the handler, or failed with its error; no answer is ever malformed. */
  lemma AnswersComeFromTheirRun(es: seq<(bool, Event)>, left: bool, n: nat)
    ensures var v := Record(es, left);
      var id := Numeral(n);
      n in v.peer.futures && Answered(v.peer.futures[n]) ==>
        && id in v.sent && id in v.ran
        && v.ran[id].call == v.sent[id]
        && (v.ran[id].answer.Result? ==> v.peer.futures[n] == Resolved(v.ran[id].answer.result))
        && (v.ran[id].answer.Error? ==> v.peer.futures[n] == Refused(Int(v.ran[id].answer.code)))
  {
    RunsKeepInv(es);
  }

  /** What is recorded as sent is the request that the caller made, and from then on it waits and is under way. */
  lemma CallIsSent(es: seq<(bool, Event)>, left: bool, name: string, params: Json)
    requires !Record(es, left).peer.closed
    ensures var (n, v) := (Record(es, left).peer.counter, Record(es + [(left, Call(name, params))], left));
      var id := Numeral(n);
      && id in v.sent && IsCallFor(v.sent[id], id) && v.sent[id] in v.there
      && Member(v.sent[id], "method") == Str(name) && Member(v.sent[id], "params") == params
      && (params.Arr? || params.Obj? ==> IsRequest(Obj(v.sent[id])))
      && n in v.peer.futures && v.peer.futures[n].Waiting?
  {
    var e, me, other := (left, Call(name, params)), SideOf(Run(START, es), left), SideOf(Run(START, es), !left);
    assert (es + [e])[..|es|] == es;
    var n, m := me.peer.counter, CallMessage(Numeral(me.peer.counter), name, params);
    assert Record(es + [e], left) == ViewOf(SendCall(me, name, params), other);
    CallMessageSays(Numeral(n), name, params);
    CallViews(me, other, Numeral(n), m);
  }

  lemma CallMessageSays(id: string, name: string, params: Json)
    ensures var m := CallMessage(id, name, params);
      && IsCallFor(m, id) && Member(m, "method") == Str(name) && Member(m, "params") == params
      && (params.Arr? || params.Obj? ==> IsRequest(Obj(m)))
  {
  }

  /** The answer that the end of a task records is the one that the task ended with, for the call that it had. */
  lemma RunIsRecorded(es: seq<(bool, Event)>, onLeft: bool, i: nat, answer: Answer<Json>, lost: bool, id: string)
    requires i < |SideOf(Run(START, es), onLeft).tasks| && IsCallFor(SideOf(Run(START, es), onLeft).tasks[i], id)
    ensures var after := SideOf(Run(START, es + [(onLeft, Finish(i, answer, lost))]), onLeft);
      id in after.ran && after.ran[id].call == SideOf(Run(START, es), onLeft).tasks[i] && after.ran[id].answer == answer
  {
    var e := (onLeft, Finish(i, answer, lost));
    assert (es + [e])[..|es|] == es;
  }

  /** Each request is at one stage: its call is underway or being handled, or its answer is on the way back, or
      neither; and what is underway is there once. */
  lemma OneStageAtATime(es: seq<(bool, Event)>, left: bool, id: string, m: Members, m': Members)
    ensures var v := Record(es, left);
      && (m in v.there && IsCallFor(m, id) ==> v.there[m] == 1 && id in v.sent && m == v.sent[id] && id !in v.ran)
      && (m' in v.back && IsAnswerTo(m', id) ==> v.back[m'] == 1 && id in v.ran && m' == v.ran[id].reply)
      && !(m in v.there && IsCallFor(m, id) && m' in v.back && IsAnswerTo(m', id))
      && forall n: nat | n in v.peer.futures && Answered(v.peer.futures[n]) && id == Numeral(n) ::
           !(m in v.there && IsCallFor(m, id)) && !(m' in v.back && IsAnswerTo(m', id))
  {
    RunsKeepInv(es);
  }

  /** What a request ended with, and what a run answered, is never replaced. */
  lemma {:induction false} OutcomesAreFinal(es: seq<(bool, Event)>, more: seq<(bool, Event)>, left: bool)
    ensures var (v, w) := (Record(es, left), Record(es + more, left));
      && Extends(v.peer, w.peer)
      && forall id | id in v.ran :: id in w.ran && w.ran[id] == v.ran[id]
  {
    if more == [] {
      assert es + more == es;
    } else {
      var front := more[..|more| - 1];
      var (onLeft, e) := more[|more| - 1];
      assert (es + more)[..|es + more| - 1] == es + front;
      OutcomesAreFinal(es, front, left);
      RunsKeepInv(es + front);
      var s := Run(START, es + front);
      var me, other := SideOf(s, onLeft), SideOf(s, !onLeft);
      if Enabled(me, other, e) {
        StepExtends(me, other, e);
      }
    }
  }

  lemma StepExtends(me: Side, other: Side, e: Event)
    requires Both(me, other) && Enabled(me, other, e)
    ensures Extends(me.peer, Mine(me, other, e).peer)
    ensures forall id | id in me.ran :: id in Mine(me, other, e).ran && Mine(me, other, e).ran[id] == me.ran[id]
  {
    match e
    case Call(_, _) => SendKeepsValid(me.peer);
    case Abandon(n) => GiveUpKeepsValid(me.peer, n);
    case GoOn(n) => LeaveKeepsValid(me.peer, n);
    case Close => FinishKeepsValid(me.peer, false);
    case Finish(i, answer, lost) =>
      forall id | IsCallFor(me.tasks[i], id) { RunIsNew(me, other, i, id); }
      TaskExtends(me, i, answer, lost);
    case _ =>
  }

  /** A task that is to answer a request is the first to do so. */
  lemma RunIsNew(me: Side, other: Side, i: nat, id: string)
    requires CallsOnce(ViewOf(other, me)) && i < |me.tasks| && IsCallFor(me.tasks[i], id)
    ensures id !in me.ran
  {
    Split(me.tasks, i);
    assert me.tasks[i] in ViewOf(other, me).there;
  }

  lemma TaskExtends(me: Side, i: nat, answer: Answer<Json>, lost: bool)
    requires Valid(me.peer) && i < |me.tasks|
    requires forall id | IsCallFor(me.tasks[i], id) :: id !in me.ran
    ensures var me' := FinishTask(me, i, answer, lost);
      Extends(me.peer, me'.peer) && forall id | id in me.ran :: id in me'.ran && me'.ran[id] == me.ran[id]
  {
    var m := me.tasks[i];
    if TakenAsResponse(Obj(m)) {
      RespondKeepsValid(me.peer, m);
    } else if Member(m, "id").Str? {
      assert IsCallFor(m, Member(m, "id").s);
    }
  }
}
