/** Which log messages reach which client. One runner thread runs the commands of all clients one after another;
    a message goes to the client whose command is running. */
module LogRouting {
  import opened Options

  type Endpoint = nat

  datatype Line = Line(level: string, text: string)

  /** What happens on the runner thread; and on the event loop, the next scheduled message of an endpoint, the close of the
      connection of an endpoint, and its clean-up, which comes only after its libraries are finalized. */
  datatype Event =
    | Start(subscriber: Option<Endpoint>)
    | Log(line: Line)
    | End
    | Write(endpoint: Endpoint)
    | Close(endpoint: Endpoint)
    | Cleanup(endpoint: Endpoint)

  predicate ReportsFailure(level: string) { level == "FAIL" || level == "SKIP" }

  type Lists = map<Endpoint, seq<Line>>

  /** `handed` records what each endpoint has handed on to the event loop; of that, `scheduled` still waits there, and
      `written` has gone to the peer of the client. */
  datatype State = State(
    active: Option<Endpoint>,
    failureLogged: bool,
    unregistered: set<Endpoint>,
    closed: set<Endpoint>,
    handed: Lists,
    scheduled: Lists,
    written: Lists)

  const INITIAL := State(None, false, {}, {}, map[], map[], map[])

  function ListOf(m: Lists, e: Endpoint): seq<Line> { if e in m then m[e] else [] }

  /** `RobotServerEndpoint.log_message` */
  function Deliver(s: State, e: Endpoint, line: Line): State {
    if e in s.unregistered || ReportsFailure(line.level) then s
    else s.(handed := s.handed[e := ListOf(s.handed, e) + [line]], scheduled := s.scheduled[e := ListOf(s.scheduled, e) + [line]])
  }

  /** No message goes to the client anymore: the peer is closed, or taken away. */
  predicate Gone(s: State, e: Endpoint) { e in s.unregistered || e in s.closed }

  /** `log` of the endpoint, for the message that was scheduled first: without a peer it is dropped, and a closed peer raises. */
  function WriteNext(s: State, e: Endpoint): State {
    var waiting := ListOf(s.scheduled, e);
    if waiting == [] then s
    else
      s.(scheduled := s.scheduled[e := waiting[1..]],
         written := if Gone(s, e) then s.written else s.written[e := ListOf(s.written, e) + [waiting[0]]])
  }

  function Step(s: State, ev: Event): State {
    match ev
    case Start(subscriber) => s.(active := subscriber, failureLogged := false)
    case Log(line) =>
      var s' := s.(failureLogged := ReportsFailure(line.level));
      if s.failureLogged && line.level == "DEBUG" then s'
      else if s.active.None? then s'
      else Deliver(s', s.active.value, line)
    case End => s.(active := None)
    case Write(e) => WriteNext(s, e)
    case Close(e) => s.(closed := s.closed + {e})
    case Cleanup(e) => s.(unregistered := s.unregistered + {e})
  }

  function Run(t: seq<Event>): State {
    if t == [] then INITIAL else Step(Run(t[..|t| - 1]), t[|t| - 1])
  }

  function LogAll(s: State, lines: seq<Line>): State {
    if lines == [] then s else Step(LogAll(s, lines[..|lines| - 1]), Log(lines[|lines| - 1]))
  }

  // ---- The fields and methods ----

  class Router {
    var activeSubscriber: Option<Endpoint>
    var failureLogged: bool
    var unregistered: set<Endpoint>
    var closed: set<Endpoint>
    ghost var handed: Lists
    var scheduled: Lists
    var written: Lists

    ghost function Now(): State
      reads this
    {
      State(activeSubscriber, failureLogged, unregistered, closed, handed, scheduled, written)
    }

    constructor ()
      ensures Now() == INITIAL
    {
      activeSubscriber, failureLogged, unregistered, closed := None, false, {}, {};
      handed, scheduled, written := map[], map[], map[];
    }

    /** The start of a command in `_hook_loop`. */
    method StartCommand(subscriber: Option<Endpoint>)
      modifies this
      ensures Now() == Step(old(Now()), Start(subscriber))
    {
      activeSubscriber := subscriber;
      failureLogged := false;
    }

    /** The `finally` of a command in `_hook_loop`. */
    method EndCommand()
      modifies this
      ensures Now() == Step(old(Now()), End)
    {
      activeSubscriber := None;
    }

    /** `_log_message` */
    method LogMessage(line: Line)
      modifies this
      ensures Now() == Step(old(Now()), Log(line))
    {
      var followsFailure := failureLogged;
      failureLogged := ReportsFailure(line.level);
      if followsFailure && line.level == "DEBUG" {
        return;
      }
      var subscriber := activeSubscriber;
      if subscriber.Some? {
        EndpointLogMessage(subscriber.value, line);
      }
    }

    /** `log_message` of an endpoint */
    method EndpointLogMessage(e: Endpoint, line: Line)
      modifies this
      ensures Now() == Deliver(old(Now()), e, line)
    {
      if e in unregistered {
        return;
      }
      if ReportsFailure(line.level) {
        return;
      }
      handed := handed[e := ListOf(handed, e) + [line]];
      scheduled := scheduled[e := ListOf(scheduled, e) + [line]];
    }

    /** `log` of an endpoint, when the event loop gets to it */
    method EndpointLog(e: Endpoint)
      modifies this
      ensures Now() == Step(old(Now()), Write(e))
    {
      if e in scheduled && scheduled[e] != [] {
        var line := scheduled[e][0];
        scheduled := scheduled[e := scheduled[e][1..]];
        if e !in unregistered && e !in closed {
          written := written[e := ListOf(written, e) + [line]];
        }
      }
    }

    /** The peer of an endpoint is closed, with its client or by it. */
    method CloseConnection(e: Endpoint)
      modifies this
      ensures Now() == Step(old(Now()), Close(e))
    {
      closed := closed + {e};
    }

    /** The body of `_hook_loop` for one command, as far as its messages go. */
    method RunCommand(subscriber: Option<Endpoint>, lines: seq<Line>)
      modifies this
      ensures Now() == Step(LogAll(Step(old(Now()), Start(subscriber)), lines), End)
    {
      StartCommand(subscriber);
      ghost var started := Now();
      for i := 0 to |lines|
        invariant Now() == LogAll(started, lines[..i])
      {
        assert lines[..i + 1][..i] == lines[..i];
        LogMessage(lines[i]);
      }
      assert lines[..|lines|] == lines;
      EndCommand();
    }

    /** `cleanup` of an endpoint */
    method CleanupEndpoint(e: Endpoint)
      modifies this
      ensures Now() == Step(old(Now()), Cleanup(e))
    {
      unregistered := unregistered + {e};
    }
  }

  // ---- Which messages a client gets, stated on the run as a whole ----

  /** Event `i` happens while a command of `e` runs: the last start or end before it is the start of one. */
  ghost predicate DuringCommandOf(t: seq<Event>, i: nat, e: Endpoint)
    requires i <= |t|
  {
    exists s: nat :: RunsSince(t, s, i, e)
  }

  /** A command of `e` starts at `s`, and nothing starts or ends from there to `i`. */
  ghost predicate RunsSince(t: seq<Event>, s: nat, i: nat, e: Endpoint)
    requires i <= |t|
  {
    s < i && t[s] == Start(Some(e)) && forall k | s < k < i :: !t[k].Start? && !t[k].End?
  }

  /** The last message before `i`, within the same command if one runs, reports a failure. */
  ghost predicate FollowsFailure(t: seq<Event>, i: nat)
    requires i <= |t|
  {
    exists j | 0 <= j < i :: t[j].Log? && ReportsFailure(t[j].line.level) && forall k | j < k < i :: !t[k].Start? && !t[k].Log?
  }

  ghost predicate Reaches(t: seq<Event>, i: nat, e: Endpoint)
    requires i < |t|
  {
    && t[i].Log?
    && DuringCommandOf(t, i, e)
    && t[i].line.level != "FAIL" && t[i].line.level != "SKIP"
    && !(t[i].line.level == "DEBUG" && FollowsFailure(t, i))
    && Cleanup(e) !in t[..i]
  }

  ghost function Lines(t: seq<Event>, n: nat, e: Endpoint): seq<Line>
    requires n <= |t|
  {
    if n == 0 then []
    else Lines(t, n - 1, e) + if Reaches(t, n - 1, e) then [t[n - 1].line] else []
  }

  /** What the fields say after a run, in terms of its events. */
  lemma {:induction false} FieldsMean(t: seq<Event>)
    ensures var s := Run(t);
      && (forall e: Endpoint :: s.active == Some(e) <==> DuringCommandOf(t, |t|, e))
      && (s.failureLogged <==> FollowsFailure(t, |t|))
      && (forall e: Endpoint :: e in s.unregistered <==> Cleanup(e) in t)
      && (forall e: Endpoint :: e in s.closed <==> Close(e) in t)
  {
    if t != [] {
      var n := |t| - 1;
      var front := t[..n];
      FieldsMean(front);
      var s, s' := Run(front), Run(t);
      forall e: Endpoint ensures s'.active == Some(e) <==> DuringCommandOf(t, |t|, e) { ActiveMeans(t, e); }
      FailureMeans(t);
      assert t == front + [t[n]];
    }
  }

  lemma ActiveMeans(t: seq<Event>, e: Endpoint)
    requires t != []
    ensures var n := |t| - 1;
      DuringCommandOf(t, |t|, e) <==>
        if t[n].Start? then t[n].subscriber == Some(e) else !t[n].End? && DuringCommandOf(t[..n], n, e)
  {
    var n := |t| - 1;
    if t[n].Start? && t[n].subscriber == Some(e) {
      assert RunsSince(t, n, |t|, e);
    } else {
      forall s: nat ensures RunsSince(t, s, |t|, e) <==> !t[n].Start? && !t[n].End? && RunsSince(t[..n], s, n, e) {
        SameSince(t, s, e);
      }
    }
  }

  lemma SameSince(t: seq<Event>, s: nat, e: Endpoint)
    requires t != [] && t[|t| - 1] != Start(Some(e))
    ensures var n := |t| - 1;
      RunsSince(t, s, |t|, e) <==> !t[n].Start? && !t[n].End? && RunsSince(t[..n], s, n, e)
  {
    var n := |t| - 1;
    assert forall k | 0 <= k < n :: t[..n][k] == t[k];
  }

  lemma FailureMeans(t: seq<Event>)
    requires t != []
    ensures var n := |t| - 1;
      FollowsFailure(t, |t|) <==>
        if t[n].Log? then ReportsFailure(t[n].line.level) else !t[n].Start? && FollowsFailure(t[..n], n)
  {
    var n := |t| - 1;
    if !t[n].Log? && !t[n].Start? {
      if FollowsFailure(t[..n], n) {
        var j :| 0 <= j < n && t[..n][j].Log? && ReportsFailure(t[..n][j].line.level) &&
                 forall k | j < k < n :: !t[..n][k].Start? && !t[..n][k].Log?;
        assert t[j].Log?;
      }
      if FollowsFailure(t, |t|) {
        var j :| 0 <= j < |t| && t[j].Log? && ReportsFailure(t[j].line.level) && forall k | j < k < |t| :: !t[k].Start? && !t[k].Log?;
        assert t[..n][j].Log?;
      }
    } else if t[n].Log? {
      if FollowsFailure(t, |t|) {
        var j :| 0 <= j < |t| && t[j].Log? && ReportsFailure(t[j].line.level) && forall k | j < k < |t| :: !t[k].Start? && !t[k].Log?;
        assert j == n;
      }
    }
  }

  lemma {:induction false} LinesOfPrefix(t: seq<Event>, u: seq<Event>, n: nat, e: Endpoint)
    requires n <= |t| && t <= u
    ensures Lines(t, n, e) == Lines(u, n, e)
  {
    if n > 0 {
      LinesOfPrefix(t, u, n - 1, e);
      assert t[..n - 1] == u[..n - 1];
      assert Reaches(t, n - 1, e) <==> Reaches(u, n - 1, e) by { SameReaches(t, u, n - 1, e); }
    }
  }

  /** What holds at an event depends on the events before it only. */
  lemma SamePrefix(t: seq<Event>, u: seq<Event>, i: nat, e: Endpoint)
    requires i <= |t| && t <= u
    ensures DuringCommandOf(t, i, e) <==> DuringCommandOf(u, i, e)
    ensures FollowsFailure(t, i) <==> FollowsFailure(u, i)
  {
    assert forall k | 0 <= k < |t| :: t[k] == u[k];
    assert forall s: nat :: RunsSince(t, s, i, e) <==> RunsSince(u, s, i, e);
  }

  lemma SameReaches(t: seq<Event>, u: seq<Event>, i: nat, e: Endpoint)
    requires i < |t| && t <= u
    ensures Reaches(t, i, e) <==> Reaches(u, i, e)
  {
    assert t[..i] == u[..i];
    SamePrefix(t, u, i, e);
  }

  /** Over any run, what an endpoint hands on for its client is exactly, in order, each message that was logged while one
      of its own commands ran and it was registered, except reports of a failure and the debug message that directly
      follows one; and no message reaches two clients. */
  lemma {:induction false} HandedIsExactlyItsOwn(t: seq<Event>, e: Endpoint)
    ensures ListOf(Run(t).handed, e) == Lines(t, |t|, e)
    ensures forall i, f: Endpoint | 0 <= i < |t| && Reaches(t, i, e) && Reaches(t, i, f) :: f == e
  {
    if t != [] {
      var n := |t| - 1;
      var front := t[..n];
      HandedIsExactlyItsOwn(front, e);
      LinesOfPrefix(front, t, n, e);
      LastReaches(t, e);
    }
  }

  lemma LastReaches(t: seq<Event>, e: Endpoint)
    requires t != []
    ensures var n := |t| - 1;
      ListOf(Run(t).handed, e) == ListOf(Run(t[..n]).handed, e) + if Reaches(t, n, e) then [t[n].line] else []
  {
    var n := |t| - 1;
    FieldsMean(t[..n]);
    SamePrefix(t[..n], t, n, e);
    StepHands(Run(t[..n]), t[n], e);
  }

  /** Which lines a step hands on, in terms of the fields. */
  predicate Hands(s: State, ev: Event, e: Endpoint) {
    && ev.Log? && s.active == Some(e) && e !in s.unregistered && !ReportsFailure(ev.line.level)
    && !(s.failureLogged && ev.line.level == "DEBUG")
  }

  lemma StepHands(s: State, ev: Event, e: Endpoint)
    ensures ListOf(Step(s, ev).handed, e) == ListOf(s.handed, e) + if Hands(s, ev, e) then [ev.line] else []
  {
    if !ev.Log? {
      assert Step(s, ev).handed == s.handed;
    }
  }

  /** Event `i` takes a waiting message of `e` when its connection is closed or its endpoint is cleaned up. */
  predicate TakenTooLate(t: seq<Event>, i: nat, e: Endpoint)
    requires i < |t|
  {
    t[i] == Write(e) && (Close(e) in t[..i] || Cleanup(e) in t[..i]) && ListOf(Run(t[..i]).scheduled, e) != []
  }

  /** What a step drops. */
  function DroppedBy(s: State, ev: Event, e: Endpoint): seq<Line> {
    if ev == Write(e) && Gone(s, e) && ListOf(s.scheduled, e) != [] then [ListOf(s.scheduled, e)[0]] else []
  }

  function Dropped(t: seq<Event>, e: Endpoint): seq<Line> {
    if t == [] then [] else Dropped(t[..|t| - 1], e) + DroppedBy(Run(t[..|t| - 1]), t[|t| - 1], e)
  }

  /** First come the written messages, then the dropped ones, then those that wait. */
  predicate InOrder(s: State, dropped: seq<Line>, e: Endpoint) {
    && ListOf(s.handed, e) == ListOf(s.written, e) + dropped + ListOf(s.scheduled, e)
    && (dropped != [] ==> Gone(s, e))
  }

  lemma DeliverKeepsOrder(s: State, f: Endpoint, line: Line, dropped: seq<Line>, e: Endpoint)
    requires InOrder(s, dropped, e)
    ensures InOrder(Deliver(s, f, line), dropped, e) && ListOf(Deliver(s, f, line).written, e) == ListOf(s.written, e)
  {
  }

  lemma WriteKeepsOrder(s: State, f: Endpoint, dropped: seq<Line>, e: Endpoint)
    requires InOrder(s, dropped, e)
    ensures InOrder(WriteNext(s, f), dropped + DroppedBy(s, Write(f), e), e)
    ensures Gone(s, e) ==> ListOf(WriteNext(s, f).written, e) == ListOf(s.written, e)
  {
    var s' := WriteNext(s, f);
    if f != e || ListOf(s.scheduled, e) == [] {
      assert ListOf(s'.written, e) == ListOf(s.written, e) && ListOf(s'.scheduled, e) == ListOf(s.scheduled, e);
      assert dropped + [] == dropped;
    } else {
      FirstMoves(ListOf(s.written, e), dropped, ListOf(s.scheduled, e));
    }
  }

  lemma FirstMoves(written: seq<Line>, dropped: seq<Line>, waiting: seq<Line>)
    requires waiting != []
    ensures written + dropped + waiting == written + (dropped + [waiting[0]]) + waiting[1..]
    ensures dropped == [] ==> written + dropped + waiting == (written + [waiting[0]]) + (dropped + []) + waiting[1..]
  {
  }

  lemma StepKeepsOrder(s: State, ev: Event, dropped: seq<Line>, e: Endpoint)
    requires InOrder(s, dropped, e)
    ensures InOrder(Step(s, ev), dropped + DroppedBy(s, ev, e), e)
    ensures Gone(s, e) ==> Gone(Step(s, ev), e) && ListOf(Step(s, ev).written, e) == ListOf(s.written, e)
  {
    assert dropped + [] == dropped;
    match ev
    case Log(line) =>
      if s.active.Some? {
        DeliverKeepsOrder(s.(failureLogged := ReportsFailure(line.level)), s.active.value, line, dropped, e);
      }
    case Write(f) => WriteKeepsOrder(s, f, dropped, e);
    case _ =>
  }

  lemma {:induction false} RunsKeepOrder(t: seq<Event>, e: Endpoint)
    ensures InOrder(Run(t), Dropped(t, e), e)
  {
    if t != [] {
      RunsKeepOrder(t[..|t| - 1], e);
      StepKeepsOrder(Run(t[..|t| - 1]), t[|t| - 1], Dropped(t[..|t| - 1], e), e);
    }
  }

  lemma {:induction false} DroppedExactlyIf(t: seq<Event>, e: Endpoint)
    ensures Dropped(t, e) == [] <==> forall i | 0 <= i < |t| :: !TakenTooLate(t, i, e)
  {
    if t != [] {
      var n := |t| - 1;
      var front := t[..n];
      DroppedExactlyIf(front, e);
      FieldsMean(front);
      assert TakenTooLate(t, n, e) <==> DroppedBy(Run(front), t[n], e) != [];
      forall i | 0 <= i < n ensures TakenTooLate(t, i, e) <==> TakenTooLate(front, i, e) {
        assert front[..i] == t[..i];
      }
    }
  }

  lemma {:induction false} NothingWrittenOnceGone(t: seq<Event>, more: seq<Event>, e: Endpoint)
    requires Gone(Run(t), e)
    ensures Gone(Run(t + more), e) && ListOf(Run(t + more).written, e) == ListOf(Run(t).written, e)
  {
    if more == [] {
      assert t + more == t;
    } else {
      var front := more[..|more| - 1];
      assert (t + more)[..|t + more| - 1] == t + front;
      NothingWrittenOnceGone(t, front, e);
      RunsKeepOrder(t + front, e);
      StepKeepsOrder(Run(t + front), more[|more| - 1], Dropped(t + front, e), e);
    }
  }

  /** What a client gets is the first part of the messages of its own commands. With what still waits it is all of them
      exactly if no waiting message was taken after the close of the connection or the clean-up, so always before both; and
      from then on the client gets nothing more. */
  lemma WrittenIsTheFirstPart(t: seq<Event>, more: seq<Event>, e: Endpoint)
    ensures ListOf(Run(t).written, e) <= Lines(t, |t|, e)
    ensures Lines(t, |t|, e) == ListOf(Run(t).written, e) + ListOf(Run(t).scheduled, e) <==>
            forall i | 0 <= i < |t| :: !TakenTooLate(t, i, e)
    ensures Close(e) !in t && Cleanup(e) !in t ==> forall i | 0 <= i < |t| :: !TakenTooLate(t, i, e)
    ensures Close(e) in t || Cleanup(e) in t ==> ListOf(Run(t + more).written, e) == ListOf(Run(t).written, e)
  {
    HandedIsExactlyItsOwn(t, e);
    RunsKeepOrder(t, e);
    DroppedExactlyIf(t, e);
    WithoutTheDropped(ListOf(Run(t).written, e), Dropped(t, e), ListOf(Run(t).scheduled, e));
    FieldsMean(t);
    if Gone(Run(t), e) {
      NothingWrittenOnceGone(t, more, e);
    }
  }

  lemma WithoutTheDropped(written: seq<Line>, dropped: seq<Line>, waiting: seq<Line>)
    ensures written + dropped + waiting == written + waiting <==> dropped == []
    ensures written <= written + dropped + waiting
  {
    if dropped != [] {
      assert |written + dropped + waiting| > |written + waiting|;
    } else {
      assert written + dropped == written;
    }
  }

  /** A client is lost, and what the finalization of its libraries logs is taken before the clean-up: it is lost too. */
  lemma FinalizationIsNotHeard(e: Endpoint, line: Line)
    requires !ReportsFailure(line.level)
    ensures var t := [Close(e), Start(Some(e)), Log(line), End, Write(e)];
      && Cleanup(e) !in t && TakenTooLate(t, 4, e)
      && ListOf(Run(t).handed, e) == [line] && ListOf(Run(t).written, e) == [] && ListOf(Run(t).scheduled, e) == []
  {
    var t := [Close(e), Start(Some(e)), Log(line), End, Write(e)];
    var closed, logged, ended := [Close(e)], [Close(e), Start(Some(e)), Log(line)], [Close(e), Start(Some(e)), Log(line), End];
    RunAppend([], Close(e));
    RunAppend(closed, Start(Some(e)));
    RunAppend([Close(e), Start(Some(e))], Log(line));
    RunAppend(logged, End);
    RunAppend(ended, Write(e));
    assert [] + [Close(e)] == closed && closed + [Start(Some(e))] == [Close(e), Start(Some(e))];
    assert [Close(e), Start(Some(e))] + [Log(line)] == logged && logged + [End] == ended && ended + [Write(e)] == t;
    assert t[..4] == ended && ended[0] == Close(e);
  }

  lemma RunAppend(t: seq<Event>, ev: Event)
    ensures Run(t + [ev]) == Step(Run(t), ev)
  {
    assert (t + [ev])[..|t|] == t;
  }

  function Writes(e: Endpoint, n: nat): seq<Event> { if n == 0 then [] else Writes(e, n - 1) + [Write(e)] }

  lemma WriteMoves(s: State, e: Endpoint)
    requires !Gone(s, e) && ListOf(s.scheduled, e) != []
    ensures var (s', waiting) := (Step(s, Write(e)), ListOf(s.scheduled, e));
      && !Gone(s', e)
      && ListOf(s'.written, e) == ListOf(s.written, e) + [waiting[0]]
      && ListOf(s'.scheduled, e) == waiting[1..]
      && ListOf(s'.written, e) + ListOf(s'.scheduled, e) == ListOf(s.written, e) + waiting
  {
    var waiting := ListOf(s.scheduled, e);
    assert waiting == [waiting[0]] + waiting[1..];
  }

  function AfterWrites(s: State, e: Endpoint, n: nat): State {
    if n == 0 then s else Step(AfterWrites(s, e, n - 1), Write(e))
  }

  lemma {:induction false} RunWrites(t: seq<Event>, e: Endpoint, n: nat)
    ensures Run(t + Writes(e, n)) == AfterWrites(Run(t), e, n)
  {
    if n == 0 {
      assert t + Writes(e, 0) == t;
    } else {
      RunWrites(t, e, n - 1);
      assert t + Writes(e, n) == (t + Writes(e, n - 1)) + [Write(e)];
      RunAppend(t + Writes(e, n - 1), Write(e));
    }
  }

  /** Each turn of the event loop writes the message that waits longest, until none waits. */
  lemma {:induction false} WritesMove(s: State, e: Endpoint, n: nat)
    requires !Gone(s, e) && n <= |ListOf(s.scheduled, e)|
    ensures var u := AfterWrites(s, e, n);
      && !Gone(u, e) && |ListOf(u.scheduled, e)| == |ListOf(s.scheduled, e)| - n
      && ListOf(u.written, e) + ListOf(u.scheduled, e) == ListOf(s.written, e) + ListOf(s.scheduled, e)
  {
    if n > 0 {
      WritesMove(s, e, n - 1);
      WriteMoves(AfterWrites(s, e, n - 1), e);
    }
  }

  /** With as many turns of the event loop as messages wait, a client that is there has got all messages of its own
      commands. */
  lemma EverythingIsWritten(t: seq<Event>, e: Endpoint)
    requires Close(e) !in t && Cleanup(e) !in t
    ensures ListOf(Run(t + Writes(e, |ListOf(Run(t).scheduled, e)|)).written, e) == Lines(t, |t|, e)
  {
    var n := |ListOf(Run(t).scheduled, e)|;
    FieldsMean(t);
    RunWrites(t, e, n);
    WritesMove(Run(t), e, n);
    WrittenIsTheFirstPart(t, [], e);
  }
}
