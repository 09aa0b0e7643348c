/** How the client keeps, loses and replaces its session, as steps of a state machine. `D` is what a library definition
    is made of. */
module Reconnect {
  import opened Options
  import opened Definitions

  datatype Session<D(==)> = Session(definition: Option<Definition<D>>)

  /** From a lost connection or a failed attempt to the next successful connection. */
  datatype Outage = Outage(since: real, loss: bool, failedAttempts: nat, windowSpent: bool)

  /** What has happened so far. `lossSeen`: a session of this scope was found lost; `attempts`: all attempts to connect;
      `failures` and `windows`: the failed attempts and the windows that ran out since the last successful connection. */
  datatype History = History(lossSeen: bool, attempts: nat, failures: nat, windows: nat)

  /** `lost`: the connection of the stored session has ended without the client closing it. */
  datatype Client<D(==)> = Client(
    retryOn: bool,
    registered: Option<Definition<D>>,
    session: Option<Session<D>>,
    lost: bool,
    outage: Option<Outage>,
    incompatible: bool,
    history: History)

  /** The outcome of `_connect_with_retry`: how many attempts failed, and the session if one did not. `since` is the time
      of its first attempt. */
  datatype Outcome<D(==)> = Outcome(since: real, failures: nat, session: Option<Session<D>>)

  datatype Answer<D(==)> = Got(session: Session<D>) | Incompatible | Lost | NotConnected | DefinitionChanged

  predicate Retries<D(==)>(c: Client<D>) { c.retryOn && !(c.outage.Some? && c.outage.value.windowSpent) }

  /** Without retry there is one attempt; with it, only a success ends the attempts before the window has passed. */
  predicate Possible<D(==)>(c: Client<D>, o: Outcome<D>) {
    if Retries(c) then o.session.None? ==> o.failures > 0
    else o.failures == if o.session.Some? then 0 else 1
  }

  function Attempts<D(==)>(o: Outcome<D>): nat { o.failures + if o.session.Some? then 1 else 0 }

  // ---- Steps ----

  /** The outage with some more failed attempts; it begins with the first one. */
  function Counted(before: Option<Outage>, since: real, failures: nat): Option<Outage> {
    if failures == 0 then before
    else
      var out := if before.Some? then before.value else Outage(since, false, 0, false);
      Some(out.(failedAttempts := out.failedAttempts + failures))
  }

  /** The outage after the failures of one call. */
  function OutageAfter<D(==)>(c: Client<D>, o: Outcome<D>): Option<Outage> {
    var counted := Counted(c.outage, o.since, o.failures);
    if Retries(c) && o.session.None? && counted.Some? then Some(counted.value.(windowSpent := true)) else counted
  }

  predicate WasLost<D(==)>(c: Client<D>) { c.outage.Some? && c.outage.value.loss }

  /** The second half of `_ensure_session`: connect, and after a loss check the definition. */
  function Connect<D(==)>(c: Client<D>, o: Outcome<D>): (Client<D>, Answer<D>) {
    var h := c.history;
    if o.session.None? then
      (c.(outage := OutageAfter(c, o),
          history := h.(attempts := h.attempts + o.failures, failures := h.failures + o.failures,
                        windows := h.windows + if Retries(c) then 1 else 0)),
       NotConnected)
    else
      var d := c.(outage := None, history := h.(attempts := h.attempts + Attempts(o), failures := 0, windows := 0));
      if WasLost(c) && Changes(c.registered, o.session.value.definition) != [] then
        (d.(incompatible := true), DefinitionChanged)
      else
        (d.(session := o.session, lost := false), Got(o.session.value))
  }

  function LoseSession<D(==)>(c: Client<D>, now: real): Client<D> {
    c.(session := None, lost := false, outage := Some(Outage(now, true, 0, false)), history := c.history.(lossSeen := true))
  }

  /** `_ensure_session`; `o` is what connecting would give, if it comes to that. */
  function EnsureSession<D(==)>(c: Client<D>, now: real, o: Outcome<D>): (Client<D>, Answer<D>) {
    if c.incompatible then (c, Incompatible)
    else if c.session.Some? && c.lost then
      if !c.retryOn then (c, Lost) else Connect(LoseSession(c, now), o)
    else if c.session.None? then Connect(c, o)
    else (c, Got(c.session.value))
  }

  /** `_stop_session`, at the end of the scope. */
  function StopSession<D(==)>(c: Client<D>): Client<D> {
    c.(incompatible := false, session := None, lost := false,
       outage := if c.outage.Some? then Some(c.outage.value.(loss := false)) else None,
       history := c.history.(lossSeen := false))
  }

  datatype Event<D(==)> = Call(now: real, outcome: Outcome<D>) | ConnectionEnds | ScopeEnds

  /** The state in which connecting starts, if the call comes to that. */
  function Connecting<D(==)>(c: Client<D>, now: real): Client<D> {
    if c.session.Some? && c.lost then LoseSession(c, now) else c
  }

  predicate Enabled<D(==)>(c: Client<D>, ev: Event<D>) {
    match ev
    case Call(now, o) => Possible(Connecting(c, now), o)
    case ConnectionEnds => c.session.Some?
    case ScopeEnds => true
  }

  function Step<D(==)>(c: Client<D>, ev: Event<D>): Client<D>
    requires Enabled(c, ev)
  {
    match ev
    case Call(now, o) => EnsureSession(c, now, o).0
    case ConnectionEnds => c.(lost := true)
    case ScopeEnds => StopSession(c)
  }

  predicate Runs<D(==)>(c: Client<D>, es: seq<Event<D>>)
    decreases |es|
  {
    es == [] || (Enabled(c, es[0]) && Runs(Step(c, es[0]), es[1..]))
  }

  function Run<D(==)>(c: Client<D>, es: seq<Event<D>>): Client<D>
    requires Runs(c, es)
    decreases |es|
  {
    if es == [] then c else Run(Step(c, es[0]), es[1..])
  }

  /** After the constructor, which registers the definition of its first session. */
  function Constructed<D(==)>(retryOn: bool, s: Session<D>, attempts: nat): Client<D> {
    Client(retryOn, s.definition, Some(s), false, None, false, History(false, attempts, 0, 0))
  }

  // ---- What every state keeps ----

  predicate NothingWhileIncompatible<D(==)>(c: Client<D>) {
    c.incompatible ==> c.session.None? && c.retryOn && c.history.lossSeen
  }

  /** Once a session of the scope was lost, there is one with the registered definition, or none. */
  predicate ReplacedByTheSame<D(==)>(c: Client<D>) {
    c.history.lossSeen ==>
      if c.session.Some? then c.session.value.definition == c.registered else c.incompatible || WasLost(c)
  }

  predicate NoOutageWithSession<D(==)>(c: Client<D>) { c.session.Some? ==> c.outage.None? }

  predicate OutageCounts<D(==)>(c: Client<D>) {
    var h := c.history;
    match c.outage
    case None => h.failures == 0 && h.windows == 0
    case Some(out) => out.failedAttempts == h.failures && h.windows == (if out.windowSpent then 1 else 0) && (out.windowSpent ==> c.retryOn)
  }

  predicate LossNoticed<D(==)>(c: Client<D>) { WasLost(c) ==> c.retryOn && c.history.lossSeen }

  predicate Valid<D(==)>(c: Client<D>) {
    LossNoticed(c) && NothingWhileIncompatible(c) && ReplacedByTheSame(c) && NoOutageWithSession(c) && OutageCounts(c)
  }

  lemma ConnectKeepsValid<D>(c: Client<D>, o: Outcome<D>)
    requires Valid(c) && Possible(c, o) && c.session.None? && !c.incompatible
    ensures Valid(Connect(c, o).0)
  {
    if o.session.Some? {
      EmptyExactlyIfEqual(c.registered, o.session.value.definition);
    }
  }

  lemma StepKeepsValid<D>(c: Client<D>, ev: Event<D>)
    requires Valid(c) && Enabled(c, ev)
    ensures Valid(Step(c, ev)) && Step(c, ev).registered == c.registered && Step(c, ev).retryOn == c.retryOn
  {
    if ev.Call? && !c.incompatible {
      var d := Connecting(c, ev.now);
      if d.session.None? && (c.session.None? || c.retryOn) {
        ConnectKeepsValid(d, ev.outcome);
      }
    }
  }

  lemma {:induction false} RunsStayValid<D>(c: Client<D>, es: seq<Event<D>>)
    requires Valid(c) && Runs(c, es)
    ensures Valid(Run(c, es)) && Run(c, es).registered == c.registered && Run(c, es).retryOn == c.retryOn
    decreases |es|
  {
    if es != [] {
      StepKeepsValid(c, es[0]);
      RunsStayValid(Step(c, es[0]), es[1..]);
    }
  }

  // ---- Within one scope ----

  predicate WithinScope<D(==)>(es: seq<Event<D>>) { forall ev | ev in es :: !ev.ScopeEnds? }

  lemma {:induction false} LossStaysSeen<D>(c: Client<D>, es: seq<Event<D>>)
    requires c.history.lossSeen && Runs(c, es) && WithinScope(es)
    ensures Run(c, es).history.lossSeen
    decreases |es|
  {
    if es != [] {
      assert es[0] in es;
      LossStaysSeen(Step(c, es[0]), es[1..]);
    }
  }

  /** From the call that finds a session lost to the end of the scope: whatever session there is was imported with the
      very definition that Robot Framework registered. */
  lemma ReplacedByAnEqualOne<D>(c: Client<D>, call: Event<D>, es: seq<Event<D>>)
    requires Valid(c) && c.retryOn && c.session.Some? && c.lost
    requires call.Call? && Enabled(c, call) && Runs(Step(c, call), es) && WithinScope(es)
    ensures var d := Run(Step(c, call), es); d.session.Some? ==> d.session.value.definition == c.registered
  {
    StepKeepsValid(c, call);
    RunsStayValid(Step(c, call), es);
    LossStaysSeen(Step(c, call), es);
  }

  /** Once the definition has changed, nothing is attempted before the scope ends, and every call fails the same way. */
  lemma {:induction false} IncompatibleUntilScopeEnds<D>(c: Client<D>, es: seq<Event<D>>, now: real, o: Outcome<D>)
    requires Valid(c) && c.incompatible && Runs(c, es) && WithinScope(es)
    ensures var d := Run(c, es);
      d.incompatible && d.session.None? && d.history.attempts == c.history.attempts && EnsureSession(d, now, o) == (d, Answer.Incompatible)
    decreases |es|
  {
    if es != [] {
      assert es[0] in es;
      StepKeepsValid(c, es[0]);
      IncompatibleUntilScopeEnds(Step(c, es[0]), es[1..], now, o);
    }
  }

  /** Without retry a lost session stays until its scope ends, with no attempt to connect, and every call says so. */
  lemma {:induction false} LostUntilScopeEnds<D>(c: Client<D>, es: seq<Event<D>>, now: real, o: Outcome<D>)
    requires Valid(c) && !c.retryOn && c.session.Some? && c.lost && Runs(c, es) && WithinScope(es)
    ensures Run(c, es) == c && EnsureSession(c, now, o) == (c, Lost)
    decreases |es|
  {
    if es != [] {
      assert es[0] in es;
      LostUntilScopeEnds(Step(c, es[0]), es[1..], now, o);
    }
  }

  // ---- Attempts ----

  /** In every run at most one window runs out between two successful connections, the outage counts all the failures
      since the last one, and after a window has run out a call that connects makes exactly one attempt. */
  lemma OneWindowThenSingleAttempts<D>(retryOn: bool, s: Session<D>, attempts: nat, es: seq<Event<D>>, now: real, o: Outcome<D>)
    requires Runs(Constructed(retryOn, s, attempts), es)
    ensures var c := Run(Constructed(retryOn, s, attempts), es);
      && c.history.windows <= 1
      && (c.outage.Some? ==> c.outage.value.failedAttempts == c.history.failures)
      && (c.outage.None? ==> c.history.failures == 0)
      && (c.history.windows == 1 && !c.incompatible && Possible(c, o) ==>
            EnsureSession(c, now, o).0.history.attempts == c.history.attempts + 1)
  {
    RunsStayValid(Constructed(retryOn, s, attempts), es);
  }

  /** A call gives a session exactly if the client then has it, and it is one whose connection has not been seen to end. */
  lemma AnswerIsTheSession<D>(c: Client<D>, now: real, o: Outcome<D>)
    requires Valid(c) && Possible(Connecting(c, now), o)
    ensures var (d, answer) := EnsureSession(c, now, o);
      && (answer.Got? <==> d.session.Some? && !d.lost)
      && (answer.Got? ==> d.session == Some(answer.session))
      && (answer.Got? ==> d.outage.None? && !d.incompatible)
      && (answer.DefinitionChanged? ==> d.incompatible && c.retryOn && o.session.Some? && o.session.value.definition != c.registered)
  {
    if o.session.Some? {
      EmptyExactlyIfEqual(c.registered, o.session.value.definition);
    }
  }

  /** The end of a scope leaves no session, no loss and no changed definition behind, and the next call connects as if it
      were the first: whatever definition it finds, it is not compared. Only a window that has run out stays spent. */
  lemma ScopeStartsAfresh<D>(c: Client<D>, now: real, o: Outcome<D>)
    requires Valid(c) && Possible(Step(c, ScopeEnds), o)
    ensures var d := Step(c, ScopeEnds);
      && d.session.None? && !d.lost && !d.incompatible && !WasLost(d)
      && Retries(d) == Retries(c) && d.history.attempts == c.history.attempts
      && (c.outage.Some? ==> d.outage.Some? && d.outage.value.failedAttempts == c.outage.value.failedAttempts)
    ensures var (d, answer) := EnsureSession(Step(c, ScopeEnds), now, o);
      && answer == (if o.session.Some? then Got(o.session.value) else NotConnected)
      && d.session == o.session && d.history.attempts == c.history.attempts + Attempts(o)
  {
  }

  /** In the course of a run, a session that is not lost answers every call without an attempt; one that is lost with retry,
      or none at all, makes the call connect. */
  lemma CallConnectsExactlyIf<D>(c: Client<D>, now: real, o: Outcome<D>)
    requires Valid(c) && Possible(Connecting(c, now), o)
    ensures EnsureSession(c, now, o).0.history.attempts - c.history.attempts ==
      if !c.incompatible && (c.session.None? || (c.lost && c.retryOn)) then Attempts(o) else 0
    ensures c.session.Some? && !c.lost ==> EnsureSession(c, now, o) == (c, Got(c.session.value))
  {
  }

  /** After a loss, a session with another definition than the registered one is refused, and one with the same is taken;
      before a loss every session is taken. */
  lemma ComparedExactlyAfterALoss<D>(c: Client<D>, now: real, o: Outcome<D>)
    requires Valid(c) && Possible(Connecting(c, now), o) && !c.incompatible && o.session.Some?
    requires c.session.None? || (c.lost && c.retryOn)
    ensures var (d, answer) := EnsureSession(c, now, o);
      var refused := (c.session.Some? || WasLost(c)) && o.session.value.definition != c.registered;
      && answer == (if refused then DefinitionChanged else Got(o.session.value))
      && d.session == (if refused then None else o.session) && d.incompatible == refused
      && d.outage.None?
  {
    EmptyExactlyIfEqual(c.registered, o.session.value.definition);
  }

  function OutageBegan<D(==)>(c: Client<D>, now: real, o: Outcome<D>): real {
    if c.session.Some? && c.lost && c.retryOn then now
    else if c.outage.Some? then c.outage.value.since
    else o.since
  }

  /** An outage lasts from the loss that a call finds, or else from the first attempt that fails, and no later failure
      moves its beginning. */
  lemma OutageBeginsOnce<D>(c: Client<D>, now: real, o: Outcome<D>)
    requires Valid(c) && Possible(Connecting(c, now), o)
    ensures var d := EnsureSession(c, now, o).0; d.outage.Some? ==> d.outage.value.since == OutageBegan(c, now, o)
  {
  }
}
