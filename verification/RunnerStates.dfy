/** The command queue of the server's runner thread: submits under a lock, a stop flag without one, the hook loop,
    and the drain at its end. Each function is one atomic step of one thread. Commands are numbered by submission. */
module RunnerStates {
  /** The future of an accepted command. Its caller does not cancel it while the loop runs. */
  datatype Future = Queued | Done | Raised | ShutDown

  /** Where the hook loop is: before the check of the stop flag, waiting for a command, running one, about to
      close, failing the drained futures, or over. */
  datatype Loop = Checking | Getting | Running(n: nat) | Closing | Failing(left: seq<nat>) | Over

  /** `accepted`, `started` and `drained` record what happened to commands, in that order. */
  datatype Context = Context(
    queue: seq<nat>,
    futures: map<nat, Future>,
    closed: bool,
    stopped: bool,
    loop: Loop,
    accepted: seq<nat>,
    started: seq<nat>,
    drained: seq<nat>)

  const INITIAL := Context([], map[], false, false, Checking, [], [], [])

  predicate Rejects(c: Context) { c.closed || c.stopped }

  /** `_submit`: a command gets the next number, unless it is rejected. */
  function Submit(c: Context): Context {
    if Rejects(c) then c
    else
      var n := |c.accepted|;
      c.(queue := c.queue + [n], futures := c.futures[n := Queued], accepted := c.accepted + [n])
  }

  function Stop(c: Context): Context { c.(stopped := true) }

  function Check(c: Context): Context
    requires c.loop.Checking?
  {
    c.(loop := if c.stopped then Closing else Getting)
  }

  /** `get(timeout=0.1)`: the first command, or nothing if none came. */
  function Get(c: Context): Context
    requires c.loop.Getting?
  {
    if c.queue == [] then c.(loop := Checking)
    else c.(loop := Running(c.queue[0]), queue := c.queue[1..], started := c.started + [c.queue[0]])
  }

  function EndCommand(c: Context, raised: bool): Context
    requires c.loop.Running?
  {
    c.(loop := Checking, futures := c.futures[c.loop.n := if raised then Raised else Done])
  }

  /** Anything else that ends the loop while no command runs: the cleanup follows all the same. */
  function Break(c: Context): Context
    requires c.loop.Checking? || c.loop.Getting?
  {
    c.(loop := Closing)
  }

  /** `_close` under the lock. */
  function Close(c: Context): Context
    requires c.loop.Closing?
  {
    c.(closed := true, queue := [], loop := Failing(c.queue))
  }

  /** `_close` outside the lock: one future after the other. */
  function FailNext(c: Context): Context
    requires c.loop.Failing?
  {
    if c.loop.left == [] then c.(loop := Over)
    else
      var n := c.loop.left[0];
      c.(loop := Failing(c.loop.left[1..]), drained := c.drained + [n],
         futures := if n in c.futures && !c.futures[n].Queued? then c.futures else c.futures[n := ShutDown])
  }

  datatype Event = SubmitE | StopE | CheckE | GetE | EndE(raised: bool) | BreakE | CloseE | FailE

  predicate Enabled(c: Context, e: Event) {
    match e
    case SubmitE => true
    case StopE => true
    case CheckE => c.loop.Checking?
    case GetE => c.loop.Getting?
    case EndE(_) => c.loop.Running?
    case BreakE => c.loop.Checking? || c.loop.Getting?
    case CloseE => c.loop.Closing?
    case FailE => c.loop.Failing?
  }

  function Step(c: Context, e: Event): Context {
    if !Enabled(c, e) then c
    else
      match e
      case SubmitE => Submit(c)
      case StopE => Stop(c)
      case CheckE => Check(c)
      case GetE => Get(c)
      case EndE(raised) => EndCommand(c, raised)
      case BreakE => Break(c)
      case CloseE => Close(c)
      case FailE => FailNext(c)
  }

  function Run(c: Context, es: seq<Event>): Context {
    if es == [] then c else Step(Run(c, es[..|es| - 1]), es[|es| - 1])
  }

  // ---- Invariant ----

  function Left(c: Context): seq<nat> { if c.loop.Failing? then c.loop.left else [] }

  ghost predicate Valid(c: Context) {
    // The commands in the order of their submission: run, failed by the drain, still to be failed, still queued.
    && c.accepted == c.started + c.drained + Left(c) + c.queue
    && (forall i | 0 <= i < |c.accepted| :: c.accepted[i] == i)
    && (c.closed <==> c.loop.Failing? || c.loop.Over?)
    && (c.closed ==> c.queue == [])
    && (!c.closed ==> c.drained == [])
    && (c.loop.Running? ==> c.started != [] && c.loop.n == c.started[|c.started| - 1])
    && (forall n: nat :: n in c.futures <==> n < |c.accepted|)
    && (forall n | n in c.futures :: c.futures[n] in StatesOf(c, n))
  }

  /** What the future of a command can be, given how far the loop has come. */
  function StatesOf(c: Context, n: nat): set<Future> {
    if c.loop == Running(n) then {Queued}
    else if n < |c.started| then {Done, Raised}
    else if n < |c.started| + |c.drained| then {ShutDown}
    else {Queued}
  }

  lemma SubmitKeepsValid(c: Context)
    requires Valid(c)
    ensures Valid(Submit(c))
  {
  }

  lemma GetKeepsValid(c: Context)
    requires Valid(c) && c.loop.Getting?
    ensures Valid(Get(c))
  {
    if c.queue != [] {
      assert c.accepted[|c.started|] == c.queue[0];
      assert c.accepted == (c.started + [c.queue[0]]) + c.queue[1..];
    }
  }

  lemma EndKeepsValid(c: Context, raised: bool)
    requires Valid(c) && c.loop.Running?
    ensures Valid(EndCommand(c, raised))
  {
    assert c.accepted[|c.started| - 1] == c.loop.n;
  }

  lemma FailKeepsValid(c: Context)
    requires Valid(c) && c.loop.Failing?
    ensures Valid(FailNext(c))
  {
    if c.loop.left != [] {
      var n := c.loop.left[0];
      assert c.accepted[|c.started| + |c.drained|] == n;
      assert c.accepted == c.started + (c.drained + [n]) + c.loop.left[1..];
    }
  }

  lemma CloseKeepsValid(c: Context)
    requires Valid(c) && c.loop.Closing?
    ensures Valid(Close(c))
  {
  }

  lemma StepKeepsValid(c: Context, e: Event)
    requires Valid(c)
    ensures Valid(Step(c, e))
  {
    if Enabled(c, e) {
      match e
      case SubmitE => SubmitKeepsValid(c);
      case GetE => GetKeepsValid(c);
      case EndE(raised) => EndKeepsValid(c, raised);
      case CloseE => CloseKeepsValid(c);
      case FailE => FailKeepsValid(c);
      case _ =>
    }
  }

  lemma {:induction false} RunsStayValid(es: seq<Event>)
    ensures Valid(Run(INITIAL, es))
  {
    if es == [] {
      assert INITIAL.started + INITIAL.drained + Left(INITIAL) + INITIAL.queue == [];
    } else {
      RunsStayValid(es[..|es| - 1]);
      StepKeepsValid(Run(INITIAL, es[..|es| - 1]), es[|es| - 1]);
    }
  }

  // ---- Exactly once ----

  lemma OverMeansResolved(c: Context)
    requires Valid(c) && c.loop.Over?
    ensures c.accepted == c.started + c.drained
    ensures forall n | n in c.futures :: if n < |c.started| then c.futures[n].Done? || c.futures[n].Raised? else c.futures[n].ShutDown?
  {
  }

  /** In every reachable state the commands that were run are the first ones that were submitted, each once and in that
      order; whoever is neither run nor failed still waits in the queue of a loop that goes on; and when the loop is
      over, each command was either run and has its outcome, or failed once by the drain. */
  lemma ExactlyOnce(es: seq<Event>, n: nat)
    ensures var c := Run(INITIAL, es);
      && (forall i | 0 <= i < |c.started| :: c.started[i] == i)
      && (n in c.futures <==> n < |c.accepted|)
      && (c.closed ==> c.queue == [])
      && (c.loop.Over? ==> c.accepted == c.started + c.drained)
      && (c.loop.Over? && n in c.futures ==>
            (n in c.started && n !in c.drained && (c.futures[n].Done? || c.futures[n].Raised?)) ||
            (n in c.drained && n !in c.started && c.futures[n].ShutDown?))
  {
    RunsStayValid(es);
    var c := Run(INITIAL, es);
    forall i | 0 <= i < |c.started| ensures c.started[i] == i {
      assert c.accepted[i] == c.started[i];
    }
    if c.loop.Over? && n in c.futures {
      if n < |c.started| {
        assert c.started[n] == n;
        assert forall i | 0 <= i < |c.drained| :: c.drained[i] == c.accepted[|c.started| + i] == |c.started| + i;
      } else {
        assert c.drained[n - |c.started|] == c.accepted[n] == n;
      }
    }
  }

  /** Once the runner has closed, no command starts or is accepted, and the queue stays empty. */
  lemma {:induction false} NothingAfterClosing(es: seq<Event>, more: seq<Event>)
    requires Run(INITIAL, es).closed
    ensures var (c, d) := (Run(INITIAL, es), Run(INITIAL, es + more));
      d.closed && d.queue == [] && d.started == c.started && d.accepted == c.accepted
  {
    if more == [] {
      assert es + more == es;
      RunsStayValid(es);
    } else {
      var front := more[..|more| - 1];
      assert (es + more)[..|es + more| - 1] == es + front;
      NothingAfterClosing(es, front);
      RunsStayValid(es + front);
    }
  }

  /** A stop seen by the next check is enough: what is submitted after it is rejected, and outcomes are final. */
  lemma StepExtends(c: Context, e: Event)
    requires Valid(c)
    ensures var d := Step(c, e);
      && (Rejects(c) ==> Rejects(d) && d.accepted == c.accepted)
      && (forall n | n in c.futures && !c.futures[n].Queued? :: n in d.futures && d.futures[n] == c.futures[n])
      && c.accepted <= d.accepted && c.started <= d.started && c.drained <= d.drained
  {
    if c.loop.Running? { assert c.accepted[|c.started| - 1] == c.loop.n; }
  }

  lemma {:induction false} RunsExtend(es: seq<Event>, more: seq<Event>, n: nat)
    requires n in Run(INITIAL, es).futures && !Run(INITIAL, es).futures[n].Queued?
    ensures n in Run(INITIAL, es + more).futures && Run(INITIAL, es + more).futures[n] == Run(INITIAL, es).futures[n]
  {
    if more == [] {
      assert es + more == es;
    } else {
      var front := more[..|more| - 1];
      assert (es + more)[..|es + more| - 1] == es + front;
      RunsExtend(es, front, n);
      RunsStayValid(es + front);
      StepExtends(Run(INITIAL, es + front), more[|more| - 1]);
    }
  }

  /** A command that raised has failed its future and any other one has resolved it, from then on for good. */
  lemma OutcomeIsThatOfTheRun(es: seq<Event>, i: nat, n: nat)
    requires i < |es| && es[i].EndE? && Run(INITIAL, es[..i]).loop == Running(n)
    ensures var c := Run(INITIAL, es); n in c.futures && c.futures[n] == if es[i].raised then Raised else Done
  {
    var upTo := es[..i + 1];
    assert upTo[..i] == es[..i];
    RunsStayValid(es[..i]);
    assert Run(INITIAL, upTo).futures[n] == if es[i].raised then Raised else Done;
    assert es == upTo + es[i + 1..];
    RunsExtend(upTo, es[i + 1..], n);
  }

  predicate Ending(c: Context) { c.loop.Closing? || c.loop.Failing? || c.loop.Over? }

  function Submits(es: seq<Event>): nat {
    if es == [] then 0 else Submits(es[..|es| - 1]) + if es[|es| - 1].SubmitE? then 1 else 0
  }

  /** The flag says that `stop()` was called. Before that, and unless something else ends the loop, every command is
      accepted and the loop goes on; afterwards a check of the flag ends it. */
  lemma {:induction false} GoesOnUntilStopped(es: seq<Event>)
    ensures var c := Run(INITIAL, es);
      && (c.stopped <==> StopE in es)
      && (StopE !in es && BreakE !in es ==> !Rejects(c) && !Ending(c) && |c.accepted| == Submits(es))
      && (c.stopped && c.loop.Checking? ==> Step(c, CheckE).loop.Closing?)
  {
    if es != [] {
      var front, last := es[..|es| - 1], es[|es| - 1];
      GoesOnUntilStopped(front);
      assert es == front + [last];
      assert forall e :: e in es <==> e in front || e == last;
    }
  }
}
