/** The client as an object, with the loop that connects. Time is real; attempts take any time, and a sleep takes at
    least as long as asked. */
module JsonRpcRemotes {
  import opened Options
  import opened Definitions
  import opened Reconnect

  /** The clock and the network. */
  class World<D(!new, ==)> {
    var now: real

    constructor ()
      ensures now >= 0.0
    {
      now := 0.0;
    }

    /** Some time passes. */
    method Wait()
      modifies this
      ensures now >= old(now)
    {
      var d: real := *;
      if d > 0.0 {
        now := now + d;
      }
    }

    method Sleep(d: real)
      modifies this
      ensures now >= old(now) + d
    {
      now := now + d;
      Wait();
    }

    /** `_connect`: a session that has started, or a failure. */
    method Connect() returns (s: Option<Session<D>>)
      modifies this
      ensures now >= old(now)
    {
      Wait();
      s := *;
    }
  }

  // ---- How many intervals a window takes ----

  /** The least whole number that is not below `x`. */
  function Ceiling(x: real): int { -(-x).Floor }

  /** The intervals that it takes to fill the window, and one. */
  function Bound(window: real, interval: real): nat
    requires interval > 0.0
    decreases if window > 0.0 then Ceiling(window / interval) else 0
  {
    if window <= 0.0 then 1
    else
      OneIntervalLess(window, interval);
      1 + Bound(window - interval, interval)
  }

  lemma QuotientOf(p: real, q: real, d: real)
    requires d > 0.0 && p == q * d
    ensures p / d == q
  {
  }

  lemma OneIntervalLess(window: real, interval: real)
    requires interval > 0.0 && window > 0.0
    ensures Ceiling(window / interval) > 0
    ensures interval < window ==> Ceiling((window - interval) / interval) == Ceiling(window / interval) - 1
    ensures interval >= window ==> Ceiling(window / interval) == 1
  {
    var q := window / interval;
    assert q > 0.0 && q * interval == window;
    QuotientOf(window - interval, q - 1.0, interval);
    assert interval >= window ==> q <= 1.0;
  }

  /** It is one more than the window divided by the interval, rounded up. */
  lemma {:induction false} BoundIsQuotient(window: real, interval: real)
    requires interval > 0.0 && window > 0.0
    ensures Bound(window, interval) == Ceiling(window / interval) + 1
    decreases Ceiling(window / interval)
  {
    OneIntervalLess(window, interval);
    if interval < window {
      BoundIsQuotient(window - interval, interval);
    } else {
      assert Bound(window - interval, interval) == 1;
    }
  }

  lemma {:induction false} IntervalsFit(n: nat, window: real, interval: real)
    requires interval > 0.0
    ensures n as real * interval < window <==> n + 1 < Bound(window, interval)
  {
    if n > 0 {
      IntervalsFit(n - 1, window - interval, interval);
      assert (n - 1) as real * interval + interval == n as real * interval;
      assert n as real * interval >= 0.0;
    }
  }

  // ---- The attempts of one call ----

  /** A failed attempt, in the time since the call began: when it began, and when the deadline was checked. */
  datatype Failure = Failure(begun: real, checked: real)

  function Min(x: real, y: real): real { if x < y then x else y }

  /** The earliest time for the next attempt. */
  function NextAt(fs: seq<Failure>, window: real, interval: real): real {
    if fs == [] then 0.0 else var t := fs[|fs| - 1].checked; t + Min(interval, window - t)
  }

  /** The failed attempts of a call that retries: after each of them but the last one there is time left, and the next one
      begins after the sleep. */
  predicate Retried(fs: seq<Failure>, window: real, interval: real)
  {
    fs != [] ==>
      var front, last := fs[..|fs| - 1], fs[|fs| - 1];
      && Retried(front, window, interval)
      && (front != [] ==> front[|front| - 1].checked < window)
      && NextAt(front, window, interval) <= last.begun <= last.checked
  }

  predicate GaveUp(fs: seq<Failure>, window: real) { fs != [] && fs[|fs| - 1].checked >= window }

  /** Every attempt begins after as many full intervals as there were attempts before it, or not before the deadline. */
  lemma {:induction false} BegunLate(fs: seq<Failure>, window: real, interval: real)
    requires interval > 0.0 && Retried(fs, window, interval) && fs != []
    ensures var t := fs[|fs| - 1].begun; t >= (|fs| - 1) as real * interval || t >= window
  {
    var front := fs[..|fs| - 1];
    if front != [] {
      BegunLate(front, window, interval);
      var n := |fs| - 1;
      assert (n - 1) as real * interval + interval == n as real * interval;
    }
  }

  /** A call that has not given up yet has fewer failures than the bound, and one that gives up not more. */
  lemma FailuresBounded(fs: seq<Failure>, window: real, interval: real)
    requires window > 0.0 && interval > 0.0 && Retried(fs, window, interval)
    ensures |fs| < Bound(window, interval) + if GaveUp(fs, window) then 1 else 0
  {
    var open := if GaveUp(fs, window) then fs[..|fs| - 1] else fs;
    if open != [] {
      BegunLate(open, window, interval);
      IntervalsFit(|open| - 1, window, interval);
    }
  }

  lemma OneMoreFailure(fs: seq<Failure>, f: Failure, window: real, interval: real)
    requires window > 0.0 && interval > 0.0 && Retried(fs, window, interval) && !GaveUp(fs, window)
    requires NextAt(fs, window, interval) <= f.begun <= f.checked
    ensures Retried(fs + [f], window, interval) && (GaveUp(fs + [f], window) <==> f.checked >= window)
    ensures NextAt(fs + [f], window, interval) == f.checked + Min(interval, window - f.checked)
    ensures |fs| < Bound(window, interval) && (f.checked < window ==> |fs| + 1 < Bound(window, interval))
  {
    assert (fs + [f])[..|fs|] == fs;
    FailuresBounded(fs, window, interval);
    FailuresBounded(fs + [f], window, interval);
  }

  /** `n` attempts that fail at once, at given times. */
  function PromptFailures(n: nat, at: nat -> real): (fs: seq<Failure>)
    ensures |fs| == n
  {
    if n == 0 then [] else PromptFailures(n - 1, at) + [Failure(at(n - 1), at(n - 1))]
  }

  lemma {:induction false} PromptFailuresRetried(n: nat, at: nat -> real, window: real, interval: real)
    requires at(0) == 0.0
    requires forall k: nat | k + 1 < n :: at(k) < window && at(k) + Min(interval, window - at(k)) == at(k + 1)
    ensures var fs := PromptFailures(n, at);
      Retried(fs, window, interval) && (n > 0 ==> fs[n - 1] == Failure(at(n - 1), at(n - 1)))
  {
    if n > 0 {
      PromptFailuresRetried(n - 1, at, window, interval);
      assert PromptFailures(n, at)[..n - 1] == PromptFailures(n - 1, at);
      assert n > 1 ==> at(n - 2) + Min(interval, window - at(n - 2)) == at((n - 2) + 1);
    }
  }

  /** When an attempt begins if all before it failed at once and no sleep took longer than asked. */
  function PromptTime(k: nat, window: real, interval: real): real { Min(k as real * interval, window) }

  lemma NextPromptTime(k: nat, window: real, interval: real)
    requires interval > 0.0
    ensures var t := PromptTime(k, window, interval);
      if k + 1 < Bound(window, interval) then t < window && t + Min(interval, window - t) == PromptTime(k + 1, window, interval)
      else t == window
  {
    IntervalsFit(k, window, interval);
    assert k as real * interval + interval == (k + 1) as real * interval;
  }

  /** The bound is exact: attempts that fail at once, with sleeps no longer than asked, reach it. */
  lemma BoundIsReached(window: real, interval: real) returns (fs: seq<Failure>)
    requires window > 0.0 && interval > 0.0
    ensures Retried(fs, window, interval) && GaveUp(fs, window) && |fs| == Bound(window, interval)
  {
    var n, at := Bound(window, interval), (k: nat) => PromptTime(k, window, interval);
    forall k: nat | k + 1 < n ensures at(k) < window && at(k) + Min(interval, window - at(k)) == at(k + 1) {
      NextPromptTime(k, window, interval);
    }
    fs := PromptFailures(n, at);
    PromptFailuresRetried(n, at, window, interval);
    NextPromptTime(n - 1, window, interval);
  }

  class JsonRpcRemote<D(!new, ==)> {
    const world: World<D>
    const retryTimeout: real
    const retryInterval: real
    var registered: Option<Definition<D>>
    var session: Option<Session<D>>
    /** Set by the worker thread of the session. */
    var lost: bool
    var outage: Option<Outage>
    var incompatible: bool
    ghost var history: History

    ghost function State(): Client<D>
      reads this
    {
      Client(retryTimeout > 0.0, registered, session, lost, outage, incompatible, history)
    }

    ghost predicate Valid()
      reads this
    {
      Reconnect.Valid(State()) && (retryTimeout > 0.0 ==> retryInterval > 0.0)
    }

    constructor Init(world: World<D>, retryTimeout: real, retryInterval: real)
      requires retryTimeout > 0.0 ==> retryInterval > 0.0
      ensures Valid() && this.world == world && this.retryTimeout == retryTimeout && this.retryInterval == retryInterval
      ensures State() == Client(retryTimeout > 0.0, None, None, false, None, false, History(false, 0, 0, 0))
    {
      this.world, this.retryTimeout, this.retryInterval := world, retryTimeout, retryInterval;
      registered, session, lost, outage, incompatible, history := None, None, false, None, false, History(false, 0, 0, 0);
    }

    /** The constructor: an interval that cannot end the retries is rejected, and so is a client that does not connect. */
    static method Create(world: World<D>, retryTimeout: real, retryInterval: real) returns (r: Option<JsonRpcRemote<D>>)
      modifies world
      ensures retryTimeout > 0.0 && retryInterval <= 0.0 ==> r.None? && world.now == old(world.now)
      ensures r.Some? ==> fresh(r.value) && r.value.Valid() && r.value.session.Some?
      ensures r.Some? ==> r.value.State() == Constructed(retryTimeout > 0.0, r.value.session.value, r.value.history.attempts)
    {
      if retryTimeout > 0.0 && retryInterval <= 0.0 {
        return None;
      }
      var remote := new JsonRpcRemote.Init(world, retryTimeout, retryInterval);
      var answer, _, _ := remote.EnsureSession();
      if !answer.Got? {
        return None;
      }
      remote.registered := answer.session.definition;
      return Some(remote);
    }

    /** `_ensure_session` */
    method EnsureSession() returns (answer: Answer<D>, ghost now: real, ghost o: Outcome<D>)
      requires Valid()
      modifies this, world
      ensures Valid() && Possible(Connecting(old(State()), now), o)
      ensures (State(), answer) == Reconnect.EnsureSession(old(State()), now, o)
    {
      now, o := world.now, Outcome(0.0, 1, None);
      StepKeepsValid(State(), Call(now, o));
      if incompatible {
        return Answer.Incompatible, now, o;
      }
      if session.Some? && lost {
        if retryTimeout <= 0.0 {
          return Answer.Lost, now, o;
        }
        session, lost := None, false;
        outage := Some(Outage(world.now, true, 0, false));
        history := history.(lossSeen := true);
        assert State() == LoseSession(old(State()), now);
      }
      if session.None? {
        answer, o := ConnectAndCheck();
      } else {
        answer := Got(session.value);
      }
      StepKeepsValid(old(State()), Call(now, o));
    }

    /** `_check_definition` */
    method CheckDefinition(s: Session<D>) returns (same: bool)
      modifies `incompatible
      ensures same <==> s.definition == registered
      ensures incompatible == (old(incompatible) || !same)
    {
      EmptyExactlyIfEqual(registered, s.definition);
      same := Changes(registered, s.definition) == [];
      if !same {
        incompatible := true;
      }
    }

    /** The part of `_ensure_session` without a stored session. */
    method ConnectAndCheck() returns (answer: Answer<D>, ghost o: Outcome<D>)
      requires Valid() && session.None? && !incompatible
      modifies this, world
      ensures Possible(old(State()), o) && (State(), answer) == Connect(old(State()), o)
    {
      ghost var c := State();
      var connected: Option<Session<D>>;
      ghost var fs: seq<Failure>;
      connected, o, fs := ConnectWithRetry();
      if connected.None? {
        history := history.(attempts := history.attempts + o.failures, failures := history.failures + o.failures,
                            windows := history.windows + if Retries(c) then 1 else 0);
        return NotConnected, o;
      }
      history := history.(attempts := history.attempts + Attempts(o), failures := 0, windows := 0);
      var before := outage;
      outage := None;
      assert (before.Some? && before.value.loss) == WasLost(c);
      if before.Some? && before.value.loss {
        EmptyExactlyIfEqual(registered, connected.value.definition);
        var same := CheckDefinition(connected.value);
        if !same {
          return DefinitionChanged, o;
        }
      }
      session, lost := connected, false;
      return Got(connected.value), o;
    }

    /** `_stop_session` */
    method StopSession()
      requires Valid()
      modifies this
      ensures Valid() && State() == Reconnect.StopSession(old(State()))
    {
      StepKeepsValid(State(), ScopeEnds);
      incompatible := false;
      if outage.Some? {
        outage := Some(outage.value.(loss := false));
      }
      session, lost := None, false;
      history := history.(lossSeen := false);
    }

    /** An attempt has failed: the outage begins with it, or goes on. */
    method CountFailure(started: real)
      modifies `outage
      ensures outage == Counted(old(outage), started, 1)
      ensures forall before, n: nat :: old(outage) == Counted(before, started, n) ==> outage == Counted(before, started, n + 1)
    {
      if outage.None? {
        outage := Some(Outage(started, false, 0, false));
      }
      outage := Some(outage.value.(failedAttempts := outage.value.failedAttempts + 1));
    }

    /** `_connect_with_retry`: with retry on, its failed attempts keep the interval, and without a session it gives up once
        the window has passed. */
    method ConnectWithRetry() returns (connected: Option<Session<D>>, ghost o: Outcome<D>, ghost fs: seq<Failure>)
      requires Valid()
      modifies world, `outage
      ensures Possible(old(State()), o) && o.session == connected && o.since == old(world.now)
      ensures connected.None? ==> outage == OutageAfter(old(State()), o)
      ensures connected.Some? ==> outage == Counted(old(outage), o.since, o.failures)
      ensures Retries(old(State())) ==> Retried(fs, retryTimeout, retryInterval) && |fs| == o.failures
      ensures Retries(old(State())) ==> (GaveUp(fs, retryTimeout) <==> connected.None?)
      ensures Retries(old(State())) ==> Attempts(o) <= Bound(retryTimeout, retryInterval)
      ensures Retries(old(State())) && connected.None? ==> world.now >= old(world.now) + retryTimeout
      ensures world.now >= old(world.now)
    {
      var started := world.now;
      var retry := retryTimeout > 0.0 && !(outage.Some? && outage.value.windowSpent);
      var deadline := started + retryTimeout;
      ghost var c := State();
      fs := [];
      if retry {
        FailuresBounded(fs, retryTimeout, retryInterval);
      }
      while true
        invariant fs == [] || retry
        invariant outage == Counted(c.outage, started, |fs|) && world.now >= started
        invariant retry ==> |fs| < Bound(retryTimeout, retryInterval)
        invariant retry ==> Retried(fs, retryTimeout, retryInterval) && !GaveUp(fs, retryTimeout)
        invariant retry ==> world.now >= started + NextAt(fs, retryTimeout, retryInterval)
        decreases if retry then Bound(retryTimeout, retryInterval) - |fs| else 0
      {
        ghost var begun := world.now - started;
        connected := world.Connect();
        if connected.Some? {
          return connected, Outcome(started, |fs|, connected), fs;
        }
        CountFailure(started);
        if !retry {
          return None, Outcome(started, 1, None), fs;
        }
        world.Wait();
        var now := world.now;
        OneMoreFailure(fs, Failure(begun, now - started), retryTimeout, retryInterval);
        fs := fs + [Failure(begun, now - started)];
        var remaining := deadline - now;
        if remaining <= 0.0 {
          outage := Some(outage.value.(windowSpent := true));
          return None, Outcome(started, |fs|, None), fs;
        }
        world.Sleep(Min(retryInterval, remaining));
      }
    }
  }
}
