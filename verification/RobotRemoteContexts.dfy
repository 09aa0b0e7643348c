/** The runner as an object: each method does to the fields what its step in RunnerStates says. */
module RobotRemoteContexts {
  import RS = RunnerStates

  class RobotRemoteContext {
    var commandQueue: seq<nat>
    var futures: map<nat, RS.Future>
    var closed: bool
    var stopped: bool
    var loop: RS.Loop
    ghost var accepted: seq<nat>
    ghost var started: seq<nat>
    ghost var drained: seq<nat>
    var submitted: nat

    ghost function State(): RS.Context
      reads this
    {
      RS.Context(commandQueue, futures, closed, stopped, loop, accepted, started, drained)
    }

    ghost predicate Valid()
      reads this
    {
      RS.Valid(State()) && submitted == |accepted|
    }

    constructor ()
      ensures Valid() && State() == RS.INITIAL
    {
      commandQueue, futures, closed, stopped, loop := [], map[], false, false, RS.Checking;
      accepted, started, drained, submitted := [], [], [], 0;
    }

    /** `_submit` */
    method Submit() returns (rejected: bool, n: nat)
      requires Valid()
      modifies this
      ensures Valid() && State() == RS.Submit(old(State()))
      ensures rejected == RS.Rejects(old(State()))
      ensures !rejected ==> n in futures && n !in old(futures) && futures[n].Queued?
    {
      RS.SubmitKeepsValid(State());
      if closed || stopped {
        return true, 0;
      }
      n := submitted;
      commandQueue := commandQueue + [n];
      futures := futures[n := RS.Queued];
      accepted := accepted + [n];
      submitted := submitted + 1;
      rejected := false;
    }

    /** `stop` */
    method Stop()
      requires Valid()
      modifies this
      ensures Valid() && State() == RS.Stop(old(State()))
    {
      stopped := true;
    }

    /** Whatever other threads do between two steps of the loop: submit commands and stop. */
    method OtherThreads()
      requires Valid()
      modifies this
      ensures Valid() && OthersOnly(old(State()), State())
    {
      var turns: int := *;
      while turns > 0
        invariant Valid() && OthersOnly(old(State()), State())
      {
        var stop: bool := *;
        if stop {
          Stop();
        } else {
          var _, _ := Submit();
        }
        turns := turns - 1;
      }
    }

    /** Taking the first command off the queue. */
    method Take()
      requires Valid() && loop.Getting? && commandQueue != []
      modifies this
      ensures Valid() && State() == RS.Get(old(State()))
    {
      RS.GetKeepsValid(State());
      loop := RS.Running(commandQueue[0]);
      started := started + [commandQueue[0]];
      commandQueue := commandQueue[1..];
    }

    /** `set_result` or `set_exception` on the future of the running command. */
    method SetOutcome(raised: bool)
      requires Valid() && loop.Running?
      modifies this
      ensures Valid() && State() == RS.EndCommand(old(State()), raised)
      ensures futures == old(futures)[old(loop).n := if raised then RS.Raised else RS.Done]
    {
      RS.EndKeepsValid(State(), raised);
      futures := futures[loop.n := if raised then RS.Raised else RS.Done];
      loop := RS.Checking;
    }

    /** The first command of the queue is taken and run. */
    method RunFirst()
      requires Valid() && loop.Getting? && commandQueue != []
      modifies this
      ensures Valid() && loop.Checking? && old(accepted) <= accepted && started == old(started) + [old(commandQueue)[0]]
    {
      Take();
      OtherThreads();
      var raised: bool := *;
      SetOutcome(raised);
    }

    /** One turn of the loop; it ends when `stop()` was called, or when something else ends it. */
    method Turn(break_: bool) returns (goesOn: bool)
      requires Valid() && loop.Checking?
      modifies this
      ensures Valid() && old(accepted) <= accepted && old(started) <= started && loop == (if goesOn then RS.Checking else RS.Closing)
      ensures break_ || old(stopped) ==> !goesOn
    {
      OtherThreads();
      if stopped {
        loop := RS.Closing;
        return false;
      }
      loop := RS.Getting;
      OtherThreads();
      if break_ {
        loop := RS.Closing;
        return false;
      }
      if commandQueue == [] {
        loop := RS.Checking;
        return true;
      }
      RunFirst();
      return true;
    }

    /** `_hook_loop`, for any number of turns before `stop()` or anything else ends it. */
    method HookLoop(turns: nat)
      requires Valid() && loop.Checking?
      modifies this
      ensures Valid() && loop.Over? && closed && commandQueue == []
      ensures old(accepted) <= accepted && old(started) <= started && accepted == started + drained
      ensures forall n: nat :: n in futures <==> n < |accepted|
      ensures forall n | n in futures :: if n < |started| then futures[n].Done? || futures[n].Raised? else futures[n].ShutDown?
    {
      var left := turns;
      var goesOn := true;
      while goesOn
        invariant Valid() && loop == (if goesOn then RS.Checking else RS.Closing)
        invariant old(accepted) <= accepted && old(started) <= started && left >= 0
        decreases goesOn, left
      {
        goesOn := Turn(left == 0);
        if left > 0 { left := left - 1; }
      }
      Close();
      RS.OverMeansResolved(State());
    }

    /** The part of `_close` under the lock. */
    method Drain() returns (queued: seq<nat>)
      requires Valid() && loop.Closing?
      modifies this
      ensures Valid() && State() == RS.Close(old(State())) && queued == old(commandQueue)
    {
      closed := true;
      queued := [];
      while commandQueue != []
        invariant State() == old(State()).(closed := true, queue := commandQueue)
        invariant queued + commandQueue == old(commandQueue) && submitted == old(submitted)
        decreases |commandQueue|
      {
        queued := queued + [commandQueue[0]];
        commandQueue := commandQueue[1..];
      }
      assert queued == old(commandQueue);
      RS.CloseKeepsValid(old(State()));
      loop := RS.Failing(queued);
    }

    /** Failing the first drained future; one that is done already stays as it is. */
    method FailOne()
      requires Valid() && loop.Failing? && loop.left != []
      modifies this
      ensures Valid() && State() == RS.FailNext(old(State()))
    {
      RS.FailKeepsValid(State());
      var n := loop.left[0];
      if n !in futures || futures[n].Queued? {
        futures := futures[n := RS.ShutDown];
      }
      drained := drained + [n];
      loop := RS.Failing(loop.left[1..]);
    }

    /** `_close` */
    method Close()
      requires Valid() && loop.Closing?
      modifies this
      ensures Valid() && loop.Over? && closed && commandQueue == []
      ensures accepted == old(accepted) && started == old(started)
    {
      var _ := Drain();
      while loop.left != []
        invariant Valid() && loop.Failing? && closed && commandQueue == []
        invariant accepted == old(accepted) && started == old(started)
        decreases |loop.left|
      {
        OtherThreads();
        FailOne();
      }
      RS.FailKeepsValid(State());
      loop := RS.Over;
    }
  }

  /** The part of the state that other threads leave alone, and what they may do to the rest. */
  ghost predicate OthersOnly(c: RS.Context, d: RS.Context) {
    && d.loop == c.loop && d.closed == c.closed && d.started == c.started && d.drained == c.drained
    && (c.stopped ==> d.stopped)
    && c.accepted <= d.accepted && c.queue <= d.queue
  }
}
