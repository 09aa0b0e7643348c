/** The peer as an object. Each method does to its fields what the step of the same name in PeerStates says. */
module JsonRpcPeers {
  import Decimal
  import opened JsonTypes
  import opened Messages
  import opened Options
  import PS = PeerStates

  /** How `stop()` ends: it awaits the completion last, so a cancelled completion cancels it. */
  datatype StopEnd = StopReturns | StopFails | StopCancelled

  /** The error or the result in a response that is not malformed. */
  function Told(m: Members): PS.Future
    requires !PS.Malformed(m)
  {
    if PS.TellsError(m) then PS.Refused(PS.ErrorCode(m["error"])) else PS.Resolved(m["result"])
  }

  class JsonRpcPeer {
    var counter: nat
    var pending: map<string, nat>
    var futures: PS.Futures
    var closed: bool
    var completion: PS.Completion
    var resolutions: nat
    var task: PS.ReadTask

    ghost function State(): PS.Peer
      reads this
    {
      PS.Peer(counter, pending, futures, closed, completion, resolutions, task)
    }

    ghost predicate Valid()
      reads this
    {
      PS.Valid(State())
    }

    constructor ()
      ensures State() == PS.INITIAL && Valid()
    {
      counter, pending, futures, closed := 1, map[], map[], false;
      completion, resolutions, task := PS.Open, 0, PS.NeverStarted;
    }

    /** The part of `send_request_typed` before its first await: the number of the request, or none when closed. */
    method SendRequest() returns (n: Option<nat>)
      requires Valid()
      modifies this
      ensures Valid() && State() == PS.Send(old(State()))
      ensures old(closed) ==> n == None
      ensures !old(closed) ==> n == Some(old(counter)) && Decimal.Numeral(old(counter)) !in old(pending)
    {
      PS.SendKeepsValid(State());
      if closed {
        return None;
      }
      if Decimal.Numeral(counter) in pending {
        Decimal.NumeralInjective(pending[Decimal.Numeral(counter)], counter);
        assert false;
      }
      n := Some(counter);
      var id := Decimal.Numeral(counter);
      futures := futures[counter := PS.Waiting];
      pending := pending[id := counter];
      counter := counter + 1;
    }

    /** The `finally` of a request. */
    method Leave(n: nat)
      requires Valid()
      modifies this
      ensures Valid() && State() == PS.Leave(old(State()), n)
      ensures pending == old(pending) - {Decimal.Numeral(n)}
    {
      PS.LeaveKeepsValid(State(), n);
      pending := pending - {Decimal.Numeral(n)};
      if n in futures && futures[n].Waiting? {
        futures := futures[n := PS.Dropped];
      }
    }

    method GiveUp(n: nat)
      requires Valid()
      modifies this
      ensures Valid() && State() == PS.GiveUp(old(State()), n)
      ensures pending == old(pending)
      ensures futures == if n in old(futures) && old(futures)[n].Waiting? then old(futures)[n := PS.Cancelled] else old(futures)
    {
      PS.GiveUpKeepsValid(State(), n);
      if n in futures && futures[n].Waiting? {
        futures := futures[n := PS.Cancelled];
      }
    }

    method HandleResponse(m: Members)
      requires Valid()
      modifies this
      ensures Valid() && State() == PS.Respond(old(State()), m)
      ensures forall n | n in old(futures) && old(futures)[n].Waiting? && Member(m, "id") == Str(Decimal.Numeral(n)) ::
        n in futures && (if PS.Malformed(m) then futures[n].Invalid? else futures[n] == Told(m))
      ensures forall n | n in old(futures) && !(old(futures)[n].Waiting? && Member(m, "id") == Str(Decimal.Numeral(n))) ::
        n in futures && futures[n] == old(futures)[n]
    {
      PS.RespondKeepsValid(State(), m);
      forall n | n in futures { PS.ResponseResolvesItsRequest(State(), m, n); }
      var id := Member(m, "id");
      if id.Str? && id.s in pending {
        var n := pending[id.s];
        pending := pending - {id.s};
        if futures[n].Waiting? {
          futures := futures[n := PS.OutcomeOf(m)];
        }
      }
    }

    method MarkClosed()
      modifies this
      ensures State() == PS.MarkClosed(old(State()))
    {
      closed := true;
      var waiting := pending;
      pending := map[];
      while waiting != map[]
        invariant closed && pending == map[]
        invariant PS.FailWaiting(futures, waiting) == PS.FailWaiting(old(futures), old(pending))
        invariant counter == old(counter) && completion == old(completion) && resolutions == old(resolutions) && task == old(task)
        decreases |waiting|
      {
        var id :| id in waiting;
        PS.FailOneThenTheRest(futures, waiting, id);
        if waiting[id] in futures && futures[waiting[id]].Waiting? {
          futures := futures[waiting[id] := PS.ConnectionClosed];
        }
        waiting := waiting - {id};
      }
      assert PS.FailWaiting(futures, map[]) == futures;
    }

    method Complete(how: PS.Completion)
      modifies this
      ensures State() == PS.Complete(old(State()), how)
    {
      if completion.Open? {
        completion := how;
        resolutions := resolutions + 1;
      }
    }

    /** A task that awaits the completion is cancelled. */
    method AbandonCompletion()
      requires Valid()
      modifies this
      ensures Valid() && State() == PS.AbandonCompletion(old(State())) && PS.Extends(old(State()), State())
    {
      Complete(PS.Abandoned);
    }

    /** `_finish` up to its first await. */
    method Finish()
      requires Valid()
      modifies this
      ensures Valid() && State() == PS.Finish(old(State()))
    {
      PS.FinishKeepsValid(State(), false);
      MarkClosed();
      Complete(PS.Ended);
    }

    /** The end of `io_loop`: the error that ended the loop, if any, and the cleanup. */
    method EndLoop(error: bool)
      requires Valid() && task.Reading?
      modifies this
      ensures Valid() && State() == PS.EndLoop(old(State()), error)
      ensures closed && completion == if !old(completion).Open? then old(completion) else if error then PS.Failed else PS.Ended
    {
      PS.EndLoopKeepsValid(State(), error);
      if error {
        Complete(PS.Failed);
      }
      MarkClosed();
      Complete(PS.Ended);
      task := PS.Finishing;
    }

    /** Anything that other tasks may do while `stop()` waits: send, receive, give up, go on, stop awaiting. */
    method OthersRun()
      requires Valid()
      modifies this
      ensures Valid() && PS.Extends(old(State()), State()) && task == old(task)
    {
      var turns: int := *;
      while turns > 0
        invariant Valid() && PS.Extends(old(State()), State()) && task == old(task)
      {
        var n: int := *;
        var choice: int := *;
        if choice == 0 {
          PS.SendKeepsValid(State());
          var _ := SendRequest();
        } else if choice == 1 && n >= 0 {
          PS.LeaveKeepsValid(State(), n);
          Leave(n);
        } else if choice == 2 && n >= 0 {
          PS.GiveUpKeepsValid(State(), n);
          GiveUp(n);
        } else if choice == 3 {
          AbandonCompletion();
        } else {
          var m: Members := *;
          PS.RespondKeepsValid(State(), m);
          HandleResponse(m);
        }
        turns := turns - 1;
      }
    }

    /** `stop()`, from whatever point of its life the peer is at. It ends as the completion does. */
    method Stop() returns (end: StopEnd)
      requires Valid()
      modifies this
      ensures Valid() && PS.Extends(old(State()), State())
      ensures closed && pending == map[] && !completion.Open? && resolutions == 1
      ensures forall n | n in futures :: !futures[n].Waiting?
      ensures task.NeverStarted? || task.CancelledEarly? || task.Finished?
      ensures end == if completion.Failed? then StopFails else if completion.Abandoned? then StopCancelled else StopReturns
      ensures old(completion).Abandoned? ==> end == StopCancelled
    {
      if !task.NeverStarted? && !task.Finished? && !task.CancelledEarly? {
        OthersRun();
        PS.CancelTaskKeepsValid(State());
        if task.Scheduled? {
          task := PS.CancelledEarly;
        } else if task.Reading? {
          Finish();
          task := PS.Finished;
        } else {
          task := PS.Finished;
        }
      }
      OthersRun();
      if !closed {
        PS.FinishKeepsValid(State(), false);
        Finish();
      }
      OthersRun();
      end := if completion.Failed? then StopFails else if completion.Abandoned? then StopCancelled else StopReturns;
    }
  }
}
