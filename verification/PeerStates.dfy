/** One side of a JSON-RPC connection: its pending requests and its life cycle. Each function is what the peer
    does between two awaits. Requests are numbered, as `_id_counter` does; each has a future. */
module PeerStates {
  import opened Decimal
  import opened JsonTypes
  import opened Messages

  /** The future of a request. `Dropped` is one that its caller left without waiting for it. */
  datatype Future =
    | Waiting
    | Resolved(result: Json)
    | Refused(code: Json)
    | Invalid(problem: int)
    | ConnectionClosed
    | Cancelled
    | Dropped

  /** `Abandoned` is a completion future that was cancelled together with a task that awaited it. */
  datatype Completion = Open | Ended | Failed | Abandoned

  /** `NeverStarted` before `start()`, `Scheduled` until the read task takes its first step, `Finishing` while its
      cleanup waits for the writer. `CancelledEarly` is a task that was cancelled before its first step. */
  datatype ReadTask = NeverStarted | Scheduled | Reading | Finishing | Finished | CancelledEarly

  datatype Peer = Peer(
    counter: nat,
    pending: map<string, nat>,
    futures: Futures,
    closed: bool,
    completion: Completion,
    resolutions: nat,
    task: ReadTask)

  const INITIAL := Peer(1, map[], map[], false, Open, 0, NeverStarted)

  // ---- Steps ----

  /** `send_request_typed` up to its first await; refused when the connection is closed. */
  function Send(p: Peer): Peer {
    if p.closed then p
    else p.(counter := p.counter + 1,
            pending := p.pending[Numeral(p.counter) := p.counter],
            futures := p.futures[p.counter := Waiting])
  }

  /** The `finally` of a request: its caller goes on, with the outcome or because writing failed. */
  function Leave(p: Peer, n: nat): Peer {
    p.(pending := p.pending - {Numeral(n)},
       futures := if n in p.futures && p.futures[n].Waiting? then p.futures[n := Dropped] else p.futures)
  }

  /** A timeout or a cancelled caller; the caller has not run yet. */
  function GiveUp(p: Peer, n: nat): Peer {
    if n in p.futures && p.futures[n].Waiting? then p.(futures := p.futures[n := Cancelled]) else p
  }

  /** The error in a response; `_error_from_dict` tolerates malformed ones. */
  function ErrorCode(error: Json): Json {
    if error.Obj? && "code" in error.members then error.members["code"] else Int(INTERNAL_ERROR)
  }

  /** What a response does to the future that waits for it. */
  function OutcomeOf(m: Members): Future {
    if Member(m, "jsonrpc") != Str("2.0") then Invalid(INVALID_REQUEST)
    else if Member(m, "error") == Null && "result" !in m then Invalid(INTERNAL_ERROR)
    else if Member(m, "error") != Null then Refused(ErrorCode(m["error"]))
    else Resolved(m["result"])
  }

  /** `_handle_response`. Ids are strings here, so a number as the id matches no request. */
  function Respond(p: Peer, m: Members): Peer {
    var id := Member(m, "id");
    if !id.Str? || id.s !in p.pending then p
    else
      var n := p.pending[id.s];
      var p' := p.(pending := p.pending - {id.s});
      if n in p.futures && p.futures[n].Waiting? then p'.(futures := p.futures[n := OutcomeOf(m)]) else p'
  }

  /** `start()` creates the read task. */
  function Start(p: Peer): Peer {
    if p.task.NeverStarted? then p.(task := Scheduled) else p
  }

  function FirstStep(p: Peer): Peer {
    if p.task.Scheduled? then p.(task := Reading) else p
  }

  type Futures = map<nat, Future>

  /** The futures after each one in the table that still waits has been failed. */
  function FailWaiting(futures: Futures, waiting: map<string, nat>): Futures {
    map n | n in futures ::
      if futures[n].Waiting? && exists id | id in waiting :: waiting[id] == n then ConnectionClosed else futures[n]
  }

  function FailOne(futures: Futures, n: nat): Futures {
    if n in futures && futures[n].Waiting? then futures[n := ConnectionClosed] else futures
  }

  lemma FailOneThenTheRest(futures: Futures, waiting: map<string, nat>, id: string)
    requires id in waiting
    ensures FailWaiting(FailOne(futures, waiting[id]), waiting - {id}) == FailWaiting(futures, waiting)
  {
    var rest := waiting - {id};
    forall n | n in futures
      ensures (exists i | i in waiting :: waiting[i] == n) <==> n == waiting[id] || exists i | i in rest :: rest[i] == n
    {
      if i :| i in waiting && waiting[i] == n {
        assert i == id || (i in rest && rest[i] == n);
      }
    }
  }

  /** `_mark_closed` */
  function MarkClosed(p: Peer): Peer {
    p.(closed := true, pending := map[], futures := FailWaiting(p.futures, p.pending))
  }

  /** `set_result` or `set_exception` on the completion, unless it is done. */
  function Complete(p: Peer, how: Completion): Peer {
    if p.completion.Open? then p.(completion := how, resolutions := p.resolutions + 1) else p
  }

  /** A task that awaits the completion, as `run()` does, is cancelled, and the future with it. */
  function AbandonCompletion(p: Peer): Peer { Complete(p, Abandoned) }

  /** `_finish` up to its first await. */
  function Finish(p: Peer): Peer { Complete(MarkClosed(p), Ended) }

  /** The read loop ends, with an error or without; its cleanup runs in the same step. */
  function EndLoop(p: Peer, error: bool): Peer {
    if !p.task.Reading? then p
    else Finish(if error then Complete(p, Failed) else p).(task := Finishing)
  }

  function WriterClosed(p: Peer): Peer {
    if p.task.Finishing? then p.(task := Finished) else p
  }

  /** Cancelling the read task and awaiting it: the cleanup runs only in a task that has taken its first step. */
  function CancelTask(p: Peer): Peer {
    match p.task
    case NeverStarted | Finished | CancelledEarly => p
    case Scheduled => p.(task := CancelledEarly)
    case Reading => Finish(p).(task := Finished)
    case Finishing => p.(task := Finished)
  }

  /** The last part of `stop()`: the cleanup that no read task has run. */
  function FinishStop(p: Peer): Peer {
    if p.closed then p else Finish(p)
  }

  // ---- Invariant ----

  ghost predicate Valid(p: Peer) {
    && p.counter >= 1
    && (forall n :: n in p.futures <==> 1 <= n < p.counter)
    && (forall id | id in p.pending :: p.pending[id] in p.futures && id == Numeral(p.pending[id]))
    && (forall n | n in p.futures && p.futures[n].Waiting? :: Numeral(n) in p.pending && p.pending[Numeral(n)] == n)
    && (p.closed ==> p.pending == map[])
    && (p.closed ==> !p.completion.Open?)
    && (!p.closed ==> p.completion.Open? || p.completion.Abandoned?)
    && p.resolutions == (if p.completion.Open? then 0 else 1)
    && (p.task.Finishing? || p.task.Finished? ==> p.closed)
  }

  // ---- Whole runs ----

  datatype Event =
    | SendE
    | LeaveE(n: nat)
    | GiveUpE(n: nat)
    | RespondE(m: Members)
    | StartE
    | FirstStepE
    | EndLoopE(error: bool)
    | WriterClosedE
    | CancelTaskE
    | FinishStopE
    | AbandonE

  function Step(p: Peer, e: Event): Peer {
    match e
    case SendE => Send(p)
    case LeaveE(n) => Leave(p, n)
    case GiveUpE(n) => GiveUp(p, n)
    case RespondE(m) => Respond(p, m)
    case StartE => Start(p)
    case FirstStepE => FirstStep(p)
    case EndLoopE(error) => EndLoop(p, error)
    case WriterClosedE => WriterClosed(p)
    case CancelTaskE => CancelTask(p)
    case AbandonE => AbandonCompletion(p)
    case FinishStopE => if p.task.Reading? || p.task.Scheduled? then p else FinishStop(p)
  }

  function Run(p: Peer, es: seq<Event>): Peer {
    if es == [] then p else Step(Run(p, es[..|es| - 1]), es[|es| - 1])
  }

  /** What no step ever takes back: being closed, the outcome of a request, and the way of completion. */
  ghost predicate Extends(p: Peer, q: Peer) {
    && p.counter <= q.counter
    && (p.closed ==> q.closed)
    && (forall n | n in p.futures && !p.futures[n].Waiting? :: n in q.futures && q.futures[n] == p.futures[n])
    && (!p.completion.Open? ==> q.completion == p.completion)
  }

  lemma StepKeepsValid(p: Peer, e: Event)
    requires Valid(p)
    ensures Valid(Step(p, e)) && Extends(p, Step(p, e))
  {
    match e
    case SendE => SendKeepsValid(p);
    case LeaveE(n) => LeaveKeepsValid(p, n);
    case RespondE(m) => RespondKeepsValid(p, m);
    case GiveUpE(n) => GiveUpKeepsValid(p, n);
    case EndLoopE(error) => EndLoopKeepsValid(p, error);
    case CancelTaskE => CancelTaskKeepsValid(p);
    case FinishStopE => FinishKeepsValid(p, false);
    case _ =>
  }

  lemma GiveUpKeepsValid(p: Peer, n: nat)
    requires Valid(p)
    ensures Valid(GiveUp(p, n)) && Extends(p, GiveUp(p, n))
  {
  }

  lemma EndLoopKeepsValid(p: Peer, error: bool)
    requires Valid(p)
    ensures Valid(EndLoop(p, error)) && Extends(p, EndLoop(p, error))
  {
    FinishKeepsValid(p, error);
  }

  lemma CancelTaskKeepsValid(p: Peer)
    requires Valid(p)
    ensures Valid(CancelTask(p)) && Extends(p, CancelTask(p))
  {
    if p.task.Reading? {
      FinishKeepsValid(p, false);
      OtherTaskKeepsValid(Finish(p), Finished);
    } else if p.task.Scheduled? {
      OtherTaskKeepsValid(p, CancelledEarly);
    } else if p.task.Finishing? {
      OtherTaskKeepsValid(p, Finished);
    }
  }

  lemma OtherTaskKeepsValid(p: Peer, task: ReadTask)
    requires Valid(p) && (task.Finishing? || task.Finished? ==> p.closed)
    ensures Valid(p.(task := task)) && Extends(p, p.(task := task))
  {
  }

  lemma FinishKeepsValid(p: Peer, error: bool)
    requires Valid(p)
    ensures var q := Finish(if error then Complete(p, Failed) else p); Valid(q) && Extends(p, q) && q.closed
  {
    var q := MarkClosed(p);
    forall n | n in p.futures && p.futures[n].Waiting? ensures q.futures[n] == ConnectionClosed {
      assert p.pending[Numeral(n)] == n;
    }
  }

  lemma SendKeepsValid(p: Peer)
    requires Valid(p)
    ensures Valid(Send(p)) && Extends(p, Send(p))
  {
    if !p.closed {
      forall n | n in p.futures && p.futures[n].Waiting? ensures Numeral(n) != Numeral(p.counter) {
        if Numeral(n) == Numeral(p.counter) { NumeralInjective(n, p.counter); }
      }
    }
  }

  lemma LeaveKeepsValid(p: Peer, n: nat)
    requires Valid(p)
    ensures Valid(Leave(p, n)) && Extends(p, Leave(p, n))
  {
    forall k | k in p.futures && p.futures[k].Waiting? && k != n ensures Numeral(k) != Numeral(n) {
      if Numeral(k) == Numeral(n) { NumeralInjective(k, n); }
    }
  }

  lemma RespondKeepsValid(p: Peer, m: Members)
    requires Valid(p)
    ensures Valid(Respond(p, m)) && Extends(p, Respond(p, m))
  {
    var id := Member(m, "id");
    if id.Str? && id.s in p.pending {
      var n := p.pending[id.s];
      forall k | k in p.futures && p.futures[k].Waiting? && k != n ensures Numeral(k) != id.s {
        if Numeral(k) == Numeral(n) { NumeralInjective(k, n); }
      }
    }
  }

  /** In every state that any run reaches: a closed peer has no pending and no waiting request, its completion is
      resolved, the completion is resolved at most once, and before the close nothing but a cancelled awaiting task does. */
  lemma {:induction false} RunsStayValid(es: seq<Event>)
    ensures var p := Run(INITIAL, es);
      && Valid(p)
      && (p.closed ==> p.pending == map[] && forall n | n in p.futures :: !p.futures[n].Waiting?)
      && (p.closed ==> !p.completion.Open?)
      && (!p.closed && !p.completion.Open? ==> p.completion.Abandoned?)
      && p.resolutions <= 1
  {
    if es != [] {
      RunsStayValid(es[..|es| - 1]);
      StepKeepsValid(Run(INITIAL, es[..|es| - 1]), es[|es| - 1]);
    }
  }

  predicate ClosedMeansResolved(p: Peer) { p.closed <==> !p.completion.Open? }

  /** A task that awaits the completion is cancelled at `i`, and the peer is not closed. */
  predicate AbandonedWhileOpen(es: seq<Event>, i: nat)
    requires i < |es|
  {
    es[i].AbandonE? && !Run(INITIAL, es[..i]).closed
  }

  /** Throughout a run, being closed and having the completion resolved are the same, exactly if no task that awaits the
      completion is cancelled before the close. */
  lemma {:induction false} ClosedMeansResolvedExactlyIf(es: seq<Event>)
    ensures (forall i | 0 <= i <= |es| :: ClosedMeansResolved(Run(INITIAL, es[..i]))) <==>
            (forall i | 0 <= i < |es| :: !AbandonedWhileOpen(es, i))
  {
    forall i | 0 <= i < |es| && AbandonedWhileOpen(es, i) ensures !ClosedMeansResolved(Run(INITIAL, es[..i + 1])) {
      assert es[..i + 1][..i] == es[..i];
    }
    if forall i | 0 <= i < |es| :: !AbandonedWhileOpen(es, i) {
      forall i | 0 <= i <= |es| ensures ClosedMeansResolved(Run(INITIAL, es[..i])) {
        NeverAbandoned(es, i);
      }
    }
  }

  lemma {:induction false} NeverAbandoned(es: seq<Event>, i: nat)
    requires i <= |es| && forall j | 0 <= j < |es| :: !AbandonedWhileOpen(es, j)
    ensures ClosedMeansResolved(Run(INITIAL, es[..i]))
  {
    RunsStayValid(es[..i]);
    if i > 0 {
      assert es[..i][..i - 1] == es[..i - 1];
      NeverAbandoned(es, i - 1);
      RunsStayValid(es[..i - 1]);
      assert !AbandonedWhileOpen(es, i - 1);
      StaysOpen(Run(INITIAL, es[..i - 1]), es[i - 1]);
    }
  }

  lemma StaysOpen(p: Peer, e: Event)
    requires Valid(p) && ClosedMeansResolved(p) && (e.AbandonE? ==> p.closed)
    ensures ClosedMeansResolved(Step(p, e))
  {
    StepKeepsValid(p, e);
  }

  /** The task that runs a peer is cancelled while the peer reads: the completion is cancelled, and the peer goes on, takes
      requests and answers them. */
  lemma AbandonedPeerGoesOn(m: Members)
    requires Member(m, "id") == Str(Numeral(1)) && Member(m, "jsonrpc") == Str("2.0") && "result" in m && Member(m, "error") == Null
    ensures var p := Step(Step(Step(INITIAL, StartE), FirstStepE), AbandonE);
      && p.completion.Abandoned? && !p.closed && p.task.Reading?
      && Step(p, SendE).futures[1].Waiting? && Step(Step(p, SendE), RespondE(m)).futures[1] == Resolved(m["result"])
  {
  }

  lemma {:induction false} RunsExtend(es: seq<Event>, more: seq<Event>)
    ensures Extends(Run(INITIAL, es), Run(INITIAL, es + more))
  {
    if more == [] {
      assert es + more == es;
    } else {
      var front := more[..|more| - 1];
      assert (es + more)[..|es + more| - 1] == es + front;
      RunsExtend(es, front);
      RunsStayValid(es + front);
      StepKeepsValid(Run(INITIAL, es + front), more[|more| - 1]);
    }
  }

  /** Closing fails exactly the requests that still wait, and no other. */
  lemma ClosingFailsTheWaiting(p: Peer, n: nat)
    requires Valid(p) && n in p.futures
    ensures Finish(p).futures[n] == if p.futures[n].Waiting? then ConnectionClosed else p.futures[n]
  {
    if p.futures[n].Waiting? { assert p.pending[Numeral(n)] == n; }
  }

  // ---- What a response says, stated on its members alone ----

  /** It has another version, or neither a result nor an error that is not null. */
  predicate Malformed(m: Members) {
    Member(m, "jsonrpc") != Str("2.0") || ("result" !in m && ("error" in m ==> m["error"] == Null))
  }

  /** It has an error that is not null, and then nothing else counts. */
  predicate TellsError(m: Members) { "error" in m && m["error"] != Null }

  /** A response fails its request with the error that it has, and only without one it resolves the request with its
      result; a malformed one fails it, too. */
  lemma OutcomeSaysWhatTheResponseSays(m: Members)
    ensures Malformed(m) <==> OutcomeOf(m).Invalid?
    ensures !Malformed(m) && TellsError(m) <==> OutcomeOf(m).Refused?
    ensures !Malformed(m) && !TellsError(m) <==> OutcomeOf(m).Resolved?
    ensures OutcomeOf(m).Resolved? ==> "result" in m && OutcomeOf(m).result == m["result"]
    ensures OutcomeOf(m).Refused? && m["error"].Obj? && "code" in m["error"].members ==>
      OutcomeOf(m).code == m["error"].members["code"]
    ensures OutcomeOf(m).Refused? && !(m["error"].Obj? && "code" in m["error"].members) ==> OutcomeOf(m).code == Int(-32603)
  {
  }

  /** No response of the standard is malformed. Its result or its error is what the request ends with. */
  lemma StandardResponseIsTaken(m: Members)
    requires IsResponse(Obj(m))
    ensures !Malformed(m)
    ensures OutcomeOf(m) == if "result" in m then Resolved(m["result"]) else Refused(m["error"].members["code"])
  {
    assert TellsError(m) <==> "error" in m;
  }

  /** A response ends the request that it names and no other, and only while that one waits: with its error if it tells
      one, with its result otherwise, or as malformed. */
  lemma ResponseResolvesItsRequest(p: Peer, m: Members, n: nat)
    requires Valid(p) && n in p.futures
    ensures var (named, f) := (Member(m, "id") == Str(Numeral(n)) && p.futures[n].Waiting?, Respond(p, m).futures[n]);
      && (!named ==> f == p.futures[n])
      && (named && Malformed(m) ==> f.Invalid?)
      && (named && !Malformed(m) && TellsError(m) ==> f == Refused(ErrorCode(m["error"])))
      && (named && !Malformed(m) && !TellsError(m) ==> f == Resolved(m["result"]))
      && (named ==> f == OutcomeOf(m) && Numeral(n) !in Respond(p, m).pending)
  {
    OutcomeSaysWhatTheResponseSays(m);
    if p.futures[n].Waiting? { assert p.pending[Numeral(n)] == n; }
  }

  // ---- How requests and the completion end, over whole runs ----

  /** What a request that still waits at an event ends with at that event, if it does. */
  function EndsWith(e: Event, n: nat): Future {
    match e
    case GiveUpE(k) => if k == n then Cancelled else Waiting
    case LeaveE(k) => if k == n then Dropped else Waiting
    case RespondE(m) => if Member(m, "id") == Str(Numeral(n)) then OutcomeOf(m) else Waiting
    case _ => Waiting
  }

  predicate Closes(p: Peer, e: Event) {
    || (e.EndLoopE? && p.task.Reading?)
    || (e.CancelTaskE? && p.task.Reading?)
    || (e.FinishStopE? && !p.task.Reading? && !p.task.Scheduled? && !p.closed)
  }

  lemma ClosingFutures(p: Peer, e: Event)
    requires Closes(p, e)
    ensures Step(p, e).futures == Finish(p).futures
  {
  }

  lemma StepEndsWaiting(p: Peer, e: Event, n: nat)
    requires Valid(p) && n in p.futures && p.futures[n].Waiting?
    ensures n in Step(p, e).futures
    ensures Step(p, e).futures[n] == if Closes(p, e) then ConnectionClosed else EndsWith(e, n)
  {
    if Closes(p, e) {
      ClosingFutures(p, e);
      ClosingFailsTheWaiting(p, n);
    } else if e.RespondE? {
      ResponseResolvesItsRequest(p, e.m, n);
    }
  }

  /** A request that waits goes on waiting until its caller gives up or goes on, a response names it, or the peer closes;
      and the first of these decides. */
  lemma WaitingEndsWith(es: seq<Event>, e: Event, n: nat)
    requires n in Run(INITIAL, es).futures && Run(INITIAL, es).futures[n].Waiting?
    ensures var (p, q) := (Run(INITIAL, es), Run(INITIAL, es + [e]));
      n in q.futures && q.futures[n] == if Closes(p, e) then ConnectionClosed else EndsWith(e, n)
  {
    RunsStayValid(es);
    assert (es + [e])[..|es|] == es;
    StepEndsWaiting(Run(INITIAL, es), e, n);
  }

  /** The end of the read loop decides the completion, unless a cancelled awaiting task did: failed exactly if an error
      ended the loop, from then on for good. */
  lemma CompletionTellsTheEnd(es: seq<Event>, i: nat)
    requires i < |es| && es[i].EndLoopE? && Run(INITIAL, es[..i]).task.Reading? && Run(INITIAL, es[..i]).completion.Open?
    ensures Run(INITIAL, es).completion == if es[i].error then Failed else Ended
  {
    var upTo := es[..i + 1];
    assert upTo[..i] == es[..i];
    assert Run(INITIAL, upTo).completion == if es[i].error then Failed else Ended;
    assert es == upTo + es[i + 1..];
    RunsExtend(upTo, es[i + 1..]);
  }

  /** A peer that is started, reads, and comes to the end of its connection is closed, and its task is over. */
  lemma LifeEnds(p: Peer, error: bool)
    requires p.task.NeverStarted?
    ensures var reading := Step(Step(p, StartE), FirstStepE);
      && reading.task.Reading? && Step(reading, EndLoopE(error)).closed
      && Step(Step(reading, EndLoopE(error)), WriterClosedE).task.Finished?
  {
  }

  /** Cancelling and awaiting a read task ends it: at once if it has not taken its first step, and with the cleanup if it
      reads. `stop()` then does the cleanup that no task has done. */
  lemma CancelEndsTheTask(p: Peer)
    requires Valid(p)
    ensures var q := Step(p, CancelTaskE);
      && (q.task.NeverStarted? <==> p.task.NeverStarted?)
      && (q.task.CancelledEarly? <==> p.task.Scheduled? || p.task.CancelledEarly?)
      && (q.task.Finished? <==> p.task.Reading? || p.task.Finishing? || p.task.Finished?)
      && (p.task.Reading? ==> q.closed) && (p.task.Scheduled? ==> q.closed == p.closed)
      && Step(q, FinishStopE).closed
  {
  }
}
