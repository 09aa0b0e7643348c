/** Answering JSON-RPC messages: single ones, batches, and answers that cannot be sent. What the handlers do is
    a parameter; they may change the state of the application, and one message is handled after the other. */
module Messages {
  import opened JsonTypes
  import opened Options
  import Sequences

  const PARSE_ERROR := -32700
  const INVALID_REQUEST := -32600
  const METHOD_NOT_FOUND := -32601
  const INVALID_PARAMS := -32602
  const INTERNAL_ERROR := -32603

  type Members = map<string, Json>

  /** How a request handler ends: with a result, by raising a `JsonRpcResponseError`, with params that do not
      convert, or by raising anything else. */
  datatype Ending<+R> = Returns(result: R) | RaisesError(code: int) | BadParams | Fails

  datatype Answer<+R> = Result(id: Json, result: R) | Error(id: Json, code: int)

  /** The application: the methods it has handlers for, and what handling a message does to its state. A handler can wait,
      and then other tasks run: what they do to the state is part of `call` and `notify`. There is no wait outside them. */
  datatype Application<!S, !R> = Application(
    requests: set<string>,
    call: (S, string, Json) -> (S, Ending<R>),
    notify: (S, string, Json) -> S,
    respond: (S, Members) -> S,
    report: S -> S,
    encodable: Answer<R> -> bool)

  function Member(m: Members, key: string): Json {
    if key in m then m[key] else Null
  }

  predicate UsableId(id: Json) { id.Str? || id.Int? }

  predicate StructuredOrMissing(params: Json) { params.Null? || params.Obj? || params.Arr? }

  /** `process_single_message`: the new state, and the answer to the message if it gets one. */
  function Process<S, R>(app: Application<S, R>, s: S, e: Json): (S, Option<Answer<R>>) {
    if !e.Obj? then (app.report(s), Some(Error(Null, INVALID_REQUEST)))
    else
      var m := e.members;
      var id := Member(m, "id");
      if "id" in m && "method" !in m then (app.respond(s, m), None)
      else
        var usable := if UsableId(id) then id else Null;
        if Member(m, "jsonrpc") != Str("2.0") || !Member(m, "method").Str? || !StructuredOrMissing(Member(m, "params")) then
          (app.report(s), Some(Error(usable, INVALID_REQUEST)))
        else if "id" !in m then (app.notify(s, m["method"].s, Member(m, "params")), None)
        else if usable == Null then (app.report(s), Some(Error(Null, INVALID_REQUEST)))
        else ProcessRequest(app, s, m["method"].s, id, Member(m, "params"))
  }

  function ProcessRequest<S, R>(app: Application<S, R>, s: S, name: string, id: Json, params: Json): (S, Option<Answer<R>>) {
    if name !in app.requests then (s, Some(Error(id, METHOD_NOT_FOUND)))
    else
      var (s', ending) := app.call(s, name, params);
      (s', Some(match ending
                case Returns(r) => Result(id, r)
                case RaisesError(code) => Error(id, code)
                case BadParams => Error(id, INVALID_PARAMS)
                case Fails => Error(id, INTERNAL_ERROR)))
  }

  /** `_encode_response`: an answer that cannot be written or is too long becomes an error to the same request. */
  function Sendable<S, R>(app: Application<S, R>, a: Answer<R>): Answer<R> {
    if app.encodable(a) then a else Error(a.id, INTERNAL_ERROR)
  }

  /** What is written in answer to one message of the other side: nothing, one answer, or a list of them. */
  datatype Reply<R> = Silence | Single(answer: Answer<R>) | Batch(answers: seq<Answer<R>>)

  /** `_handle_batch` */
  method HandleBatch<S, R>(app: Application<S, R>, start: S, elements: seq<Json>) returns (s: S, reply: Reply<R>)
    ensures elements == [] ==> s == app.report(start) && reply == Single(Sendable(app, Error(Null, INVALID_REQUEST)))
    ensures elements != [] ==> s == StateAfter(app, start, elements)
    ensures elements != [] ==> reply == ReplyOf(app, start, elements)
    ensures elements != [] ==> forall i | 0 <= i < |elements| :: RepliesAt(app, start, elements, i, reply)
  {
    EachIsReplied(app, start, elements);
    if elements == [] {
      return app.report(start), Single(Sendable(app, Error(Null, INVALID_REQUEST)));
    }
    s := start;
    var responses: seq<Answer<R>> := [];
    var i := 0;
    while i < |elements|
      invariant 0 <= i <= |elements|
      invariant s == StateAfter(app, start, elements[..i])
      invariant responses == AnswersTo(app, start, elements[..i])
    {
      assert elements[..i + 1][..i] == elements[..i];
      var (s', answer) := Process(app, s, elements[i]);
      s := s';
      if answer.Some? {
        responses := responses + [answer.value];
      }
      i := i + 1;
    }
    assert elements[..|elements|] == elements;
    if responses == [] {
      return s, Silence;
    }
    var items: seq<Answer<R>> := [];
    var j := 0;
    while j < |responses|
      invariant 0 <= j <= |responses|
      invariant items == Sent(app, responses[..j])
    {
      assert responses[..j + 1][..j] == responses[..j];
      items := items + [Sendable(app, responses[j])];
      j := j + 1;
    }
    assert responses[..|responses|] == responses;
    return s, Batch(items);
  }

  /** `handle_message`; a text that is no JSON has no tree. */
  method HandleMessage<S, R>(app: Application<S, R>, start: S, text: Option<Json>) returns (s: S, reply: Reply<R>)
    ensures text.None? ==> s == app.report(start) && reply == Single(Sendable(app, Error(Null, PARSE_ERROR)))
    ensures text.Some? && !text.value.Arr? ==>
      var (after, answer) := Process(app, start, text.value);
      s == after && reply == if answer.None? then Silence else Single(Sendable(app, answer.value))
    ensures text.Some? && !text.value.Arr? ==> s == StateGiven(app, start, text.value) && RepliesTo(app, start, text.value, reply)
    ensures text.Some? && text.value.Arr? && text.value.items == [] ==>
      s == app.report(start) && reply == Single(Sendable(app, Error(Null, INVALID_REQUEST)))
    ensures text.Some? && text.value.Arr? && text.value.items != [] ==>
      s == StateAfter(app, start, text.value.items) && reply == ReplyOf(app, start, text.value.items)
    ensures text.Some? && text.value.Arr? && text.value.items != [] ==>
      forall i | 0 <= i < |text.value.items| :: RepliesAt(app, start, text.value.items, i, reply)
    ensures text.None? ==> reply.Single? && IsWritten(app, Error(Null, -32700), reply.answer)
    ensures text.Some? && text.value.Arr? && text.value.items == [] ==> reply.Single? && IsWritten(app, Refusal(), reply.answer)
  {
    if text.None? {
      return app.report(start), Single(Sendable(app, Error(Null, PARSE_ERROR)));
    }
    if text.value.Arr? {
      s, reply := HandleBatch(app, start, text.value.items);
      return;
    }
    Answered(app, start, text.value);
    StateKept(app, start, text.value);
    var (after, answer) := Process(app, start, text.value);
    s := after;
    reply := if answer.None? then Silence else Single(Sendable(app, answer.value));
  }

  // ---- The elements of a batch, each on its own ----

  function StateAfter<S, R>(app: Application<S, R>, s: S, es: seq<Json>): S {
    if es == [] then s else Process(app, StateAfter(app, s, es[..|es| - 1]), es[|es| - 1]).0
  }

  /** The answers to the elements, each processed alone in the state that the ones before it left. */
  function AnswersTo<S, R>(app: Application<S, R>, s: S, es: seq<Json>): seq<Answer<R>> {
    if es == [] then []
    else
      var front := es[..|es| - 1];
      var answer := Process(app, StateAfter(app, s, front), es[|es| - 1]).1;
      AnswersTo(app, s, front) + if answer.Some? then [answer.value] else []
  }

  function Sent<S, R>(app: Application<S, R>, answers: seq<Answer<R>>): seq<Answer<R>> {
    if answers == [] then [] else Sent(app, answers[..|answers| - 1]) + [Sendable(app, answers[|answers| - 1])]
  }

  // ---- What JSON-RPC 2.0 asks for, stated on the messages alone ----

  /** Sections 4 and 5: the id of a request or a response is a string, a number or null. */
  predicate IsId(id: Json) { id.Str? || id.Int? || id.Float? || id.Null? }

  /** Section 4: version "2.0", a string as the method, and an array or an object as the params if there are any. */
  predicate IsWellFormed(e: Json) {
    && e.Obj? && Member(e.members, "jsonrpc") == Str("2.0") && Member(e.members, "method").Str?
    && ("params" in e.members ==> e.members["params"].Arr? || e.members["params"].Obj?)
  }

  /** Section 4.1: a request object without an id. It is not answered. */
  predicate IsNotification(e: Json) { IsWellFormed(e) && "id" !in e.members }

  /** Section 4: a request object that asks for an answer. */
  predicate IsRequest(e: Json) { IsWellFormed(e) && "id" in e.members && IsId(e.members["id"]) }

  /** Section 5.1: an integer as the code and a string as the message. */
  predicate IsErrorObject(error: Json) { error.Obj? && Member(error.members, "code").Int? && Member(error.members, "message").Str? }

  /** Section 5: version "2.0", an id, no method, and either a result or an error. It is not answered. */
  predicate IsResponse(e: Json) {
    && e.Obj? && Member(e.members, "jsonrpc") == Str("2.0") && "method" !in e.members
    && "id" in e.members && IsId(e.members["id"])
    && ("result" in e.members <==> "error" !in e.members)
    && ("error" in e.members ==> IsErrorObject(e.members["error"]))
  }

  /** Section 5: the id of the answer to a message, which is null where there is none to give back. */
  function AnswerId(e: Json): Json {
    if e.Obj? && "id" in e.members && IsId(e.members["id"]) then e.members["id"] else Null
  }

  /** The answer to a request: the result or the error of its own handler, under its id. */
  function HandlersAnswer<S, R>(app: Application<S, R>, s: S, e: Json): Answer<R>
    requires IsRequest(e)
  {
    var (id, name) := (e.members["id"], e.members["method"].s);
    if name !in app.requests then Error(id, -32601)
    else
      var ending := app.call(s, name, Member(e.members, "params")).1;
      if ending.Returns? then Result(id, ending.result) else Error(id, CodeOf(ending))
  }

  function CodeOf<R>(ending: Ending<R>): int
    requires !ending.Returns?
  {
    match ending
    case RaisesError(code) => code
    case BadParams => -32602
    case Fails => -32603
  }

  /** What the standard asks for: nothing for a notification or a response, the handler's answer for a request, and
      otherwise that the message is called invalid. */
  function Asked<S, R>(app: Application<S, R>, s: S, e: Json): Option<Answer<R>> {
    if IsNotification(e) || IsResponse(e) then None
    else if IsRequest(e) then Some(HandlersAnswer(app, s, e))
    else Some(Error(AnswerId(e), -32600))
  }

  // ---- Where the peer departs from it ----

  /** The peer takes null params as missing. */
  function WithoutNullParams(e: Json): Json {
    if e.Obj? && "params" in e.members && e.members["params"].Null? then Obj(e.members - {"params"}) else e
  }

  /** It takes every object with an id and without a method as a response. */
  predicate TakenAsResponse(e: Json) { e.Obj? && "id" in e.members && "method" !in e.members }

  predicate TakenAsNotification(e: Json) { IsNotification(WithoutNullParams(e)) }

  /** The answer without an id that calls a message invalid. */
  function Refusal<R>(): Answer<R> { Error(Null, -32600) }

  /** The id that an answer really gets: that of a fractional number is lost. */
  function IdGiven(e: Json): Json { if AnswerId(e).Float? then Null else AnswerId(e) }

  /** The answer that a message gets if it gets one: its handler's if it is a request with a string or an integer as its id,
      null params aside. */
  function Given<S, R>(app: Application<S, R>, s: S, e: Json): Answer<R> {
    var stripped := WithoutNullParams(e);
    if IsRequest(stripped) && (IdGiven(e).Str? || IdGiven(e).Int?) then HandlersAnswer(app, s, stripped)
    else Error(IdGiven(e), -32600)
  }

  /** What the message does to the application: a response and a notification are handed on, and a request that its
      handler answers is called; of anything else, but an unknown method, a problem is reported. */
  function StateGiven<S, R>(app: Application<S, R>, s: S, e: Json): S {
    var stripped := WithoutNullParams(e);
    if TakenAsResponse(e) then app.respond(s, e.members)
    else if TakenAsNotification(e) then app.notify(s, e.members["method"].s, Member(e.members, "params"))
    else if IsRequest(stripped) && (IdGiven(e).Str? || IdGiven(e).Int?) then
      if e.members["method"].s in app.requests then app.call(s, e.members["method"].s, Member(e.members, "params")).0 else s
    else app.report(s)
  }

  /** The state that a handler leaves is kept. */
  lemma StateKept<S, R>(app: Application<S, R>, s: S, e: Json)
    ensures Process(app, s, e).0 == StateGiven(app, s, e)
  {
    var stripped := WithoutNullParams(e);
    if e.Obj? {
      assert Member(stripped.members, "params") == Member(e.members, "params");
      assert forall k | k != "params" :: k in stripped.members <==> k in e.members;
    }
  }

  /** In a batch, each element finds the state that the one before it left. */
  lemma StatesOfBatch<S, R>(app: Application<S, R>, s: S, es: seq<Json>, i: nat)
    requires i < |es|
    ensures StateAfter(app, s, es[..0]) == s
    ensures StateAfter(app, s, es[..i + 1]) == StateGiven(app, StateAfter(app, s, es[..i]), es[i])
  {
    assert es[..i + 1][..i] == es[..i];
    StateKept(app, StateAfter(app, s, es[..i]), es[i]);
  }

  /** How an answer is written: unchanged if it can be, and otherwise as an internal error under its id. */
  predicate IsWritten<S, R(==)>(app: Application<S, R>, answer: Answer<R>, written: Answer<R>) {
    && (app.encodable(answer) ==> written == answer)
    && (!app.encodable(answer) ==> written == Error(answer.id, -32603))
  }

  /** What the peer answers, for every message. */
  lemma Answered<S, R>(app: Application<S, R>, s: S, e: Json)
    ensures var a := Process(app, s, e).1;
      && (a.None? <==> TakenAsResponse(e) || TakenAsNotification(e))
      && (a.Some? ==> a.value.id == IdGiven(e))
      && (a.Some? ==> a.value == Given(app, s, e))
  {
    var stripped := WithoutNullParams(e);
    if e.Obj? {
      assert Member(stripped.members, "params") == Member(e.members, "params");
      assert forall k | k != "params" :: k in stripped.members <==> k in e.members;
    }
  }

  /** The messages that the peer leaves without an answer are the notifications and the responses of the standard, and two
      kinds that it should call invalid: other objects with an id and without a method, and notifications with null params. */
  lemma SilentExactlyIf<S, R>(app: Application<S, R>, s: S, e: Json)
    ensures Process(app, s, e).1.None? <==>
      || IsNotification(e) || IsResponse(e)
      || (TakenAsResponse(e) && !IsResponse(e))
      || (TakenAsNotification(e) && !IsNotification(e))
  {
    Answered(app, s, e);
  }

  /** Every kind of message that is treated otherwise than the standard asks for. */
  predicate Departs(e: Json) {
    || (TakenAsResponse(e) && !IsResponse(e))
    || (TakenAsNotification(e) && !IsNotification(e))
    || (!TakenAsResponse(e) && AnswerId(e).Float?)
    || (IsRequest(e) && e.members["id"].Null?)
    || (IsRequest(WithoutNullParams(e)) && !IsRequest(e) && UsableId(e.members["id"]))
  }

  /** The handler of the request itself calls it invalid, under the same id. */
  predicate HandlerRefuses<S, R(==)>(app: Application<S, R>, s: S, e: Json) {
    var stripped := WithoutNullParams(e);
    IsRequest(stripped) && !AnswerId(e).Float? && HandlersAnswer(app, s, stripped) == Error(AnswerId(e), INVALID_REQUEST)
  }

  /** The peer gives the answer that the standard asks for exactly if the message is of none of these kinds, or its handler
      happens to refuse it as the standard, or the peer, does. */
  lemma AnswerConformsExactlyIf<S, R>(app: Application<S, R>, s: S, e: Json)
    ensures Process(app, s, e).1 == Asked(app, s, e) <==> !Departs(e) || HandlerRefuses(app, s, e)
  {
    Answered(app, s, e);
    var stripped := WithoutNullParams(e);
    if e.Obj? {
      assert forall k | k != "params" :: Member(stripped.members, k) == Member(e.members, k);
      assert IsWellFormed(e) ==> stripped == e;
      assert AnswerId(stripped) == AnswerId(e);
    }
  }

  /** A request is answered by its handler, under its id, exactly if the id is a string or an integer; the standard allows
      two more kinds, and for them the answer is that the request is invalid, under no id. */
  lemma AnsweredByItsHandlerExactlyIf<S, R>(app: Application<S, R>, s: S, e: Json)
    requires IsRequest(e)
    ensures var (id, answer) := (e.members["id"], Process(app, s, e).1);
      && (id.Str? || id.Int? ==> answer == Some(HandlersAnswer(app, s, e)))
      && (id.Float? || id.Null? ==> answer == Some(Refusal()) && Process(app, s, e).0 == app.report(s))
      && (answer == Some(HandlersAnswer(app, s, e)) <==> id.Str? || id.Int? || HandlersAnswer(app, s, e) == Refusal())
  {
    Answered(app, s, e);
  }

  /** Two requests that the standard allows, to a method that there is. */
  lemma RequestsRefused<S, R>(app: Application<S, R>, s: S, name: string, id: Json)
    requires name in app.requests && (id == Float(1.5) || id == Null)
    ensures var e := Obj(map["jsonrpc" := Str("2.0"), "method" := Str(name), "id" := id]);
      IsRequest(e) && Process(app, s, e).1 == Some(Refusal())
  {
  }

  /** Two messages with null params that the standard does not allow: one is handled as a request, the other in silence. */
  lemma NullParamsAccepted<S, R>(app: Application<S, R>, s: S, name: string)
    requires name in app.requests && app.call(s, name, Null).1.Returns?
    ensures var e := Obj(map["jsonrpc" := Str("2.0"), "method" := Str(name), "params" := Null, "id" := Int(1)]);
      !IsRequest(e) && Process(app, s, e).1 == Some(Result(Int(1), app.call(s, name, Null).1.result))
    ensures var e := Obj(map["jsonrpc" := Str("2.0"), "method" := Str(name), "params" := Null]);
      !IsNotification(e) && Process(app, s, e) == (app.notify(s, name, Null), None)
  {
  }

  /** An object with nothing but an id is neither a request nor a response, and yet it is not answered. */
  lemma IdAloneIgnored<S, R>(app: Application<S, R>, s: S)
    ensures var e := Obj(map["jsonrpc" := Str("2.0"), "id" := Int(1)]);
      !IsRequest(e) && !IsNotification(e) && !IsResponse(e) && Process(app, s, e).1 == None
  {
  }

  /** The id for the answer, unless a message gets none. */
  function IdIfAnswered(e: Json): seq<Json> {
    if TakenAsResponse(e) || TakenAsNotification(e) then [] else [IdGiven(e)]
  }

  function IdsIfAnswered(es: seq<Json>): seq<Json> { Sequences.FlatMap(e => IdIfAnswered(e), es) }

  /** The ids in a batch reply, in order, are those of the elements that get an answer: they depend on the
      elements alone, not on the handlers, on the state, or on which answers can be encoded. */
  lemma {:induction false} BatchIds<S, R>(app: Application<S, R>, s: S, es: seq<Json>)
    ensures Ids(Sent(app, AnswersTo(app, s, es))) == IdsIfAnswered(es)
  {
    if es != [] {
      var front, last := es[..|es| - 1], es[|es| - 1];
      BatchIds(app, s, front);
      Answered(app, StateAfter(app, s, front), last);
      var answers := AnswersTo(app, s, front);
      var answer := Process(app, StateAfter(app, s, front), last).1;
      if answer.Some? {
        assert (answers + [answer.value])[..|answers|] == answers;
        var sent := Sent(app, answers);
        assert (sent + [Sendable(app, answer.value)])[..|sent|] == sent;
      } else {
        assert answers + [] == answers;
      }
    }
  }

  /** The place of the answer to element `i` in the reply to a batch. */
  function PlaceOf(es: seq<Json>, i: nat): nat
    requires i <= |es|
  {
    |IdsIfAnswered(es[..i])|
  }

  function SentTo<S, R>(app: Application<S, R>, s: S, es: seq<Json>): seq<Answer<R>> { Sent(app, AnswersTo(app, s, es)) }

  /** The reply to a single message: its answer as it is written, or none. */
  ghost predicate RepliesTo<S, R>(app: Application<S, R>, s: S, e: Json, reply: Reply<R>) {
    if TakenAsResponse(e) || TakenAsNotification(e) then reply.Silence?
    else reply.Single? && IsWritten(app, Given(app, s, e), reply.answer)
  }

  /** In the reply to a batch, element `i` has its answer at its place, as it is written. */
  ghost predicate RepliesAt<S, R>(app: Application<S, R>, s: S, es: seq<Json>, i: nat, reply: Reply<R>)
    requires i < |es|
  {
    TakenAsResponse(es[i]) || TakenAsNotification(es[i]) ||
    (reply.Batch? && |reply.answers| == PlaceOf(es, |es|) && PlaceOf(es, i) < |reply.answers| &&
     IsWritten(app, Given(app, StateAfter(app, s, es[..i]), es[i]), reply.answers[PlaceOf(es, i)]))
  }

  /** In the reply to a batch, each element that gets an answer has it at its place: a request with a string or an integer
      as its id, with null params too, that of its own handler, run in the state that the elements before it left, or an
      internal error with its id where that answer cannot be written. There is nothing else in the reply. */
  lemma BatchAnswers<S, R>(app: Application<S, R>, s: S, es: seq<Json>, i: nat)
    requires i < |es| && !TakenAsResponse(es[i]) && !TakenAsNotification(es[i])
    ensures var (sent, before) := (SentTo(app, s, es), StateAfter(app, s, es[..i]));
      && |sent| == PlaceOf(es, |es|) && PlaceOf(es, i) < |sent|
      && sent[PlaceOf(es, i)].id == IdGiven(es[i])
      && IsWritten(app, Given(app, before, es[i]), sent[PlaceOf(es, i)])
  {
    var before := StateAfter(app, s, es[..i]);
    Answered(app, before, es[i]);
    BatchAnswerAt(app, s, es, i);
    SentLength(app, s, es);
    assert es[..|es|] == es;
  }

  function ReplyOf<S, R>(app: Application<S, R>, s: S, es: seq<Json>): Reply<R> {
    var sent := SentTo(app, s, es);
    if sent == [] then Silence else Batch(sent)
  }

  lemma EachIsReplied<S, R>(app: Application<S, R>, s: S, es: seq<Json>)
    ensures forall i | 0 <= i < |es| :: RepliesAt(app, s, es, i, ReplyOf(app, s, es))
  {
    forall i | 0 <= i < |es| && !TakenAsResponse(es[i]) && !TakenAsNotification(es[i])
      ensures RepliesAt(app, s, es, i, ReplyOf(app, s, es))
    {
      BatchAnswers(app, s, es, i);
    }
  }

  lemma {:induction false} BatchAnswerAt<S, R>(app: Application<S, R>, s: S, es: seq<Json>, i: nat)
    requires i < |es| && Process(app, StateAfter(app, s, es[..i]), es[i]).1.Some?
    ensures var sent := SentTo(app, s, es);
      PlaceOf(es, i) < |sent| && sent[PlaceOf(es, i)] == Sendable(app, Process(app, StateAfter(app, s, es[..i]), es[i]).1.value)
    decreases |es|
  {
    var front, last := es[..|es| - 1], es[|es| - 1];
    SentAppends(app, s, front, last);
    assert front + [last] == es;
    assert front[..i] == es[..i];
    if i < |front| {
      BatchAnswerAt(app, s, front, i);
    } else {
      SentLength(app, s, front);
    }
  }

  /** One more element adds its own answer, if it gets one. */
  lemma SentAppends<S, R>(app: Application<S, R>, s: S, es: seq<Json>, e: Json)
    ensures var answer := Process(app, StateAfter(app, s, es), e).1;
      SentTo(app, s, es + [e]) == SentTo(app, s, es) + if answer.Some? then [Sendable(app, answer.value)] else []
  {
    assert (es + [e])[..|es|] == es;
    var answers, answer := AnswersTo(app, s, es), Process(app, StateAfter(app, s, es), e).1;
    if answer.Some? {
      assert (answers + [answer.value])[..|answers|] == answers;
    } else {
      assert answers + [] == answers;
    }
  }

  lemma SentLength<S, R>(app: Application<S, R>, s: S, es: seq<Json>)
    ensures |SentTo(app, s, es)| == |IdsIfAnswered(es)|
  {
    BatchIds(app, s, es);
    IdsLength(SentTo(app, s, es));
  }

  lemma {:induction false} IdsLength<R>(answers: seq<Answer<R>>)
    ensures |Ids(answers)| == |answers|
  {
    if answers != [] {
      IdsLength(answers[..|answers| - 1]);
    }
  }

  function Ids<R>(answers: seq<Answer<R>>): seq<Json> {
    if answers == [] then [] else Ids(answers[..|answers| - 1]) + [answers[|answers| - 1].id]
  }

  /** A batch is answered by nothing exactly if the peer takes each element as a response or a notification. */
  lemma {:induction false} BatchSilence<S, R>(app: Application<S, R>, s: S, es: seq<Json>)
    ensures ReplyOf(app, s, es).Silence? <==> forall i | 0 <= i < |es| :: TakenAsResponse(es[i]) || TakenAsNotification(es[i])
  {
    BatchIds(app, s, es);
    NoIds(es);
  }

  lemma {:induction false} NoIds(es: seq<Json>)
    ensures IdsIfAnswered(es) == [] <==> forall i | 0 <= i < |es| :: IdIfAnswered(es[i]) == []
  {
    if es != [] { NoIds(es[..|es| - 1]); }
  }
}
