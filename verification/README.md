# A verified model of the JSON-RPC remote library

This project models the parts of the JSON-RPC remote library for Robot Framework whose behaviour depends on
interleavings, recursion or real time, and proves what they promise for all inputs, all states and all runs.

Where the source updates fields or loops over changing variables, the model does so too: a class with the same fields, or
a method with the same loop. Each such method is proved equal to a function of the old state, and the theorems are about
those functions and about whole runs of their steps.

| files | what they model |
|---|---|
| `Frames`, `FrameTheorems`, `FrameEnds`, `FrameReader` | header-part framing over a byte stream: writing, reading, skipping, resynchronising, and the end of the stream |
| `Messages` | answering single messages and batches as sections 4.1, 5 and 6 of JSON-RPC 2.0 ask |
| `PeerStates`, `JsonRpcPeers` | pending requests and the life cycle of one peer |
| `TwoPeers`, `TwoPeersProgress` | two peers over first-in-first-out channels, with any interleaving of sends, tasks, cancellations and closing |
| `JsonTypes`, `Decoder` | the type-directed decoder `from_dict` with its union resolution, and the encoder; each class names its members as its fields or in camel case |
| `DecoderSoundness`, `StrictReading`, `StrictDecoding`, `RoundTrips`, `UnionOrder`, `UnionResolution`, `DecoderLimits` | what the decoder promises, and the inputs at which a promise ends |
| `CaseConversion` | camel case and snake case, and the renaming of members on the wire |
| `MarkedMethods` | which marks of a method count in a class hierarchy, and what `remote` sends |
| `Descriptors`, `Stdio` | the descriptor table while stdin and stdout become a private connection |
| `RunnerStates`, `RobotRemoteContexts` | the server's command queue: locked submits, an unlocked stop flag, the final drain |
| `LogRouting` | which log message reaches which client |
| `LibraryTokens`, `Libraries`, `LibraryTheorems`, `LibraryRelease`, `LibraryCleanUp`, `RobotServerEndpoints` | imported libraries of many clients, and their release however a client leaves |
| `Definitions`, `Reconnect`, `JsonRpcRemotes` | the client's session, outage and retry window, and how it compares library definitions |
| `Options`, `AsciiText`, `Decimal`, `Sequences` | small shared helpers |

## What holds, and where a promise has a condition

- Decoding gives back what was encoded exactly if no field is None whose plain default is something else
  (`RoundTrip`, with a counterexample in `NoneIsLost`).
- In a union the first type that takes the value decides (`FirstTypeDecides`), but for a dict type next to others: it gives way
  to a class that knows all names of the object, if one such class shares the most and can be filled (`ClassGoesBeforeDict`).
- The order of a union does not matter for a value exactly if all types that take it lead to the same result
  (`OrderIgnoredExactlyIfAgreed`), so never for classes, nor for branches that read different JSON kinds. For flat types the
  condition is one on the types: without `strict`, a float type next to an int type or Any clashes, and so does an enum next
  to another type that takes one of its values (`FlatOrderIgnoredExactlyIfNoClash`).
- A class in camel case whose fields are required and in snake case comes back exactly if no name starts with an underscore
  (`CamelClassComesBackExactlyIf`).
- An object comes out of a union of classes as a class that can be filled from it exactly if no other eligible class shares
  more keys with it, and none with equally many can be filled too (`ClassComesOutExactlyIf`). A field `foo_bar` in camel case
  and a plain field `fooBar` meet on the wire, so that neither class comes back (`NamesMeetOnTheWire`).
- Strict decoding keeps every member that is not null, if no member stands for a field of a class that the types can reach
  under another name than the field has on the wire (`StrictKeepsContent`), which is always so without camel case
  (`PlainNamesAreKept`). Exactly, it keeps the content if and only if each field of each object that it filled is intact: all
  members that stand for the field under another name are null, and if one of them fills it, so is the one with its own name
  (`StrictKeepsContentExactlyIf`). Of `fooBar` and `foo_bar` for one field, one value is dropped (`FooBarIsDropped`).
- What a peer answers is what JSON-RPC 2.0 asks for, with five exceptions (`AnswerConformsExactlyIf`). Requests with a
  fractional number as the id are refused without their id, and so are invalid messages with such an id; requests with the id
  null are refused. A message with `"params": null` is taken as if it had none, be it a request or a notification. An object
  with an id and no method counts as a response whatever else it holds, and is not answered (`IdAloneIgnored`).
- What is logged during the commands of a client is written to it in order, up to the close of its connection. The libraries
  of a lost client are finalized between the close and the clean-up of its endpoint; what they log then is lost
  (`FinalizationIsNotHeard`). Written and waiting messages are all that were handed on exactly if none was taken after the
  close or the clean-up (`WrittenIsTheFirstPart`).
- A stream that ends behind whole header lines, even one that announces content, ends without an error (`CleanExactlyIf`).
- A peer is closed exactly when its completion is resolved, unless a task that awaits the completion is cancelled before the
  close. Then the peer goes on with a cancelled completion, and `stop()` is cancelled at its end
  (`ClosedMeansResolvedExactlyIf`).
- A snake-case name comes back from camel case exactly if it does not start with an underscore (`SnakeRoundTrip`).
- Only the private duplicates refer to the original stdin and stdout afterwards exactly if no descriptor but 0 and 1 did
  before. If stderr shares a file with them, as on a terminal, then descriptor 1 refers to it again
  (`OnlyPrivateExactlyIf`). The null device that takes the place of a closed stderr is not inherited by child processes,
  because it is opened on descriptor 2 itself.
- The text about changed library definitions is empty exactly for equal definitions. With a keyword name given twice it
  can speak of a changed order where a keyword was replaced (`ReorderedWithoutReordering`).
- An interval and a window allow at most one attempt more than the window divided by the interval, rounded up; failures that
  take no time reach that number (`BoundIsReached`).

## What the model takes for granted

- Between two awaits, a task of an event loop is not interrupted; callbacks scheduled from another thread run in the order
  in which they were scheduled. Handlers that wait for the runner therefore go on in the order of its commands.
- `asyncio.StreamReader` keeps its documented contract for `readuntil`, `readexactly` and `read`; the line limit of the
  reader is a parameter. How many bytes have arrived at any time is left open.
- Text codecs are a parameter. A JSON text stands for its tree, and the text that is written for a tree is read as that tree.
- A caller does not cancel the future of its command while the runner's loop goes on, and commands raise nothing but
  `Exception`. `stop()` of a peer is called from outside its own handlers, and `start()` once.
- Endpoint ids, which are random, are distinct.
- A handler can wait, and then other tasks change what they like: that is part of what a handler does to the state. Between
  two elements of a batch there is no wait outside their handlers.
- Values of enums and literals are strings. Equality of the attributes of library definitions is equality of values.

## Model

| member | source | states |
|---|---|---|
| FrameTheorems.ReadHeaderPart | packages/jsonrpcpeer/src/jsonrpcpeer/peer.py:459-487 | a header part is read to its end whatever its lines are; every line within the limit takes effect in order, and a longer one is dropped |
| FrameTheorems.ReadAnyMessage | packages/jsonrpcpeer/src/jsonrpcpeer/peer.py:502-530 | a message whose header part gives the length of its body is one event, and reading goes on right behind the body |
| FrameTheorems.CharsetOfMediaType | packages/jsonrpcpeer/src/jsonrpcpeer/peer.py:82-87 | the charset of a content type is found behind any media type |
| FrameTheorems.FieldCounts | packages/jsonrpcpeer/src/jsonrpcpeer/peer.py:472-487 | a header field is known by its name in any case and with space around it, the last one of a name counts, and other fields change nothing |
| FrameTheorems.ParameterCounts | packages/jsonrpcpeer/src/jsonrpcpeer/peer.py:82-87 | the first `charset` parameter of a content type decides, in any case and with or without quotes; an empty one counts as none, and other parameters are passed over |
| FrameTheorems.LengthExactlyIf | packages/jsonrpcpeer/src/jsonrpcpeer/peer.py:22-23 | the numeral of a number is a valid length exactly if the number is below 10 to the 18 |
| FrameTheorems.BadHeaderIsDropped | packages/jsonrpcpeer/src/jsonrpcpeer/peer.py:504-511 | a header part without a valid length is dropped alone, with no answer, and reading goes on right behind it |
| FrameTheorems.NumeralLine | packages/jsonrpcpeer/src/jsonrpcpeer/peer.py:22-23 | a length below 10 to the 18 is written as a line that fits, passes the check of the digits and is read as the same number |
| FrameTheorems.WrittenHeader | packages/jsonrpcpeer/src/jsonrpcpeer/peer.py:341-343 | the header that is written is read as exactly the length and the charset of the frame |
| FrameTheorems.ReadFrame | packages/jsonrpcpeer/src/jsonrpcpeer/peer.py:502-530 | a written frame takes exactly its own bytes, whether it is accepted, over the size limit or undecodable, and everything behind it is read as if it had not been there |
| FrameTheorems.ReadFrames | packages/jsonrpcpeer/src/jsonrpcpeer/peer.py:439-457 | a stream of frames gives their events in order, and then what any other bytes behind them give |
| FrameTheorems.FramesRoundTrip | packages/jsonrpcpeer/src/jsonrpcpeer/peer.py:341-343 | written frames come back with their bodies and charsets, in order, and the stream ends without an error |
| FrameTheorems.Resynchronises | packages/jsonrpcpeer/src/jsonrpcpeer/peer.py:515-528 | a frame over the size limit or not decodable costs one answer without an id and leaves the frames before and after it as they would be without it |
| FrameTheorems.AnswersOfStream | packages/jsonrpcpeer/src/jsonrpcpeer/peer.py:515-528 | reading a stream of frames starts exactly one answer for each frame over the size limit or not decodable, with the code for that, in the order of the frames, and none for the others |
| FrameReader.ReadHeaderLine | packages/jsonrpcpeer/src/jsonrpcpeer/peer.py:459-470 | however the bytes arrive, the loop takes exactly one line off the stream, and gives it unless it is longer than the limit |
| FrameReader.ReadHeaderPart | packages/jsonrpcpeer/src/jsonrpcpeer/peer.py:472-487 | the loop takes exactly the header part that the whole stream starts with; the last field of a name counts |
| FrameReader.SkipContent | packages/jsonrpcpeer/src/jsonrpcpeer/peer.py:494-500 | the loop drops exactly the announced bytes, or all that are left |
| FrameReader.ReadOneMessage | packages/jsonrpcpeer/src/jsonrpcpeer/peer.py:502-530 | one turn finds the event that the bytes of the stream determine and leaves exactly the bytes behind it |
| FrameReader.ReadLoop | packages/jsonrpcpeer/src/jsonrpcpeer/peer.py:439-457 | the loop terminates with exactly the events of the stream, and ends with an error unless the read that met the end had read nothing |
| FrameEnds.CleanExactlyIf | packages/jsonrpcpeer/src/jsonrpcpeer/peer.py:439-457 | the end of a stream counts as clean exactly if nothing is left behind its last message, or whole header lines with the blank one or without it |
| FrameEnds.CutBehindTheLength | packages/jsonrpcpeer/src/jsonrpcpeer/peer.py:444-449 | a stream that is cut behind the line that announces content ends without an error |
| FrameEnds.CutWithinContent | packages/jsonrpcpeer/src/jsonrpcpeer/peer.py:515-522 | a message over the size limit is answered even if the stream ends within it, and that end is clean; within any other content the end is an error, unless none of the content has come |
| Messages.HandleBatch | packages/jsonrpcpeer/src/jsonrpcpeer/peer.py:580-594 | each element is processed alone in its turn, and each that gets an answer has it at its place in the reply: unchanged if it can be written, and otherwise as an internal error under its id; an empty batch gets one error without an id |
| Messages.BatchAnswers | packages/jsonrpcpeer/src/jsonrpcpeer/peer.py:580-594 | each element that gets an answer has it at its place in the reply: a request with a string or an integer as its id, null params aside, that of its own handler, run in the state that the elements before it left, any other that it is invalid; unchanged if the answer can be written, and otherwise as error -32603 with the id; there is nothing else in the reply |
| Messages.HandleMessage | packages/jsonrpcpeer/src/jsonrpcpeer/peer.py:564-578 | a text that is no JSON is answered with a parse error without an id, a list is a batch, anything else is one message whose answer, if it gets one, is written unchanged if it can be, and as error -32603 under its id otherwise; the state is the one that the handler left |
| Messages.AnswerConformsExactlyIf | packages/jsonrpcpeer/src/jsonrpcpeer/peer.py:602-633 | every message gets the answer that sections 4 and 5 of JSON-RPC 2.0 ask for exactly if it is of none of five kinds: an object with an id and without a method that is no response, a notification with null params, a message with a fractional number as its id, a request with the id null, and a request with null params; or the handler itself calls such a request invalid |
| Messages.AnsweredByItsHandlerExactlyIf | packages/jsonrpcpeer/src/jsonrpcpeer/peer.py:602-633 | a request that the standard allows gets the result or the error of its own handler, or method not found, under its id exactly if that is a string or an integer, or the handler refuses it alike; otherwise it is refused without an id and no handler runs |
| Messages.Answered | packages/jsonrpcpeer/src/jsonrpcpeer/peer.py:602-633 | for every message whatever: whether there is an answer, under which id, and which one; it does not depend on the state unless a handler runs |
| Messages.StateKept | packages/jsonrpcpeer/src/jsonrpcpeer/peer.py:602-633 | what a message does to the application: a response, a notification and a call leave the state that their handlers give, an unknown method changes nothing, and anything else is reported |
| Messages.StatesOfBatch | packages/jsonrpcpeer/src/jsonrpcpeer/peer.py:580-594 | in a batch each element finds the state that the one before it left |
| Messages.SilentExactlyIf | packages/jsonrpcpeer/src/jsonrpcpeer/peer.py:607-624 | nothing is answered exactly to the notifications and responses of the standard, to other objects with an id and without a method, and to notifications with null params |
| Messages.NullParamsAccepted | packages/jsonrpcpeer/src/jsonrpcpeer/peer.py:622-627 | a message with null params, which the standard does not allow, is answered by its handler, and without an id it is taken in silence |
| Messages.IdAloneIgnored | packages/jsonrpcpeer/src/jsonrpcpeer/peer.py:607-610 | an object with nothing but version and id is neither a request nor a response and gets no answer |
| Messages.RequestsRefused | packages/jsonrpcpeer/src/jsonrpcpeer/peer.py:631-632 | a request with the id 1.5 and one with the id null are refused |
| Messages.BatchIds | packages/jsonrpcpeer/src/jsonrpcpeer/peer.py:580-594 | the ids of a batch reply, in order, are those of the elements that get an answer, whatever the handlers do and whichever answers can be encoded |
| Messages.BatchSilence | packages/jsonrpcpeer/src/jsonrpcpeer/peer.py:590-594 | there is no reply to a batch exactly if each element is an object with an id and without a method, or a notification, null params aside |
| PeerStates.StepKeepsValid | packages/jsonrpcpeer/src/jsonrpcpeer/peer.py:393-457 | every step keeps the table of pending requests consistent with the futures, and takes no outcome, closing or completion back |
| PeerStates.RunsStayValid | packages/jsonrpcpeer/src/jsonrpcpeer/peer.py:532-562 | in every reachable state a closed peer has no pending and no waiting request, its completion is resolved, once, and before the close nothing but a cancelled awaiting task resolves it |
| PeerStates.ClosedMeansResolvedExactlyIf | packages/jsonrpcpeer/src/jsonrpcpeer/peer.py:276-278 | throughout a run, closed and resolved are the same exactly if no task that awaits the completion is cancelled before the close |
| PeerStates.AbandonedPeerGoesOn | packages/jsonrpcpeer/src/jsonrpcpeer/peer.py:276-278 | after the cancellation of the task that runs it, a peer has its completion cancelled, reads on, sends requests and resolves them |
| PeerStates.RunsExtend | packages/jsonrpcpeer/src/jsonrpcpeer/peer.py:532-562 | being closed, the outcome of a request and the completion are final over every continuation of a run |
| PeerStates.ClosingFailsTheWaiting | packages/jsonrpcpeer/src/jsonrpcpeer/peer.py:553-562 | closing fails exactly the requests that still wait |
| PeerStates.ResponseResolvesItsRequest | packages/jsonrpcpeer/src/jsonrpcpeer/peer.py:635-666 | a response ends the waiting request whose id it names and changes no other: with its error if it tells one, otherwise with its result, or as malformed |
| PeerStates.OutcomeSaysWhatTheResponseSays | packages/jsonrpcpeer/src/jsonrpcpeer/peer.py:134-142 | a response is malformed exactly if its version is another one, or it has neither a result nor an error that is not null; an error fails the request with its code, and only without one the result resolves it |
| PeerStates.StandardResponseIsTaken | packages/jsonrpcpeer/src/jsonrpcpeer/peer.py:635-666 | no response that JSON-RPC 2.0 allows is malformed, and its result or the code of its error is what the request ends with |
| PeerStates.WaitingEndsWith | packages/jsonrpcpeer/src/jsonrpcpeer/peer.py:393-437 | in every run a request that waits goes on waiting until its caller gives up or goes on, a response names it, or the peer closes, and the first of these decides its outcome |
| PeerStates.CompletionTellsTheEnd | packages/jsonrpcpeer/src/jsonrpcpeer/peer.py:439-457 | the completion has failed exactly if an error ended the read loop, unless a cancelled awaiting task decided it, and that stays so |
| PeerStates.CancelEndsTheTask | packages/jsonrpcpeer/src/jsonrpcpeer/peer.py:253-267 | cancelling the read task ends it, with the cleanup exactly if it reads, and the last part of `stop()` closes the peer from whatever state that leaves |
| PeerStates.LifeEnds | packages/jsonrpcpeer/src/jsonrpcpeer/peer.py:439-457 | a peer that is started and comes to the end of its connection is closed, and its read task is over |
| JsonRpcPeers.JsonRpcPeer.SendRequest | packages/jsonrpcpeer/src/jsonrpcpeer/peer.py:393-415 | a request gets a number that no pending one has; a closed peer refuses it |
| JsonRpcPeers.JsonRpcPeer.GiveUp | packages/jsonrpcpeer/src/jsonrpcpeer/peer.py:427-430 | a timeout or a cancelled caller ends the future and leaves the entry until the caller goes on |
| JsonRpcPeers.JsonRpcPeer.Leave | packages/jsonrpcpeer/src/jsonrpcpeer/peer.py:436-437 | a caller that goes on takes its own entry out of the table |
| JsonRpcPeers.JsonRpcPeer.HandleResponse | packages/jsonrpcpeer/src/jsonrpcpeer/peer.py:635-666 | the request that the response names ends with its error or its result if it waits, or as malformed, and every other future stays as it is; malformed, late and unknown responses included |
| JsonRpcPeers.JsonRpcPeer.MarkClosed | packages/jsonrpcpeer/src/jsonrpcpeer/peer.py:553-562 | the loop fails every pending future that waits, in any order, and empties the table |
| JsonRpcPeers.JsonRpcPeer.Finish | packages/jsonrpcpeer/src/jsonrpcpeer/peer.py:532-540 | the peer is closed and its completion resolved, once |
| JsonRpcPeers.JsonRpcPeer.EndLoop | packages/jsonrpcpeer/src/jsonrpcpeer/peer.py:439-457 | the peer is closed, and an open completion has failed exactly if an error ended the loop |
| JsonRpcPeers.JsonRpcPeer.Stop | packages/jsonrpcpeer/src/jsonrpcpeer/peer.py:253-267 | from every point of the life cycle and with any steps of others in between, the peer ends closed, with no waiting request and its completion resolved once; it returns, raises the error of the connection, or is cancelled with a cancelled completion |
| TwoPeers.RunsKeepInv | packages/jsonrpcpeer/src/jsonrpcpeer/peer.py:489-492 | every interleaving of the two sides keeps the invariant about calls, answers and runs of handlers |
| TwoPeers.AnswersComeFromTheirRun | packages/jsonrpcpeer/src/jsonrpcpeer/peer.py:393-437 | a request that has got an answer succeeded with the result, or failed with the error, that the run of a handler gave for that very call, although both sides number from "1" |
| TwoPeers.OneStageAtATime | packages/jsonrpcpeer/src/jsonrpcpeer/peer.py:602-666 | a request is underway once, in one direction, and not at all once it is answered |
| TwoPeers.OutcomesAreFinal | packages/jsonrpcpeer/src/jsonrpcpeer/peer.py:635-666 | what a request ended with and what a run answered is never replaced in any continuation |
| TwoPeers.RunIsNew | packages/jsonrpcpeer/src/jsonrpcpeer/peer.py:686-691 | no call is handled to its end twice |
| TwoPeers.AnswerTellsItself | packages/jsonrpcpeer/src/jsonrpcpeer/peer.py:602-666 | the message made of a handler's answer is a response to its request, and hands the result or the error over unchanged |
| TwoPeers.CallIsSent | packages/jsonrpcpeer/src/jsonrpcpeer/peer.py:393-426 | a call is sent with its method, params and a new id, waits, and is under way |
| TwoPeersProgress.CanStillBeAnswered | packages/jsonrpcpeer/src/jsonrpcpeer/peer.py:489-492 | in every reachable state, a waiting request whose call the other side still has to answer can be answered with whatever its handler gives |
| TwoPeersProgress.CloseEndsTheWait | packages/jsonrpcpeer/src/jsonrpcpeer/peer.py:553-562 | after the close of a side none of its requests waits |
| JsonTypes.EncodeRaw | packages/jsonrpcpeer/src/jsonrpcpeer/json_helpers.py:156-163 | writing an unconverted value gives the tree it came from |
| JsonTypes.RawEncode | packages/jsonrpcpeer/src/jsonrpcpeer/json_helpers.py:447-453 | without types, reading gives the written value back |
| Decoder.FromDict | packages/jsonrpcpeer/src/jsonrpcpeer/json_helpers.py:430-568 | the loops compute the recursive decoder, which terminates for recursive classes and nested unions; what that decoder gives for a union is in the three theorems of UnionResolution |
| Decoder.MatchingClasses | packages/jsonrpcpeer/src/jsonrpcpeer/json_helpers.py:481-528 | the loop keeps exactly the eligible classes with the most shared keys, counted on the names that each class reads, in their order |
| Decoder.CreateMatching | packages/jsonrpcpeer/src/jsonrpcpeer/json_helpers.py:530-536 | the loop gives the objects of the classes that can be filled, in their order |
| UnionResolution.FirstTypeDecides | packages/jsonrpcpeer/src/jsonrpcpeer/json_helpers.py:456-478 | the first type that takes the value gives the result, unless it is a dict type next to others |
| UnionResolution.ClassGoesBeforeDict | packages/jsonrpcpeer/src/jsonrpcpeer/json_helpers.py:480-545 | a dict type next to others that takes an object gives way to a class exactly if that class can be filled, knows all names, no other class that knows them shares more fields, and none with equally many can be filled; if there is no such class the dict comes out |
| UnionResolution.ClassComesLast | packages/jsonrpcpeer/src/jsonrpcpeer/json_helpers.py:480-548 | where no type takes the value, a class comes out exactly under the same condition, with names it does not know unless strict; otherwise there is a TypeError |
| UnionResolution.FilledExactlyIfCreated | packages/jsonrpcpeer/src/jsonrpcpeer/json_helpers.py:407-415 | a class is filled exactly with each field's own value, decoded from its last member, or its default, and not at all if a required field has no member |
| UnionResolution.MoreFieldsAreAhead | packages/jsonrpcpeer/src/jsonrpcpeer/json_helpers.py:515-528 | a class that has members for all fields that another one has, and for one more, is ahead of it |
| DecoderLimits.ClassInsteadOfDict | packages/jsonrpcpeer/src/jsonrpcpeer/json_helpers.py:538-545 | an object with the one name that a class requires comes out as the class and not as the dict type before it |
| DecoderSoundness.DecodeSound | packages/jsonrpcpeer/src/jsonrpcpeer/json_helpers.py:430-568 | whatever is returned inhabits one of the types, at every depth |
| DecoderSoundness.HandleSound | packages/jsonrpcpeer/src/jsonrpcpeer/json_helpers.py:251-348 | whatever a handler accepts inhabits its type |
| DecoderSoundness.CreateSound | packages/jsonrpcpeer/src/jsonrpcpeer/json_helpers.py:407-415 | a filled class has all its fields, each of its type or with its default |
| StrictDecoding.StrictKeepsContent | packages/jsonrpcpeer/src/jsonrpcpeer/json_helpers.py:430-568 | encoding the result of strict decoding gives the input back, up to null members, if no member stands for a field of a class that the types can reach without having the name of that field on the wire |
| StrictDecoding.PlainNamesAreKept | packages/jsonrpcpeer/src/jsonrpcpeer/json_helpers.py:501-501 | that is always so where none of these classes changes the case of its names |
| StrictReading.StrictResultCame | packages/jsonrpcpeer/src/jsonrpcpeer/json_helpers.py:430-568 | whatever strict decoding returns was read from its input without a conversion, and every object in it is a dict or a class that the types can reach, which has a field for each member |
| StrictDecoding.StrictKeepsContentExactlyIf | packages/jsonrpcpeer/src/jsonrpcpeer/json_helpers.py:501-501 | with field names that come back, the content is kept if and only if every field of every object filled on the way is intact: members that stand for it under another name are null, and where one of those fills it, so is the one with its own name |
| StrictDecoding.ClassKeepsContentExactlyIf | packages/jsonrpcpeer/src/jsonrpcpeer/json_helpers.py:501-501 | for a class and an object without null members, whose members keep their names in turn, the content is kept if and only if each member has the own name of the field that it stands for |
| DecoderLimits.OneOfTwoIsDropped | packages/jsonrpcpeer/src/jsonrpcpeer/json_helpers.py:501-501 | otherwise strict decoding can drop a value: of two members that stand for one field, one is lost |
| DecoderLimits.FooBarIsDropped | packages/jsonrpcpeer/src/jsonrpcpeer/json_helpers.py:501-501 | so does an object with the members `fooBar` and `foo_bar` for a class with a field `foo_bar` |
| RoundTrips.FieldsComeBack | packages/jsonrpcpeer/src/jsonrpcpeer/json_helpers.py:133-147 | what is written for a class is read for the same fields, each from the member it was written as, in camel case too |
| RoundTrips.FieldNameComesBack | packages/jsonrpcpeer/src/jsonrpcpeer/json_helpers.py:73-80 | a field name that does not start with an underscore has a name on the wire that stands for it again |
| RoundTrips.DecodeInvertsEncode | packages/jsonrpcpeer/src/jsonrpcpeer/json_helpers.py:133-163 | decoding what a value of an unambiguous type was written as gives that value, except that a left-out None comes back as the default of its field; for classes in camel case, plain ones and unions of both |
| RoundTrips.RoundTrip | packages/jsonrpcpeer/src/jsonrpcpeer/json_helpers.py:133-163 | it gives exactly that value if and only if no field is None whose plain default is something else |
| DecoderLimits.NoneIsLost | packages/jsonrpcpeer/src/jsonrpcpeer/json_helpers.py:145-145 | a field that may be None and defaults to a number loses its None |
| DecoderLimits.NameIsLost | packages/jsonrpcpeer/src/jsonrpcpeer/json_helpers.py:87-95 | a class with one field comes back exactly if the name of the field does; otherwise decoding fails |
| DecoderLimits.CamelClassComesBackExactlyIf | packages/jsonrpcpeer/src/jsonrpcpeer/json_helpers.py:61-95 | a class in camel case with required fields in snake case comes back exactly if no name of a field starts with an underscore; otherwise decoding fails |
| DecoderLimits.LeadingUnderscore | packages/jsonrpcpeer/src/jsonrpcpeer/json_helpers.py:61-70 | of the snake-case names, exactly those with a leading underscore do not come back from camel case |
| DecoderLimits.NamesMeetOnTheWire | packages/jsonrpcpeer/src/jsonrpcpeer/json_helpers.py:480-545 | a class in camel case and a plain one whose fields have one name on the wire are ambiguous: neither comes back |
| RoundTrips.OtherKindDoesNotFit | packages/jsonrpcpeer/src/jsonrpcpeer/json_helpers.py:251-348 | no handler takes a JSON kind that its type does not read, through nested unions too |
| RoundTrips.OnlyClass | packages/jsonrpcpeer/src/jsonrpcpeer/json_helpers.py:480-528 | of the classes of an unambiguous union, the one that was written is the only candidate |
| UnionOrder.BestClassesShareMost | packages/jsonrpcpeer/src/jsonrpcpeer/json_helpers.py:515-528 | a class is a candidate exactly if it is eligible and no eligible class shares more keys, each class reading the keys as its own fields |
| UnionOrder.ClassComesOutExactlyIf | packages/jsonrpcpeer/src/jsonrpcpeer/json_helpers.py:480-545 | from a union of classes, an object comes out as a class that can be filled from it exactly if no other eligible class shares more keys with it and none with equally many can be filled |
| UnionOrder.WrittenClassComesBackExactlyIf | packages/jsonrpcpeer/src/jsonrpcpeer/json_helpers.py:480-545 | what was written for a class comes back from any union of classes, which need not be apart, exactly under that condition |
| UnionOrder.OrderIgnoredExactlyIfAgreed | packages/jsonrpcpeer/src/jsonrpcpeer/json_helpers.py:446-548 | a value is decoded alike under every permutation of the types if and only if all types that take it lead to the same result, which for a dict type is that of the second pass |
| UnionOrder.FlatOrderIgnoredExactlyIfNoClash | packages/jsonrpcpeer/src/jsonrpcpeer/json_helpers.py:255-296 | a union of flat types ignores its order for all values if and only if no two types clash: a float next to an int or Any unless strict, or an enum next to another type that takes one of its values |
| UnionOrder.UnionOfClassesIgnoresOrder | packages/jsonrpcpeer/src/jsonrpcpeer/json_helpers.py:480-545 | a union of classes, next to at most one other type, ignores the order of its types |
| UnionOrder.UnambiguousUnionIgnoresOrder | packages/jsonrpcpeer/src/jsonrpcpeer/json_helpers.py:446-548 | so does every unambiguous union |
| DecoderLimits.FloatBeforeInt | packages/jsonrpcpeer/src/jsonrpcpeer/json_helpers.py:275-288 | without strict, a float type before an int type takes an integer, and in strict mode it does not |
| CaseConversion.SnakeRoundTrip | packages/jsonrpcpeer/src/jsonrpcpeer/json_helpers.py:46-70 | a snake-case name comes back from camel case if and only if it does not start with an underscore |
| CaseConversion.CamelRoundTrip | packages/jsonrpcpeer/src/jsonrpcpeer/json_helpers.py:46-70 | a camel-case name comes back from snake case if and only if it does not start with a capital |
| CaseConversion.ToCamelInjective | packages/jsonrpcpeer/src/jsonrpcpeer/json_helpers.py:65-70 | two field names never meet in camel case |
| CaseConversion.ToSnakeInjective | packages/jsonrpcpeer/src/jsonrpcpeer/json_helpers.py:53-58 | two camel-case names never meet in snake case |
| CaseConversion.FieldNamesRoundTrip | packages/jsonrpcpeer/src/jsonrpcpeer/json_helpers.py:73-80 | renaming the members of an object on the way out and back gives the object, with as many members on the wire |
| MarkedMethods.MarkedClasses | packages/jsonrpcpeer/src/jsonrpcpeer/peer.py:764-783 | the loop keeps a marked class unless one that it kept is below it |
| MarkedMethods.CountingIsMinimal | packages/jsonrpcpeer/src/jsonrpcpeer/peer.py:764-783 | what it keeps is the list of the minimal marked classes, in resolution order |
| MarkedMethods.CountingIsAntichain | packages/jsonrpcpeer/src/jsonrpcpeer/peer.py:764-783 | a class counts exactly if it is minimal, and no two that count are related |
| MarkedMethods.OverriddenMarkKept | packages/jsonrpcpeer/src/jsonrpcpeer/peer.py:781-783 | in an order that lists a class after one above it, an overridden mark would count |
| MarkedMethods.RemoteMembers | packages/jsonrpcpeer/src/jsonrpcpeer/peer.py:816-820 | the loop keeps the first mark of every name |
| MarkedMethods.RemoteSendsTheNearest | packages/jsonrpcpeer/src/jsonrpcpeer/peer.py:813-821 | under a name, `remote` sends what the nearest marked class says, and nothing for a name without a mark |
| Descriptors.LowestFree | packages/jsonrpcpeer/src/jsonrpcpeer/stdio.py:55-67 | the number that the next file of the process gets: free, with all lower ones in use |
| Stdio.Process.CheckStdin | packages/jsonrpcpeer/src/jsonrpcpeer/stdio.py:12-41 | accepts exactly a stdin that was there at the start, is open, has a fitting type and can be watched; the table is as before, although the selector may take a descriptor meanwhile |
| Stdio.Process.CheckStdout | packages/jsonrpcpeer/src/jsonrpcpeer/stdio.py:44-52 | accepts exactly a stdout that was there at the start and is open |
| Stdio.Process.OccupyClosedStderr | packages/jsonrpcpeer/src/jsonrpcpeer/stdio.py:55-67 | a closed descriptor 2 becomes the null device and nothing else changes; it is inheritable only if 0 or 1 was free too |
| Stdio.Process.MoveStandardStreams | packages/jsonrpcpeer/src/jsonrpcpeer/stdio.py:70-81 | stdin becomes the null device, stdout becomes stderr or the null device, and no descriptor is left over |
| Stdio.Process.OpenStdioConnection | packages/jsonrpcpeer/src/jsonrpcpeer/stdio.py:119-139 | succeeds exactly if both checks pass; the whole table is then as described, with two new private descriptors; a refusal leaves it as it was |
| Descriptors.OnlyPrivateExactlyIf | packages/jsonrpcpeer/src/jsonrpcpeer/stdio.py:119-139 | afterwards only the two private descriptors refer to the original stdin or stdout, if and only if before only 0 and 1 did |
| Descriptors.ChildrenInheritExactlyIf | packages/jsonrpcpeer/src/jsonrpcpeer/stdio.py:119-139 | a child process inherits the connection if and only if it came through another inheritable descriptor, or stderr shares its file |
| RunnerStates.RunsStayValid | packages/server/src/robot_jsonrpcremote_server/_runner.py:288-334 | in every interleaving the accepted commands are, in order, those run, those failed by the drain, those still to be failed and those queued, and their futures agree |
| RunnerStates.ExactlyOnce | packages/server/src/robot_jsonrpcremote_server/_runner.py:288-334 | commands run in submit order and once; when the loop is over each accepted one was either run and is done, or failed once by the drain |
| RunnerStates.OutcomeIsThatOfTheRun | packages/server/src/robot_jsonrpcremote_server/_runner.py:301-310 | over every run, the future of a command has failed exactly if the command raised, and that stays so |
| RunnerStates.GoesOnUntilStopped | packages/server/src/robot_jsonrpcremote_server/_runner.py:288-334 | until `stop()` is called or something else ends the loop, every command is accepted and the loop goes on; a check of the flag then ends it |
| RunnerStates.NothingAfterClosing | packages/server/src/robot_jsonrpcremote_server/_runner.py:313-334 | after closing, no command is accepted or starts, and the queue is empty forever |
| RunnerStates.StepExtends | packages/server/src/robot_jsonrpcremote_server/_runner.py:328-334 | once submits are rejected they always are, and no outcome changes |
| RobotRemoteContexts.RobotRemoteContext.Submit | packages/server/src/robot_jsonrpcremote_server/_runner.py:328-334 | rejects exactly when closed or stopped, otherwise queues the command with a new future |
| RobotRemoteContexts.RobotRemoteContext.Stop | packages/server/src/robot_jsonrpcremote_server/_runner.py:386-389 | sets the flag and nothing else, at any point of the loop |
| RobotRemoteContexts.RobotRemoteContext.Take | packages/server/src/robot_jsonrpcremote_server/_runner.py:295-298 | the first command of the queue starts |
| RobotRemoteContexts.RobotRemoteContext.SetOutcome | packages/server/src/robot_jsonrpcremote_server/_runner.py:301-310 | the future of the running command fails if the command raised and has its result otherwise, and no other future changes |
| RobotRemoteContexts.RobotRemoteContext.HookLoop | packages/server/src/robot_jsonrpcremote_server/_runner.py:288-311 | with submits and stops of other threads at any point, it ends closed, with an empty queue, and every future done |
| RobotRemoteContexts.RobotRemoteContext.Drain | packages/server/src/robot_jsonrpcremote_server/_runner.py:313-322 | the locked part closes and takes exactly the queued commands |
| RobotRemoteContexts.RobotRemoteContext.FailOne | packages/server/src/robot_jsonrpcremote_server/_runner.py:323-326 | a drained future fails unless it is done |
| RobotRemoteContexts.RobotRemoteContext.Close | packages/server/src/robot_jsonrpcremote_server/_runner.py:313-326 | the drain ends with an empty queue and accepts nothing meanwhile |
| LogRouting.Router.LogMessage | packages/server/src/robot_jsonrpcremote_server/_runner.py:336-345 | the new fields and what is sent are those of the step for a logged message |
| LogRouting.Router.EndpointLogMessage | packages/server/src/robot_jsonrpcremote_server/_endpoint.py:139-151 | an endpoint hands a message on to the event loop unless it is cleaned up or the message reports a failure |
| LogRouting.Router.EndpointLog | packages/server/src/robot_jsonrpcremote_server/_endpoint.py:153-159 | the message that was scheduled first is written, or dropped if the connection is closed or the endpoint cleaned up |
| LogRouting.FieldsMean | packages/server/src/robot_jsonrpcremote_server/_runner.py:299-310 | the active subscriber is the client whose command runs, and the flag says that the last message of it reported a failure |
| LogRouting.HandedIsExactlyItsOwn | packages/server/src/robot_jsonrpcremote_server/_runner.py:336-345 | over every run, what an endpoint hands on is exactly, in order, what was logged during its own commands while it was registered, without failure reports and the debug message right behind one; and no message reaches two clients |
| LogRouting.WrittenIsTheFirstPart | packages/server/src/robot_jsonrpcremote_server/_endpoint.py:133-159 | a client gets the first part of that, and nothing more after the close of its connection or the clean-up; with what still waits it is all of it exactly if no waiting message was taken after one of them, so always before both |
| LogRouting.EverythingIsWritten | packages/server/src/robot_jsonrpcremote_server/_endpoint.py:139-159 | with as many turns of the event loop as messages wait, a client that is there has got all messages of its own commands |
| LogRouting.FinalizationIsNotHeard | packages/jsonrpcpeer/src/jsonrpcpeer/peer.py:380-382 | what the finalization of the libraries of a lost client logs is handed on and, taken before the clean-up, still lost |
| LibraryTokens.TokensNeverCollide | packages/server/src/robot_jsonrpcremote_server/_endpoint.py:203-203 | equal tokens have the same endpoint id, count and library name, whatever the names contain |
| LibraryTheorems.RunsTrack | packages/server/src/robot_jsonrpcremote_server/_endpoint.py:182-217 | in every interleaving each token is known to its own endpoint alone, its import is on its way at most once, and while the store holds it that endpoint will finalize it |
| LibraryTheorems.NothingLeaks | packages/server/src/robot_jsonrpcremote_server/_endpoint.py:268-278 | when the commands, the handlers and the clean-up of a client that has gone are over, whatever other clients have under way, the store holds no library of it, and each one that was imported was torn down once |
| LibraryTheorems.TornDownAtMostOnce | packages/server/src/robot_jsonrpcremote_server/_runner.py:220-236 | at no time is a library torn down twice or while it is held, and the store holds only tokens that were given out |
| LibraryTheorems.KeptWhileConnected | packages/server/src/robot_jsonrpcremote_server/_endpoint.py:239-278 | while its client is there and nobody names its token, an imported library stays, whichever other clients go |
| LibraryTheorems.RanExactlyIf | packages/server/src/robot_jsonrpcremote_server/_runner.py:117-119 | a library counts as imported exactly if the runner has run its import with success |
| LibraryCleanUp.WorkShrinks | packages/server/src/robot_jsonrpcremote_server/_endpoint.py:268-278 | every step of the runner, of a resumed handler and of the clean-up leaves less to do |
| LibraryCleanUp.CleanUpEnds | packages/server/src/robot_jsonrpcremote_server/_endpoint.py:268-278 | from every reachable state with the client gone, those steps alone lead to the end, and the endpoint's list is empty there |
| RobotServerEndpoints.RobotServerEndpoint.BeginImport | packages/server/src/robot_jsonrpcremote_server/_endpoint.py:203-207 | a new token is given out and its import queued |
| RobotServerEndpoints.RobotServerEndpoint.EndImport | packages/server/src/robot_jsonrpcremote_server/_endpoint.py:208-217 | the token is listed, or finalized at once if the client has gone |
| LibraryTheorems.PushTracks | packages/server/src/robot_jsonrpcremote_server/_endpoint.py:238-241 | a finalization that is queued, by whichever client and for whatever token, keeps every token tracked |
| RobotServerEndpoints.RobotServerEndpoint.BeginFinalize | packages/server/src/robot_jsonrpcremote_server/_endpoint.py:239-241 | the finalization of the named token is queued last, and the list stays as it is |
| LibraryRelease.FinalizedOnceRun | packages/server/src/robot_jsonrpcremote_server/_endpoint.py:239-243 | after a client has asked for the end of a library, and as many commands as were queued then have run, the store does not hold it, and if it was imported it was torn down once, whatever others do meanwhile |
| LibraryRelease.UnlistedOnceHandled | packages/server/src/robot_jsonrpcremote_server/_endpoint.py:241-243 | once the handler of that request has gone on, the client's endpoint does not list the library, and never again |
| RobotServerEndpoints.RobotServerEndpoint.EndFinalize | packages/server/src/robot_jsonrpcremote_server/_endpoint.py:242-243 | the token is struck off the list |
| RobotServerEndpoints.RobotServerEndpoint.AwaitFinalization | packages/server/src/robot_jsonrpcremote_server/_endpoint.py:261-266 | after any number of steps of others, the clean-up goes on with the tokens that were left |
| RobotServerEndpoints.RobotServerEndpoint.FinalizeAll | packages/server/src/robot_jsonrpcremote_server/_endpoint.py:268-278 | the loop ends, marked as disconnected and with an empty list, whatever happens during its awaits |
| Definitions.EmptyExactlyIfEqual | src/JsonRpcRemote/__init__.py:171-196 | no change is described exactly for equal definitions, with duplicate keyword names too |
| Definitions.NamesTold | src/JsonRpcRemote/__init__.py:175-184 | the lists of added, removed and changed names hold exactly the names of which that is true |
| Definitions.ToldOfEach | src/JsonRpcRemote/__init__.py:175-192 | the description tells of each name and attribute what has become of it: added, removed, changed, or nothing |
| Definitions.LastCounts | src/JsonRpcRemote/__init__.py:171-184 | of keywords with one name the last one counts |
| Definitions.ReorderedExactly | src/JsonRpcRemote/__init__.py:194-196 | a changed order is reported exactly if nothing is different by name and the lists still differ |
| Definitions.ReorderedPermutes | src/JsonRpcRemote/__init__.py:194-196 | with distinct names, the lists are then permutations of each other |
| Definitions.ReorderedWithoutReordering | src/JsonRpcRemote/__init__.py:194-196 | with a name given twice they need not be |
| Reconnect.StepKeepsValid | src/JsonRpcRemote/__init__.py:741-771 | calls, losses and scope ends keep session, outage and incompatible error consistent |
| Reconnect.RunsStayValid | src/JsonRpcRemote/__init__.py:741-782 | so do whole runs, which never change the registered definition |
| Reconnect.ReplacedByAnEqualOne | src/JsonRpcRemote/__init__.py:741-782 | from the call that finds a session lost to the end of the scope, every session has the registered definition |
| Reconnect.IncompatibleUntilScopeEnds | src/JsonRpcRemote/__init__.py:742-743 | after a changed definition there is no session and no attempt until the scope ends |
| Reconnect.LostUntilScopeEnds | src/JsonRpcRemote/__init__.py:745-748 | without retry, a lost session is never replaced before its scope ends |
| Reconnect.OneWindowThenSingleAttempts | src/JsonRpcRemote/__init__.py:784-811 | between two successful connections at most one window runs out, every later call makes one attempt, and the outage counts all failures |
| Reconnect.AnswerIsTheSession | src/JsonRpcRemote/__init__.py:754-771 | a call returns a session exactly if the client then holds it and there is no outage; a changed definition is reported only if it differs |
| Reconnect.ScopeStartsAfresh | src/JsonRpcRemote/__init__.py:844-854 | the end of a scope leaves no session, no loss and no changed definition; the next call connects and takes whatever session it gets, and only a spent window stays spent |
| Reconnect.CallConnectsExactlyIf | src/JsonRpcRemote/__init__.py:741-771 | a call connects exactly if the client has no session, or a lost one and retry, and the definition has not changed before; with a live session it makes no attempt |
| Reconnect.ComparedExactlyAfterALoss | src/JsonRpcRemote/__init__.py:754-782 | a new session is refused exactly if it follows a loss and has another definition than the registered one |
| Reconnect.OutageBeginsOnce | src/JsonRpcRemote/__init__.py:741-811 | an outage begins with the loss that a call finds, or else with the first failed attempt, and later failures do not move that |
| JsonRpcRemotes.JsonRpcRemote.Create | src/JsonRpcRemote/__init__.py:692-727 | retry with an interval that is not positive is rejected before any attempt; otherwise the first session's definition is registered |
| JsonRpcRemotes.JsonRpcRemote.EnsureSession | src/JsonRpcRemote/__init__.py:741-771 | fields and answer are those of the call step, for whatever connecting gives |
| JsonRpcRemotes.JsonRpcRemote.ConnectAndCheck | src/JsonRpcRemote/__init__.py:754-769 | connecting without a stored session, with the check of the definition after a loss |
| JsonRpcRemotes.JsonRpcRemote.CheckDefinition | src/JsonRpcRemote/__init__.py:773-782 | the incompatible error is set exactly for another definition than the registered one |
| JsonRpcRemotes.JsonRpcRemote.StopSession | src/JsonRpcRemote/__init__.py:844-854 | the scope's session, loss and incompatible error end; a spent window stays spent |
| JsonRpcRemotes.BoundIsQuotient | src/JsonRpcRemote/__init__.py:792-792 | the bound is the window divided by the interval, rounded up, and one |
| JsonRpcRemotes.FailuresBounded | src/JsonRpcRemote/__init__.py:805-811 | failed attempts that keep the interval are fewer than the bound until the window has passed, and at most as many in the end |
| JsonRpcRemotes.JsonRpcRemote.ConnectWithRetry | src/JsonRpcRemote/__init__.py:784-811 | the loop ends; with retry its failed attempts keep the interval, it gives up exactly when one of them ends at the deadline or later, after no more attempts than the bound; every failure is counted |
| JsonRpcRemotes.BoundIsReached | src/JsonRpcRemote/__init__.py:784-811 | failed attempts that keep the interval, each of them failing at once, reach exactly the bound |

## Left out

- Sockets, pipes, subprocesses, threads, signals and argument parsing: plumbing around the modelled steps.
- The JSON text layer, text codecs and pickle: see what the model takes for granted.
- Floats are real numbers: no rounding, no NaN, and no overflow when an integer becomes a float.
- Named tuples, sets, `ValidateMixin`, aliases and other field metadata, fields without `init`, and dictionary keys that
  are not strings: further cases of the decoder and the encoder of the same shape.
- The order of the members of a JSON object: objects are maps. Where it decides, because several members stand for one field
  or several fields have one name on the wire, each class has a parameter that takes the last of them.
- The decoder's caches: Python takes two unions with the same members as equal, so a cached union can have another order of
  its members than the one that was asked for. OrderIgnoredExactlyIfAgreed says when that makes no difference.
- Wording of errors and log texts, and which of several errors is reported: success, codes and ids are kept.
- LibraryTheorems.NothingLeaks: an import that fails leaves nothing in the store. In the code it could also fail while the
  definition of the library is built, after the store has it (packages/server/src/robot_jsonrpcremote_server/_runner.py:117-119).
  The runner accepts every command: once the server stops, the end of its Robot Framework run ends the libraries. Handlers
  that wait for the runner are not cancelled, as a lost connection does not cancel them.
- The check for `initialize` and for the allowed library names before an import: a rejected import has no token.
- TwoPeers.AnswersComeFromTheirRun: both sides are peers of this library, which send no batches, and notifications are left
  out, as they touch no request. What a peer does with malformed messages is in PeerStates and Messages.
- Backpressure of the writer: a channel has no size limit, and an answer may be lost with the writer at any time.
- The tasks of `_cancel_inflight` are cancelled one by one in TwoPeers; `stop()` of a single peer does not list them.
- `wait_idle`, the order in which the client's log sink drains, log levels and timestamps of messages.
- Robot Framework itself: a command is anything that logs messages and then returns or raises.
- Connection attempts are timed as a whole: `_connect` is one call that takes any time and gives a session or a failure.
