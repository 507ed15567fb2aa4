# A verified model of OpenOCPP's messaging core

OpenOCPP speaks OCPP-J: two endpoints exchange CALL, CALLRESULT and CALLERROR frames as JSON texts over a websocket.
This project models the layer that does so and proves properties of it over all inputs, all runs and all interleavings.
It also covers the smaller algorithms around that layer: the offline request FIFO, URL handling, timestamps,
enumeration lists, the spreading of clients over pools, and two algorithms of the vendored test framework.

| file | what it models |
|---|---|
| `CallProtocol.dfy` | `RpcBase::call` run by any number of threads, as a step relation, with restarts and arbitrary result frames |
| `RpcPool.dfy` | the worker pool and connections that several threads start, disconnect and stop while it runs, as a step relation |
| `PoolDrain.dfy` | the requests of the pool and the end of the pool, over the same steps |
| `PoolService.dfy` | the order in which the pool takes and handles requests, and that open connections are served, over the same steps |
| `RxThread.dfy` | a connection without a pool: its reception thread, the receive path and the lifecycle, as a step relation |
| `RpcBase.dfy` | the connection object as a class: lifecycle, classification of texts, request handling, a call and its wait loop |
| `RpcClient.dfy` | racing `start` and `stop` of the client, as a step relation |
| `Dispatcher.dfy` | the handler table and dispatch |
| `Frames.dfy`, `Json.dfy` | the frames as written and as read, over a JSON writer and reader |
| `ErrorExchange.dfy` | two endpoints that answer each other, as a step relation |
| `MessageFifo.dfy` | the sender's FIFO fast path, the drain loop and the persistent FIFO |
| `UrlParse.dfy`, `UrlEncode.dfy` | URL parsing by regular expression, percent encoding |
| `DateTime.dfy`, `EnumCsl.dfy`, `ClientPools.dfy` | timestamps, enumeration lists, pool allocation |
| `Glob.dfy`, `Subcases.dfy` | wildcard comparison and subcase traversal of doctest |
| `Text.dfy` | characters, C strings, decimal numerals |

Code outside the repository's own logic appears through its contract. `Queue` pushes at any time, and pops its head only
while it is enabled (src/tools/helpers/Queue.h:100-172). A thread pool runs each job once. The JSON library is a small
writer and reader of RFC 8259. `mktime` finds the instant whose standard local time is the given one. Send results,
arrivals, time-outs, handler answers, random draws and validator verdicts are parameters or free steps.

Some properties that the code does not have in full are stated with their exact condition:

- Frame fields are written without escaping, so a frame survives being written and read exactly when its id, action,
  code and message need none (`CallSurvives`, `ResultSurvives`, `ErrorSurvives`, `QuoteWitness`).
- `start` draws a new transaction id. `call` prints the id twice, and a restart in between makes it wait for another id
  than the one it sent (`RestartMisdelivers`). An honest answer that came before a CALL went out completes that call
  only if an older session sent a CALL with the awaited id (`StaleIsOlder`); after a restart any earlier CALL can be
  answered late in this way (`StalePossible`, `StaleWitness`).
- With a pool, `processDisconnected` dereferences a null owner exactly when the object was never started or a stop has
  reset the owner since its last start (`DisconnectSafety`, `NullOwner`), and a changed one exactly when a reset comes
  between its uses of the pointer (`LostOwner`). A disconnection that overlaps a stop can meet this (`OverlapBreaks`).
  Two overlapping stops can take away the owner of a later session (`OverlappingStops`); `RpcClient` and the
  destructors do not let stops overlap, and then neither happens to a stop (`SerialSession`, `StopIsSafe`).
- The pool takes requests in the order of arrival (`TakenInOrder`), but handles them in that order only if it has one
  thread (`OneThreadInOrder`): with two or more a request can be overtaken by a later one of the same connection
  (`Overtaken`).
- Every successful start of the client is disconnected once if one thread starts it (`EveryStartDisconnected`); two
  threads that start at once can both succeed, and share one disconnect (`RacingStarts`).
- Without a pool a CALL that is received while the object is stopped waits in the queue for the next session
  (`HandledPrefix`).
- An `@` in the path of a URL can be taken for the end of a password (`CapturesRecovered`, `MistakenWitness`), and port numbers are checked
  after narrowing to 32 bits (`PortRange`, `PortWraps`). A host in upper case is refused (`UpperCaseHostRefused`).
- `assign` subtracts one hour for summer time whatever the zone's shift is (`AssignOfStr`, `HalfHourSummerTime`).
- The drain gives up on a request that failed too often, and an error answer counts as a failure (`NothingDropped`, `DropWitness`).
- Percent encoding of bytes from 128 on prints eight digits where `char` is signed (`RoundTrip`).

## Model

| member | source | states |
|---|---|---|
| `CallProtocol.EveryRunKeeps` | src/rpc/RpcBase.cpp:59-155 | the protocol invariant (mutual exclusion, freshness of ids, order of the queue, what completions hold) survives every interleaving of callers, arrivals, time-outs, stops and starts |
| `CallProtocol.OneOutstanding` | src/rpc/RpcBase.cpp:70-152 | in every reachable state at most one thread is between locking and unlocking, so at most one CALL is outstanding |
| `CallProtocol.CallsNeverStuck` | src/rpc/RpcBase.cpp:70-152 | while any thread is in `call`, some thread in it can take a step that does not wait for the peer: no deadlock |
| `CallProtocol.WireIdsIncrease` | src/rpc/RpcBase.cpp:80-151 | ids on the wire strictly increase within a session, also when sends fail |
| `CallProtocol.AnswerCarriesOwnId` | src/rpc/RpcBase.cpp:88-152 | a call that returns true hands back a frame with the decimal id of its own CALL if the connection was not restarted between the two printings, and in general exactly when both printings gave the same number |
| `CallProtocol.AnswersAreDistinct` | src/rpc/RpcBase.cpp:97-141 | a frame completes at most one call and a call is completed at most once |
| `CallProtocol.StaleIsOlder` | src/rpc/RpcBase.cpp:97-123 | every completion by an honest answer that came before the completed CALL went out: an older session sent a CALL with exactly the awaited id |
| `CallProtocol.AnswerIsFresh` | src/rpc/RpcBase.cpp:97-123 | if no older session used the awaited id, the honest answer that completes a call arrived after its CALL went out, so a late answer to a timed-out call never completes a later one |
| `CallProtocol.StalePossible` | src/rpc/RpcBase.cpp:217-241 | conversely, wherever a thread is about to send, a restart lets a late answer to any earlier CALL complete its call |
| `CallProtocol.StaleWitness` | src/rpc/RpcBase.cpp:217-241 | two reachable such runs for every drawn id: with the restart between the two printings, and with the same id drawn again |
| `CallProtocol.AnswerIsDelivered` | src/rpc/RpcBase.cpp:102-123 | a waiting call whose answer is at position p of the enabled queue completes with it after p + 1 pops, which drop the frames before it |
| `CallProtocol.FlushedNeverAnswers` | src/rpc/RpcBase.cpp:271-274 | a frame that had arrived when a stop flushed the queue completes no call afterwards, in any continuation with any restarts |
| `CallProtocol.NothingAfterDisable` | src/rpc/RpcBase.cpp:279-293 | from a disconnection or the beginning of a stop until the next start no call completes |
| `CallProtocol.RestartMisdelivers` | src/rpc/RpcBase.cpp:80-99 | for any two numbers a run with a restart in which the CALL carries the one and the frame handed back the other |
| `RpcPool.EveryRunKeeps` | src/rpc/RpcPool.cpp:54-77 | locks, flags, owners, workers and any number of overlapping stops and disconnections stay consistent in every interleaving |
| `RpcPool.HandledInOwnSession` | src/rpc/RpcPool.cpp:59-74 | a worker is in a handler only for the owner the request was queued with, while that owner is operational and locked by this worker; the owner is still the current one of its connection if and only if no stray reset has taken it away |
| `RpcPool.OneHandlerPerConnection` | src/rpc/RpcPool.cpp:63-72 | no two workers are in handlers for the same owner, nor of the same connection unless a stray reset has taken one of the owners away |
| `RpcPool.SerialSession` | src/rpc/RpcServer.cpp:139-187 | if stops of one connection do not overlap, whatever disconnections do, requests are handled only in the session they were queued in and by one worker per connection |
| `RpcPool.StopIsSafe` | src/rpc/RpcBase.cpp:247-263 | and then no use of the owner pointer in `stop` finds it null or changed |
| `RpcPool.RetiredForever` | src/rpc/RpcBase.cpp:244-293 | once an owner is not operational, no worker is or ever comes to be in its handler, in any continuation with any overlap of stops and disconnections |
| `RpcPool.CloseRetires` | src/rpc/RpcBase.cpp:255-291 | each thread that stops or disconnects gives the lock back with the owner retired and no worker in its handler, however many do so at once |
| `RpcPool.NullOwner` | src/rpc/RpcBase.cpp:289-289 | over every run the first use of the owner pointer finds it null if and only if no start of the connection stands: none came, or a reset followed the last |
| `RpcPool.LostOwner` | src/rpc/RpcBase.cpp:290-291 | the later uses find another owner than the one locked if and only if a reset has come since the first use |
| `RpcPool.OverlapBreaks` | src/rpc/RpcServer.cpp:148-155 | a reachable run in which a disconnection that overlaps a stop finds the pointer null |
| `RpcPool.OverlappingStops` | src/rpc/RpcBase.cpp:244-276 | a reachable run in which two overlapping stops and a start leave a worker in a handler of a connection without owner |
| `PoolDrain.PlacesKept` | src/rpc/RpcPool.cpp:54-111 | a step moves requests between queue, workers, handled, dropped and flushed; only a push adds one |
| `PoolDrain.ExactlyOnePlace` | src/rpc/RpcBase.cpp:405-435 | in every reachable state each pushed request is in exactly one place, so it is handled at most once |
| `PoolDrain.StoppedPoolIsQuiet` | src/rpc/RpcPool.cpp:86-113 | a stopped pool has no workers, and `stop` returns with no request held and an empty queue |
| `PoolDrain.DrainNeverStuck` | src/rpc/RpcPool.cpp:94-101 | while `stop` waits for a worker, some worker or some thread that holds an owner's lock can go on, if handlers return: no deadlock over the owner locks |
| `PoolDrain.DrainEnds` | src/rpc/RpcPool.cpp:94-101 | in any run during which the pool drains, its workers take at most six steps each |
| `PoolDrain.DrainCompletes` | src/rpc/RpcPool.cpp:94-107 | from every reachable state of a draining pool steps of its workers and of lock holders alone end it with no worker left and an empty queue, unless a thread meets an owner pointer that was taken away |
| `PoolDrain.StopCompletes` | src/rpc/RpcPool.cpp:86-113 | and so does a stop of a running pool, beginning with the disabling of its queue |
| `PoolService.EarlierLeavesFirst` | src/tools/helpers/Queue.h:151-172 | in every reachable state a request that has left the queue came before every request that is still in it |
| `PoolService.TakenInOrder` | src/rpc/RpcPool.cpp:60-60 | in every run the workers together take requests in the order in which they were pushed |
| `PoolService.OneThreadInOrder` | src/rpc/RpcPool.cpp:37-77 | a pool that is only ever started with one thread handles requests in the order in which they were pushed |
| `PoolService.Overtaken` | src/rpc/RpcPool.cpp:51-74 | for every larger number of threads a reachable run in which a request is handled before an earlier one of the same connection |
| `PoolService.StartOpens` | src/rpc/RpcBase.cpp:217-241 | a start opens its connection for a new operational owner, unless an older stop or disconnection of it is still under way |
| `PoolService.OpenIsServed` | src/rpc/RpcPool.cpp:60-74 | a request that comes in while its connection is open is never dropped as long as nobody stops or disconnects that connection: it is queued, held or handled, unless a stop of the whole pool has flushed it |
| `RpcBase.RpcBase.constructor` | src/rpc/RpcBase.cpp:38-49 | a new object is not started and has empty queues |
| `RpcBase.RpcBase.Start` | src/rpc/RpcBase.cpp:217-241 | starting sets the owner or the thread, draws a new id and enables the queues, unless already started; what that is good for is in `StartStands` and `EnabledExactly` |
| `RpcBase.RpcBase.Stop` | src/rpc/RpcBase.cpp:244-276 | stopping releases what is set and empties both queues; its dereferences are safe |
| `RpcBase.RpcBase.ProcessDisconnected` | src/rpc/RpcBase.cpp:279-293 | the queues are disabled and the owner is taken out of operation |
| `RpcBase.LifecycleSound` | src/rpc/RpcBase.cpp:217-293 | over every sequence of starts, stops, disconnections and texts, a started object has the owner set if it has a pool and the thread set if not, never both; the owner is the last one made and operational exactly while the queues are enabled; nothing handed to the pool or sent is taken back |
| `RpcBase.StartStands` | src/rpc/RpcBase.cpp:217-241 | over every sequence of events, from a start that takes effect until the next stop or disconnection the queues are enabled, the next id is the number drawn, and with a pool a new owner is operational |
| `RpcBase.EnabledExactly` | src/rpc/RpcBase.cpp:217-293 | the queues are enabled if and only if such a start stands, or they were enabled at first and nothing has ended that; a start of a started object does not enable them again after a disconnection |
| `RpcBase.QueuedUntilStop` | src/rpc/RpcBase.cpp:244-293 | without a pool, until a stop takes effect the two queues hold what they held and the CALLs and replies received, in order of arrival, whatever starts and disconnections come between |
| `RpcBase.StopEmptiesQueues` | src/rpc/RpcBase.cpp:244-276 | what `stop` dereferences is set; afterwards nothing is, and both queues of a started object are empty |
| `RpcBase.DisconnectSafety` | src/rpc/RpcBase.cpp:279-293 | the dereference in `processDisconnected` is safe if and only if there is no pool or the object is started |
| `RpcBase.DisconnectWithoutOwner` | src/rpc/RpcServer.cpp:139-145 | the unsafe states: before the start that follows the registration of the listener, and after a stop |
| `RpcBase.RpcBase.ProcessReceivedData` | src/rpc/RpcBase.cpp:296-389 | the nested checks amount to the decoding of the text: a CALL is queued, a reply is queued, anything else is answered by the protocol error; what is queued for the texts of a peer is in `ReceivesCall`, `ReceivesResult` and `ReceivesError` |
| `RpcBase.ReceivesCall` | src/rpc/RpcBase.cpp:405-435 | receiving a CALL text of a peer adds exactly one request with its id, action and payload: to the pool with the current owner, or to the queue of the reception thread |
| `RpcBase.ReceivesResult` | src/rpc/RpcBase.cpp:438-453 | receiving a CALLRESULT text adds exactly one result with its id and payload and no error |
| `RpcBase.ReceivesError` | src/rpc/RpcBase.cpp:456-475 | receiving a CALLERROR text adds exactly one result with its id, its code as the error and its message |
| `RpcBase.ResultsInOrder` | src/rpc/RpcBase.cpp:296-389 | any sequence of texts queues its replies in order of arrival |
| `RpcBase.ArrivalOrder` | src/rpc/RpcBase.cpp:296-389 | without a pool any sequence of texts queues its CALLs in order of arrival, and each text has exactly one effect |
| `RpcBase.RpcBase.ProcessIncomingRequest` | src/rpc/RpcBase.cpp:178-214 | at most one reply is attempted, the one that the dispatcher's outcome calls for, with the request's id |
| `RpcBase.RpcBase.RxThread` | src/rpc/RpcBase.cpp:496-505 | the drain loop answers the queued requests and those that arrive while it runs, in order, and empties the queue; a disabled queue is left alone |
| `RpcBase.RepliesConcat` | src/rpc/RpcBase.cpp:496-505 | the replies to requests are those to the first of them followed by those to the rest |
| `RxThread.EveryRunKeeps` | src/rpc/RpcBase.cpp:217-276 | queue, handled CALLs, sessions and sent texts stay consistent in every interleaving of receiving, handling, disconnecting, stopping and starting |
| `RxThread.RepliesFollowArrival` | src/rpc/RpcBase.cpp:496-505 | over every run replies are attempted in the order in which their CALLs arrived, at most one for each, and each is the one its outcome calls for, with its id |
| `RxThread.HandledPrefix` | src/rpc/RpcBase.cpp:244-276 | the CALLs handled in a session are a prefix of those due in it, which are those received since the flush that ended the session before |
| `RxThread.HandledIsReplied` | src/rpc/RpcBase.cpp:178-214 | a handled CALL whose outcome calls for a reply has it in the history |
| `RxThread.RejectedGetsOneError` | src/messages/MessageDispatcher.cpp:71-109 | every handled CALL whose action is not registered or whose payload the validator does not accept has exactly one reply in the history: a CALLERROR with its id, saying not implemented or giving the words of the validator |
| `RxThread.AcceptedGetsAnswer` | src/rpc/RpcBase.cpp:178-214 | every handled CALL whose payload is accepted has exactly the reply that its handler decided on: one CALLRESULT with the response, one CALLERROR with code and message, or none if the code is empty |
| `RxThread.AllCanBeAnswered` | src/rpc/RpcBase.cpp:496-505 | while the queue is enabled the reception thread alone can answer all that is queued, in order, each as its handler says |
| `RxThread.StepsOfTheObject` | src/rpc/RpcBase.cpp:178-505 | every step of the relation has exactly the effect of the object's method on queue, flags and sent texts |
| `RxThread.NothingLost` | src/rpc/RpcBase.cpp:271-274 | every CALL ever received is handled, being handled, queued, or was there when a stop flushed the queue |
| `RpcBase.RpcBase.AwaitAnswer` | src/rpc/RpcBase.cpp:97-128 | the wait loop ends, with the first frame that carries the expected id among those queued and those that arrive in time, having removed exactly the frames before it |
| `RpcBase.YieldedInOrder` | src/tools/helpers/Queue.h:151-172 | the frames that pops yield are a prefix of what was queued and what arrived, in that order |
| `RpcBase.RpcBase.Call` | src/rpc/RpcBase.cpp:59-155 | the CALL carries the current id; the call returns true if and only if a frame with that id is queued or arrives in time, and hands back the first such frame with its error texts; the id is used up even if sending fails |
| `RpcBase.StartThenResult` | src/rpc/RpcBase.cpp:59-155 | the first call after a start, answered in time by a CALLRESULT text of the peer, hands back the payload that the peer wrote and no error, whatever other texts come before and after |
| `RpcBase.StartThenError` | src/rpc/RpcBase.cpp:59-155 | answered by a CALLERROR text, it hands back the code and the message that the peer wrote |
| `RpcClient.NeverMoreDisconnects` | src/rpc/RpcClient.cpp:45-93 | in every interleaving of any number of starts and stops there are no more disconnects than successful starts |
| `RpcClient.DisconnectsPerStart` | src/rpc/RpcClient.cpp:70-93 | the same from every state that satisfies the invariant, which is kept |
| `RpcClient.OneStopAtATime` | src/rpc/RpcClient.cpp:74-90 | no two stops are past the mutex at once |
| `RpcClient.EveryStartDisconnected` | src/rpc/RpcClient.cpp:45-93 | if one thread starts the client, then in every interleaving of any number of stops each successful start but one that stands was disconnected exactly once |
| `RpcClient.RacingStarts` | src/rpc/RpcClient.cpp:54-64 | a run in which two starts succeed and share one disconnect |
| `RpcClient.StartsAreConnects` | src/rpc/RpcClient.cpp:57-64 | over every run each successful connect has led to one start or is about to, and nothing else has |
| `Dispatcher.MessageDispatcher.constructor` | src/messages/MessageDispatcher.cpp:33-35 | the table starts empty |
| `Dispatcher.MessageDispatcher.RegisterHandler` | src/messages/MessageDispatcher.cpp:41-69 | a handler is added exactly if the action is free or replaceable and a validator exists; the table keeps non-null validators |
| `Dispatcher.MessageDispatcher.DispatchMessage` | src/messages/MessageDispatcher.cpp:71-109 | the handler is called and decides the outcome exactly if its action is registered and the validator accepts the payload; otherwise the outcome says not implemented or gives the words of the validator, which is not null |
| `Dispatcher.RegistrationsKeepValidators` | src/messages/MessageDispatcher.cpp:41-69 | no sequence of registrations puts a null validator into the table |
| `Dispatcher.FirstRegistrationWins` | src/messages/MessageDispatcher.cpp:46-47 | without replacement the handler of an action never changes |
| `Dispatcher.LastStoredDecides` | src/messages/MessageDispatcher.cpp:41-69 | after any list of registrations an action has the handler and validator of the last registration that was stored; which are stored is told by the list alone |
| `Dispatcher.NoneStored` | src/messages/MessageDispatcher.cpp:41-69 | an action for which none was stored keeps the entry it had, or has none |
| `Json.ParsePrint` | src/rpc/RpcBase.cpp:76-79 | reading undoes writing for every JSON value without decimals, nested to any depth |
| `Json.LexText` | src/rpc/RpcBase.cpp:305-314 | splitting a written text gives back its tokens |
| `Json.ShowsEmitted` | src/rpc/RpcBase.cpp:305-314 | parsing the tokens of a value gives back the value |
| `Frames.CallRoundTrip` | src/rpc/RpcBase.cpp:76-87 | decoding a written CALL gives back kind, id, action and payload, for fields that need no escaping and payloads without decimals |
| `Frames.ResultRoundTrip` | src/rpc/RpcBase.cpp:186-197 | the same for a CALLRESULT |
| `Frames.ErrorRoundTrip` | src/rpc/RpcBase.cpp:478-493 | the same for a CALLERROR |
| `Frames.CallSurvives` | src/rpc/RpcBase.cpp:81-87 | a CALL survives writing and reading if and only if its id and action need no escaping |
| `Frames.ResultSurvives` | src/rpc/RpcBase.cpp:191-197 | a CALLRESULT survives if and only if the echoed id needs no escaping |
| `Frames.ErrorSurvives` | src/rpc/RpcBase.cpp:481-488 | a CALLERROR survives if and only if id, code and message need no escaping |
| `Frames.QuoteWitness` | src/rpc/RpcBase.cpp:81-87 | a quote in one field for which each of the three frames does not survive |
| `Frames.ProtocolErrorFrame` | src/rpc/RpcBase.cpp:363-388 | the protocol-error frame decodes as a CALLERROR whose empty id is the expected id of no call |
| `Frames.FrameShapes` | src/rpc/RpcBase.cpp:316-388 | exactly three shapes of JSON array are frames, of 4, 3 and 5 items with an object at the end; every other value is malformed |
| `Frames.FrameSamples` | src/rpc/RpcBase.cpp:81-87 | one frame of each kind as written |
| `Frames.ReplyIsNoCall` | src/rpc/RpcBase.cpp:316-349 | whatever follows, a text that begins with `[3,` or `[4,` is never decoded as a CALL |
| `Frames.ReplyKeepsId` | src/rpc/RpcBase.cpp:186-208 | whatever response, code and message a handler gives, the reply to a request with a plain id is malformed or carries exactly that id |
| `Frames.CallAndReply` | src/rpc/RpcBase.cpp:76-208 | between two endpoints with this code a CALL is decoded as it was meant and its reply as the answer to that call's id |
| `ErrorExchange.StepBound` | src/rpc/RpcBase.cpp:178-214 | every delivery and every handling uses up some of a bound computed from what is in flight and queued |
| `ErrorExchange.ExchangeEnds` | src/rpc/RpcBase.cpp:296-389 | with no new calls, no run of two endpoints is longer than the bound of its first state: errors never bounce forever |
| `ErrorExchange.BoundSize` | src/rpc/RpcBase.cpp:296-389 | the bound is at most four per frame in flight |
| `ErrorExchange.QuietIffEmpty` | src/rpc/RpcBase.cpp:496-505 | the exchange stands still if and only if nothing is in flight or queued |
| `ErrorExchange.DeliveryIsReceipt` | src/rpc/RpcBase.cpp:296-389 | a delivery takes its packet off the wire and has exactly the effects of receiving the text: the same request queued or the same text sent, and nothing at the other endpoint |
| `ErrorExchange.CallIsAnswered` | src/rpc/RpcBase.cpp:178-214 | a CALL that is delivered and handled puts exactly one text on the wire, to its sender, decoded there as the answer to that call |
| `MessageFifo.EveryRunInOrder` | src/messages/GenericMessageSender.h:126-203 | over every run of serialised submissions and drain rounds with failures anywhere, what left followed by what waits is the submission order |
| `MessageFifo.NextInOrder` | src/messages/GenericMessageSender.h:146-198 | each submission and each round keeps that order and only extends the histories |
| `MessageFifo.NothingDropped` | src/ocpp16/chargepoint/requestfifo/RequestFifoManager.cpp:223-241 | every request that left was answered if and only if every round found nothing to do, succeeded or had attempts left |
| `MessageFifo.DropWitness` | src/ocpp16/chargepoint/requestfifo/RequestFifoManager.cpp:231-241 | a run in which a request is dropped |
| `MessageFifo.EveryFailureCounted` | src/ocpp16/chargepoint/requestfifo/RequestFifoManager.cpp:223-241 | over every run the retry count is the number of failed rounds of the request at the head alone, and a dropped request is recorded with all of its failures |
| `MessageFifo.PushDuringRound` | src/messages/GenericMessageSender.h:193-198 | a request queued while a round is under way may as well be queued after it |
| `MessageFifo.WorkShrinks` | src/ocpp16/chargepoint/requestfifo/RequestFifoManager.cpp:112-254 | each round of the drain loop reduces the work that is left |
| `MessageFifo.MessageSender.Call` | src/messages/GenericMessageSender.h:126-203 | exactly when a submission is Ok, an Error or Delayed in terms of FIFO and answer; the FIFO and the retry timer afterwards; a request is delayed exactly if it was queued |
| `MessageFifo.MessageSender.RequestQueued` | src/ocpp16/chargepoint/requestfifo/RequestFifoManager.cpp:91-99 | a push leaves the retry timer running exactly if it ran or the connection is up |
| `MessageFifo.MessageSender.DrainRound` | src/ocpp16/chargepoint/requestfifo/RequestFifoManager.cpp:114-252 | exactly when a round succeeds in terms of action and answer; the head leaves on success or after too many failures; afterwards the timer runs exactly if something else started it or this round failed with attempts left while connected |
| `MessageFifo.MessageSender.ProcessFifoRequest` | src/ocpp16/chargepoint/requestfifo/RequestFifoManager.cpp:102-276 | the drain equals its rounds, each of which sends the head of that moment in the environment of that round; it keeps the order and ends within the work bound, goes on only past rounds that leave the timer at rest and the connection up, and leaves requests behind only with the timer running or the connection lost |
| `MessageFifo.RequestFifo.Push` | src/ocpp16/chargepoint/requestfifo/RequestFifo.cpp:40-72 | memory and table both gain the request at the end |
| `MessageFifo.RequestFifo.Pop` | src/ocpp16/chargepoint/requestfifo/RequestFifo.cpp:97-112 | memory and table both lose the oldest request |
| `MessageFifo.RequestFifo.Load` | src/ocpp16/chargepoint/requestfifo/RequestFifo.cpp:145-177 | the table read in ascending order of ids is the FIFO that was in memory |
| `UrlParse.MatchIsExpression` | src/websockets/Url.cpp:39-40 | the matcher accepts exactly the language of the expression and returns the captures that greedy backtracking tries first |
| `UrlParse.CapturesRecovered` | src/websockets/Url.cpp:39-50 | captures that derive a text are the ones returned if and only if no `@` of the path can end a password; never for `@`-free paths |
| `UrlParse.MistakenWitness` | src/websockets/Url.cpp:39-50 | a URL whose path is taken for host and whose port for password |
| `UrlParse.CapturesRecompose` | src/websockets/Url.cpp:43-53 | every accepted text equals the recomposition of its captured parts |
| `UrlParse.PartsBack` | src/websockets/Url.cpp:43-53 | well-formed parts with an `@`-free path parse back to themselves, with any password |
| `UrlParse.CapturesIffDerives` | src/websockets/Url.cpp:39-40 | exactly the texts of the expression's language yield parts |
| `UrlParse.CapturesOfComposed` | src/websockets/Url.cpp:43-53 | well-formed parts with an `@`-free path are captured from their composition, exactly |
| `UrlParse.MeantSamples` | src/websockets/Url.cpp:39-50 | two such URLs, one with user, password and punctuation |
| `UrlParse.UpperCaseHostRefused` | src/websockets/Url.cpp:39-39 | a host in upper case is refused |
| `UrlParse.Url.constructor` | src/websockets/Url.cpp:34-70 | parts exist exactly for texts of the expression's language, and validity is parts with an accepted port; every composition of well-formed parts with an `@`-free path and a port from 1 to 65535 or none is valid with exactly these parts and that port |
| `UrlParse.Url.CheckPort` | src/websockets/Url.cpp:52-68 | a port is kept exactly if it is accepted |
| `UrlParse.PortRange` | src/websockets/Url.cpp:58-67 | below 2^32 exactly 1 to 65535 are accepted; above, what is congruent to them |
| `UrlParse.PortWraps` | src/websockets/Url.cpp:58-67 | for each valid port an accepted number beyond 2^32 |
| `UrlEncode.MustEncode` | src/websockets/Url.cpp:88-103 | a character is encoded if and only if it is not unreserved |
| `UrlEncode.Encode` | src/websockets/Url.cpp:76-119 | the loop yields the concatenation of the codes of all bytes |
| `UrlEncode.RoundTrip` | src/websockets/Url.cpp:105-115 | percent-decoding gives the bytes back if and only if `char` is unsigned or the text is 7-bit |
| `UrlEncode.EncodeConcat` | src/websockets/Url.cpp:84-116 | encoding distributes over concatenation |
| `UrlEncode.EncodedAlphabet` | src/websockets/Url.cpp:105-115 | only unreserved characters and `%` are emitted, each `%` before its upper-case digits: two, or eight for a negative `char` |
| `UrlEncode.PrefixCode` | src/websockets/Url.cpp:109-109 | the codes of signed characters can be told apart from the front |
| `UrlEncode.EncodeInjective` | src/websockets/Url.cpp:76-119 | different byte strings have different encodings for either signedness |
| `DateTime.SecondsOfGmtime` | src/types/DateTime.h:175-186 | the calendar walk yields a valid date whose seconds are the timestamp |
| `DateTime.GmtimeOfSeconds` | src/types/DateTime.h:175-186 | and conversely, so the two maps are mutually inverse |
| `DateTime.ReadIso` | src/types/DateTime.h:72-80 | the printed fields are read back, with and without the closing Z |
| `DateTime.CorrectionCancelsZone` | src/types/DateTime.h:86-88 | the correction cancels the zone if and only if summer time is not in force or shifts by one hour |
| `DateTime.DateTime.Assign` | src/types/DateTime.h:69-93 | assignment succeeds exactly for readable texts and then stores the corrected instant; the text that `Str` gives for a timestamp restores it if and only if summer time is not in force or shifts by one hour |
| `DateTime.DateTime.Str` | src/types/DateTime.h:175-186 | the printed text reads back as the broken-down UTC time of the timestamp |
| `DateTime.TimeTextSamples` | src/types/DateTime.h:175-186 | the text of the Epoch and of a timestamp with different parts in all places |
| `DateTime.AssignOfStr` | src/types/DateTime.h:69-93 | for years up to 9999 assigning the printed text gives the timestamp back under exactly that condition |
| `DateTime.HalfHourSummerTime` | src/types/DateTime.h:88-88 | a zone in which it does not |
| `EnumCsl.EnumHelper.constructor` | src/types/EnumToStringFromString.h:38-45 | the two tables hold the last entry for each enumerator and each name |
| `EnumCsl.TablesInverse` | src/types/EnumToStringFromString.h:38-82 | for a one-to-one mapping the tables hold all of its entries and nothing else, and are inverse to each other |
| `EnumCsl.LastEntryCounts` | src/types/EnumToStringFromString.h:38-45 | for any mapping the tables hold what has an entry, and the last entry counts |
| `EnumCsl.NamesRoundTrip` | src/types/EnumToStringFromString.h:48-82 | an enumerator has a name if and only if that name leads back to it; others have the empty name and other names lead nowhere |
| `EnumCsl.EnumHelper.EnumsFromCsl` | src/types/EnumToStringFromString.h:93-118 | the position loop equals splitting at commas, trimming, looking up and dropping unknowns, for every string |
| `EnumCsl.SplitJoin` | src/types/EnumToStringFromString.h:99-112 | comma-free pieces come back from their list |
| `EnumCsl.UnknownSkipped` | src/types/EnumToStringFromString.h:99-117 | a piece that is no name is skipped wherever it stands, and nothing else changes |
| `EnumCsl.CslRoundTrip` | src/types/EnumToStringFromString.h:93-118 | parsing the names of any non-empty list, with any spaces around them, gives the list back |
| `ClientPools.WebsocketFactory.SetClientPoolCount` | src/websockets/WebsocketFactory.cpp:81-96 | the pools can be set up once, all empty |
| `ClientPools.WebsocketFactory.NewClientFromPool` | src/websockets/WebsocketFactory.cpp:54-72 | the client goes to the first least loaded pool and to no other |
| `ClientPools.FairTurn` | src/websockets/WebsocketFactory.cpp:60-69 | after k arrivals into n empty pools the first least loaded pool is k mod n, and only that |
| `ClientPools.RoundRobinFromEmpty` | src/websockets/WebsocketFactory.cpp:54-72 | without departures the i-th client lands in pool i mod n |
| `ClientPools.EveryRunBalanced` | src/websockets/WebsocketFactory.cpp:54-72 | with arbitrary departures each allocation leaves its pool at most one above every other, and clients are conserved |
| `Glob.Wildcmp` | 3rdparty/doctest/doctest/doctest.h:4138-4172 | the loop that remembers only the last star decides the recursive meaning of the mask, in both case modes |
| `Glob.AfterStar` | 3rdparty/doctest/doctest/doctest.h:4151-4171 | the same from the first star on, with termination by the lexicographic measure of star, restart and text position |
| `Glob.EarliestFitSuffices` | 3rdparty/doctest/doctest/doctest.h:4152-4157 | why one restart point is enough: the earliest fit before a further star is as good as any |
| `Glob.MatchesAnyCase` | 3rdparty/doctest/doctest/doctest.h:4138-4172 | without case sensitivity no change of case in text or mask changes the verdict |
| `Glob.PlainMask` | 3rdparty/doctest/doctest/doctest.h:4138-4172 | a mask without wildcards matches itself alone, in the other mode up to case |
| `Glob.StarMeans` | 3rdparty/doctest/doctest/doctest.h:4151-4171 | a star stands for any run of characters |
| `Glob.Contains` | 3rdparty/doctest/doctest/doctest.h:4138-4172 | a text between two stars is found if and only if it occurs |
| `Subcases.TestContext.OpenSubcase` | 3rdparty/doctest/doctest/doctest.h:4232-4262 | which subcases a run enters and how the aim of the next run is recorded |
| `Subcases.TestContext.CloseSubcase` | 3rdparty/doctest/doctest/doctest.h:4268-4280 | how a leaf and a finished subcase are recorded |
| `Subcases.TestContext.RunBody` | 3rdparty/doctest/doctest/doctest.h:7032-7037 | one execution enters the targeted leaf path and nothing else, and leaves the aim of the next run |
| `Subcases.TestContext.RunTest` | 3rdparty/doctest/doctest/doctest.h:7016-7059 | the re-run loop ends and executes exactly the leaf paths, each once, left to right |
| `Subcases.LeafPathsExact` | 3rdparty/doctest/doctest/doctest.h:7016-7059 | the list of leaf paths holds every leaf, only leaves, and none twice |
| `Subcases.LeafPathsTour` | 3rdparty/doctest/doctest/doctest.h:4251-4260 | each leaf path is the one the recorded aim of its predecessor leads to |
| `Text.DigitsInjective` | src/rpc/RpcBase.cpp:90-99 | different transaction ids print differently |
| `Text.CStrStops` | src/rpc/RpcBase.cpp:305-314 | a text handed over as a C string loses nothing before its first NUL |

## Left out

- Overflow of the transaction id, an `int`: fewer calls are assumed than would overflow it.
- Decimals in payloads: the writer cuts them to one digit, so the round trips are stated for payloads without them; how the JSON library rounds and prints floating-point numbers is not modelled.
- The JSON library's in-place swaps and allocators; duplicate object keys are kept, as it keeps them.
- Memory-model effects: each access to a shared field is one step. In the pool model a start is one step, and nothing is claimed of what follows the use of an owner pointer that is null or changed.
- Concurrent submissions to one request FIFO: the empty check and the push are not atomic, so order is claimed for serialised submissions only.
- MessageFifo.RequestFifo.Push: does not model the wrap-around of the unsigned row id.
- The rewriting of negative transaction ids while the FIFO is drained and the updates that follow a StartTransaction answer.
- CallProtocol.AnswerCarriesOwnId: the error and message texts of the frame are stated for one thread only, by RpcBase.RpcBase.Call.
- DateTime.AssignOfStr: assumes that `mktime` finds an instant whose standard time is the given one; local times that a zone skips are not modelled, nor is the branch for the Microsoft compiler.
- Subcase filters, exceptions, assertion limits and hash collisions: signature stacks stand for their hashes.
- The overload of `fromString` that returns the first table entry for unknown names: the iteration order of a hash table decides it.
- Websocket transport, TLS, credentials, spies, logging, reporters, configuration, data types and the charge point and central system applications: callbacks, input and output, or plain data that would only add easy members.
