# A verified model of luwu

luwu is a fiber server framework in C++ with an HTTP and WebSocket stack and a chat server on top. This project models
its hard parts in Dafny and proves what they promise. `dafny verify dfyconfig.toml` checks everything.

## What is here

**The HTTP parser.** `HttpGrammar` and `HttpStep` give a byte-at-a-time reference of `http_parser_execute` (strict mode,
callbacks returning 0): one handler per state, and `Run` over a byte string. `HttpInvariant` is what every byte keeps,
`HttpMarks` relates marks and data callbacks to the bytes they announce, `HttpTracking` says when the real loop is where
the reference is. The three bulk paths (`HttpFieldBulk`, `HttpValueBulk`, and the body path in `HttpExecute`) are loops
proved against it. `HttpSplit` concludes that cutting the input anywhere makes no difference. What the reference does is
then stated on whole inputs: `HttpStartLine`, `HttpTarget` and `HttpStatusLine` read first lines, `HttpHeaders` and
`HttpConnection` header lines, `HttpBody` bodies, `HttpLineEnds` line ends; `HttpMessage` puts them together to whole
requests and replies, and `HttpPipeline` to requests in a row, in any buffers.

**The reactor.** `IoEvents` holds the fd contexts, the epoll table, the pending counter and the task queue as values;
`IoManager` is the object updated in place, proved against them, with conservation over whole runs. `HookedIo` is the
`do_io` protocol (event, timeout, retry) as a state machine over one dispatching thread. `WorkerPool` is
`Scheduler::run` for any number of workers at lock steps. `TimerSet` and `TimerManager` are the ordered timer set, its
notification promise and the idle loop's sleep. In `TimerSet` a timer object is addressed by a number, because the
comparator orders by address; the set is the sequence of addresses in the comparator's order. `Timetable` computes from
the actions and the clock alone when each timer is due, and proves that the set follows it.

**ByteArray.** `ByteBlocks` treats a chain of blocks as one flat string; `ByteArray` is the linked list on the heap with
its cursor, proved against that string; `ByteCodec` has the typed encodings and `ByteStream` the typed readers and
writers over the list and the socket stream that fills it in place.

**WebSocket.** `Streams` models partial reads and writes: a read delivers any nonempty part of what was asked for, and 0
once nothing more arrives. `WebSocket` has frames as byte strings and a reference receiver, `WsWire` the wire format
byte by byte, `WsSession` the send and receive loops.

**URLs, codecs, chat.** `UrlGrammar` is the URL parser on strings, `UrlHost` treats bracketed hosts, `UrlSpelling` says
that an accepted URL is its parts and delimiters, `UrlParser` has the loops that fill in offsets, `Uri` the printer and
its inverse; `Base64`, `Hex`, `UrlCodec` and `QueryParams` are the smaller codecs; `ChatRoom` is the chat
servlet.

## Where the code does not keep a promise

Each entry names the lemma with the exact condition, and the one with an input.

- `Timer::cancel` after the timer's callback was handed out reaches `erase(end())`, because timer.cpp:162 is commented
  out (`TimerSet.CancelErasesEndWhen`, `TimerSet.FiredTimerErasesEnd`). `do_io` does so exactly when it reports ETIMEDOUT
  (`HookedIo.CancelMissesFiredTimer`, `HookedIo.TimesOut`). The model takes the intended no-op.
- The idle loop converts the wait to `int`, so a wait with bit 31 set becomes no timeout at all
  (`TimerManager.SleepBounded`, `TimerManager.LongWaitNeverEnds`).
- An interrupted epoll_wait is repeated with the same timeout, so the loop can sleep past a deadline and past 3000 ms
  (`TimerManager.WakesInTimeExactlyWhen`, `TimerManager.InterruptedSleepIsLate`).
- A task submitted late can be lost (`WorkerPool.RunsExactlyWhen`, `WorkerPool.LostWhileLeaving`).
- The WebSocket limit test adds in 64 bits; a length near 2^64 wraps it, passes, and is read past the buffer
  (`WebSocket.LimitKept`, `WebSocket.LimitWraps`).
- The WebSocket receiver counts the message and bounds its unmasking loop in 32-bit ints, so a configured limit above
  2^31 is not kept (`WebSocket.LimitRightExactlyWhen`, `WebSocket.LimitAboveInt`) and a masked frame of that size is not
  unmasked (`WebSocket.LargeFrameStaysMasked`).
- An empty WebSocket message counts as a failure although its header has gone out (`WsSession.SendMessage`); the answer
  to a message of 2^31 - 2 bytes is negative (`WsSession.AnswerPositive`).
- `SocketStream::read` into a ByteArray takes the socket's -1 for 2^64 - 1 received bytes and so moves the cursor one
  back, or throws at position 0 (`ByteStream.SocketRead`).
- A text longer than its length prefix can say comes back cut (`ByteCodec.TextSurvivesIff`, `ByteCodec.LongTextIsCut`).
- A URI whose host is an IPv6 literal is printed without brackets (`Uris.PrintedUriReadsBack`,
  `Uris.LoopbackIsNotReadBack`).
- A space written as a plus sign survives only a decoder in the same mode (`UrlCodec.DecodeEncode`,
  `UrlCodec.SpaceComesBackAsPlus`). The table at ext.cpp:52 also leaves `=` unescaped, which its comment at ext.cpp:97
  does not say; a key with `=` is cut there (`QueryParams.PairsComeBackExactlyWhen`, `QueryParams.EqualsKeyIsCut`).
- A beginning of `keep-alive`, `close` or `upgrade` right before a comma, an empty element, or a tab after a comma makes
  the parser miss what follows in a Connection value (`HttpConnection.AllHeardExactlyWhen`,
  `HttpConnection.CloseIsMissed`).
- In the general header-value fast path the parser can step over one byte unexamined (http_parser.c:1499-1517). The proof
  of `HttpValueBulk.ValueBulk` shows why that is harmless: it takes a stretch that breaks the header limit anyway.

## Model

| member | source | states |
|---|---|---|
| HttpInvariant.InitInv | luwu/luwu/http/http-parser/http_parser.c:2147-2156 | a fresh parser satisfies the invariant |
| HttpInvariant.StepKeepsInv | luwu/luwu/http/http-parser/http_parser.c:707-2052 | every byte that does not fail keeps the parser's invariant: counter within the limit, match index within its word, lengths in range in each body state, so the internal assertions hold |
| HttpTracking.RunConcat | luwu/luwu/http/http-parser/http_parser.c:638-2084 | the reference run over two strings in a row is the run over the second from where the first ended, with events appended |
| HttpMarks.ApplyOpsView | luwu/luwu/http/http-parser/http_parser.c:80-145 | carrying out a handler's mark and callback requests announces exactly the bytes the requests stand for, with at most one mark open |
| HttpMarks.DispatchFits | luwu/luwu/http/http-parser/http_parser.c:723-2045 | in every state a handler asks only for callbacks on the mark that is open there |
| HttpFieldBulk.FieldBulk | luwu/luwu/http/http-parser/http_parser.c:1248-1382 | the header-name fast path over any stretch does what the reference does byte by byte, including the header-size limit and the failing byte |
| HttpValueBulk.ValueBulk | luwu/luwu/http/http-parser/http_parser.c:1469-1668 | the header-value fast path, with its search for the line end, does what the reference does byte by byte |
| HttpExecute.BodyBulk | luwu/luwu/http/http-parser/http_parser.c:1873-1915 | fixed-length, until-close and chunk data taken in one piece equal the bytes taken singly, with message_complete after the last |
| HttpExecute.SwitchByte | luwu/luwu/http/http-parser/http_parser.c:707-722 | one trip round the loop for a state without a fast path |
| HttpExecute.Flush | luwu/luwu/http/http-parser/http_parser.c:2054-2075 | at the end of a buffer at most one mark is set, and its data is announced once |
| HttpExecute.Execute | luwu/luwu/http/http-parser/http_parser.c:638-2084 | one call ends in the reference's parser with the reference's events and consumed count, fails exactly when the reference fails, and handles the end-of-input call state by state |
| HttpSplit.Feed | luwu/luwu/http/http-parser/http_parser.c:638-2084 | feeding pieces one call after another equals the reference on their concatenation |
| HttpSplit.SameForAnyCut | luwu/luwu/http/http-parser/http_parser.c:638-2084 | any cut of the same bytes: same final parser, same notifications and same concatenated data as one call, for error-free runs without upgrade; a failing input fails however it is cut |
| HttpSplit.LeftMeansUpgrade | luwu/luwu/http/http-parser/http_parser.c:1826-1868 | a run stops inside a buffer only for an upgrade |
| HttpHeaders.InterpretedNames | luwu/luwu/http/http-parser/http_parser.c:1258-1364 | the matcher takes a name, in any case, for an interpreted one exactly when it is one of the five words it matches |
| HttpHeaders.OneField | luwu/luwu/http/http-parser/http_parser.c:1205-1760 | one line with any name, any blanks and any value, also an empty one: its name and value are announced and the next line can begin, or it is refused |
| HttpHeaders.ManyFields | luwu/luwu/http/http-parser/http_parser.c:1205-1760 | any lines in a row are accepted line by line, or the parser fails |
| HttpHeaders.PlainField | luwu/luwu/http/http-parser/http_parser.c:1384-1466 | a line named neither Content-Length, Transfer-Encoding nor Upgrade is accepted and leaves length, encoding and upgrade alone |
| HttpHeaders.AllAcceptedWithoutLength | luwu/luwu/http/http-parser/http_parser.c:1469-1668 | only a Content-Length line can be refused |
| HttpBody.ContentLengthExact | luwu/luwu/http/http-parser/http_parser.c:1423-1557 | a Content-Length line is accepted exactly when the value of all its digits is at most 2^64 - 7, and then that value is held, never the sentinel |
| HttpBody.ContentLengthLine | luwu/luwu/http/http-parser/http_parser.c:1423-1557 | from the beginning of the line: announced whole, or failing |
| HttpBody.FixedLengthMessage | luwu/luwu/http/http-parser/http_parser.c:1423-1907 | a length line among any other plain lines, the blank line, and as many bytes as the digits say: exactly those are delivered, and message_complete fires once after them |
| HttpBody.ChunkSizeExact | luwu/luwu/http/http-parser/http_parser.c:1941-1976 | a chunk size is accepted exactly when its value is at most 2^64 - 17, and then it is exact |
| HttpBody.IdentityBody | luwu/luwu/http/http-parser/http_parser.c:1873-1907 | a body of accepted length n delivers exactly the next n bytes, then message_complete once |
| HttpBody.OneChunk | luwu/luwu/http/http-parser/http_parser.c:1925-2045 | one chunk with extension gives its header notice with the exact size, its bytes, and its completion |
| HttpBody.ChunkedMessage | luwu/luwu/http/http-parser/http_parser.c:1916-2045 | from the first size line: any list of chunks, the last chunk and any trailer, interpreted names included: the events in order, message_complete once, after the trailer; failing exactly when a trailer line is refused |
| HttpBody.ChunksDelivered | luwu/luwu/http/http-parser/http_parser.c:2007-2045 | the body data of those events concatenates to the chunks |
| HttpStartLine.MethodExactly | luwu/luwu/http/http-parser/http_parser.c:920-1014 | a word before the first space is accepted exactly when it is the name of one of the 34 methods, which the parser then holds; message_begin is announced |
| HttpStartLine.TargetExactly | luwu/luwu/http/http-parser/http_parser.c:1016-1087 | a target is announced whole exactly when the URL states accept it, and refused otherwise |
| HttpStartLine.RequestLineRead | luwu/luwu/http/http-parser/http_parser.c:920-1196 | any request line: method and version recorded, target announced, flags and length of an earlier message forgotten |
| HttpStartLine.SimpleRequest | luwu/luwu/http/http-parser/http_parser.c:1068-1079 | a line that ends with the target is a request of HTTP/0.9 |
| HttpStartLine.IceName | luwu/luwu/http/http-parser/http_parser.c:1089-1124 | SOURCE may name the protocol ICE |
| HttpTarget.OriginForm | luwu/luwu/http/http-parser/http_parser.c:490-636 | a path from the root with or without a query is an accepted target |
| HttpTarget.AbsoluteForm | luwu/luwu/http/http-parser/http_parser.c:490-636 | every printed URI is an accepted target |
| HttpTarget.AuthorityForm | luwu/luwu/http/http-parser/http_parser.c:1016-1030 | host and port are an accepted target of CONNECT |
| HttpTarget.AsteriskForm | luwu/luwu/http/http-parser/http_parser.c:504-522 | the asterisk is an accepted target |
| HttpStatusLine.CodeExactly | luwu/luwu/http/http-parser/http_parser.c:843-898 | a status code is accepted exactly when its value is at most 999, and is then the parser's |
| HttpStatusLine.StatusLineRead | luwu/luwu/http/http-parser/http_parser.c:763-919 | any status line: version and code recorded, the reason phrase announced, or the code refused |
| HttpStatusLine.KindDecided | luwu/luwu/http/http-parser/http_parser.c:723-761 | a parser for both kinds of message goes on as one for replies after `HT` and as one for requests after `HE` |
| HttpStatusLine.UndecidedOther | luwu/luwu/http/http-parser/http_parser.c:723-745 | on any other first letter it is a parser for requests |
| HttpLineEnds.BareLineFeed | luwu/luwu/http/http-parser/http_parser.c:1169-1196 | wherever a line may end, a bare line feed does what carriage return and line feed do |
| HttpLineEnds.FoldedLine | luwu/luwu/http/http-parser/http_parser.c:1681-1692 | a blank at the start of a line continues the value before it |
| HttpConnection.EncodingField | luwu/luwu/http/http-parser/http_parser.c:1412-1419 | a Transfer-Encoding line makes the message chunked exactly when its value is `chunked` in any case and spaces |
| HttpConnection.ConnectionField | luwu/luwu/http/http-parser/http_parser.c:1441-1655 | a Connection line leaves in the flags what its elements, cut at the commas, are heard to say |
| HttpConnection.OptionTakesEffect | luwu/luwu/http/http-parser/http_parser.c:1575-1655 | a flag is set exactly when one of the elements heard is its word |
| HttpConnection.AllHeardExactlyWhen | luwu/luwu/http/http-parser/http_parser.c:1575-1655 | every element is heard exactly when each but the last is not empty, not a cut-short word and begins like a token |
| HttpConnection.CutShortHidesNext | luwu/luwu/http/http-parser/http_parser.c:1595-1625 | a beginning of one of the words right before a comma hides whatever is behind the comma |
| HttpConnection.CloseIsMissed | luwu/luwu/http/http-parser/http_parser.c:1595-1625 | `k,close` sets no flag although its second element is `close` |
| HttpMessage.HeaderMeans | luwu/luwu/http/http-parser/http_parser.c:1198-1755 | any header lines: refused exactly for a second or too large length; otherwise flags and length are those the lines stand for and nothing else has changed |
| HttpMessage.MessageRefused | luwu/luwu/http/http-parser/http_parser.c:1757-1800 | a header is refused exactly for a second length, one that cannot be held, or one beside chunks |
| HttpMessage.MessageHandsOver | luwu/luwu/http/http-parser/http_parser.c:1757-1845 | CONNECT, or an upgrade both header lines ask for, without a body: the parser leaves behind the blank line with the rest unread |
| HttpMessage.UpgradeWithBody | luwu/luwu/http/http-parser/http_parser.c:1834-1923 | an upgrade with a body of known length delivers the body and then leaves |
| HttpMessage.MessageOver | luwu/luwu/http/http-parser/http_parser.c:2089-2127 | after a message the parser waits for the next one exactly when its version and Connection options keep the connection open, and is dead otherwise; only a trailer still counts against the header limit |
| HttpMessage.WholeRequest | luwu/luwu/http/http-parser/http_parser.c:638-2084 | every request from its first byte to its last: message_begin, target, fields and values, headers_complete, the body its lines announce (none, so many bytes, or chunks with any trailer), one message_complete; and the state after it |
| HttpMessage.WholeReply | luwu/luwu/http/http-parser/http_parser.c:638-2084 | the same for every reply; 1xx, 204 and 304 end with the header, and without a length everything until the close is body |
| HttpMessage.BodyDelivered | luwu/luwu/http/http-parser/http_parser.c:1873-2045 | the body data among a message's events is exactly its content |
| HttpPipeline.RequestsRead | luwu/luwu/http/http-parser/http_parser.c:638-2084 | any requests in a row on a connection kept open are announced in full, in order |
| HttpPipeline.Serve | luwu/luwu/http/http-parser/http_parser.c:638-2084 | the same bytes cut into any buffers and fed to a fresh parser give exactly these callbacks |
| IoEvents.ResizeKeeps | luwu/luwu/iomanager.cpp:73-82 | growing the table adds only idle contexts, slot i holding fd i, and changes nothing counted or registered |
| IoEvents.TriggerOneKeeps | luwu/luwu/iomanager.cpp:34-45 | a triggered continuation moves from its slot to the queue, once; its bit was set and the counter positive |
| IoEvents.AddEventKeeps | luwu/luwu/iomanager.cpp:95-147 | arming is always a legal epoll operation, succeeds exactly when the kernel accepts, and adds one owed run |
| IoEvents.AddEventArms | luwu/luwu/iomanager.cpp:95-147 | an accepted arming puts the continuation into the slot of that event on that fd; every other event and slot is as before |
| IoEvents.TakeEventKeeps | luwu/luwu/iomanager.cpp:149-215 | cancelling moves the continuation to the queue, deleting drops it, exactly when the event was armed and the kernel accepted; nothing changes otherwise |
| IoEvents.TakeEventTakes | luwu/luwu/iomanager.cpp:149-215 | an accepted cancel or delete leaves that event disarmed and every other as before; a cancel appends its continuation to the queue |
| IoEvents.CancelAllKeeps | luwu/luwu/iomanager.cpp:217-253 | every armed event of the fd is triggered, nothing lost, the mask is empty |
| IoEvents.CancelAllTakes | luwu/luwu/iomanager.cpp:217-253 | both slots of the fd are emptied and their continuations appended, READ first; other fds are untouched |
| IoEvents.ReportKeeps | luwu/luwu/iomanager.cpp:324-369 | one epoll report, errors included, keeps the invariant, loses and repeats nothing and leaves other fds alone |
| IoEvents.ReportWakes | luwu/luwu/iomanager.cpp:331-369 | each armed event that is ready, or any armed one on an error, loses its bit and slot and its continuation is appended, READ first; every other event keeps both; the counter drops by as many |
| IoManager.IOManager.ContextResize | luwu/luwu/iomanager.cpp:73-82 | the loop fills the table up to the size |
| IoManager.IOManager.TriggerEvent | luwu/luwu/iomanager.cpp:34-45 | the method does what the value operation says, callback before fiber |
| IoManager.IOManager.AddEvent | luwu/luwu/iomanager.cpp:95-147 | keeps the invariant and does what the value operation says |
| IoManager.IOManager.DelEvent | luwu/luwu/iomanager.cpp:149-182 | keeps the invariant and does what the value operation says |
| IoManager.IOManager.CancelEvent | luwu/luwu/iomanager.cpp:184-215 | keeps the invariant and does what the value operation says |
| IoManager.IOManager.CancelAll | luwu/luwu/iomanager.cpp:217-253 | keeps the invariant and leaves no event of the fd |
| IoManager.IOManager.OnReport | luwu/luwu/iomanager.cpp:331-369 | the body of the idle loop, with its error bits and its refused epoll call |
| IoManager.IOManager.OnBatch | luwu/luwu/iomanager.cpp:324-369 | the loop over a whole batch equals the reports one by one |
| IoManager.BatchWakes | luwu/luwu/iomanager.cpp:324-369 | a whole batch: exactly the covered armed events of each reported fd are cleared and their continuations appended in order |
| IoManager.RunConserves | luwu/luwu/iomanager.cpp:95-253 | over every run: counter, slots, masks and epoll table agree, and each armed continuation is run once, dropped once, or still owed once |
| IoManager.NothingOwedExactlyWhen | luwu/luwu/iomanager.cpp:275-278 | with an empty queue, the pending counter is zero exactly when no continuation is owed a run |
| HookedIo.NextWf | luwu/luwu/hook.cpp:114-156 | every step of the hooked call, of others' cancels and closes, and of the idle round keeps the protocol's invariant |
| HookedIo.ResumedOnce | luwu/luwu/hook.cpp:114-156 | in every reachable state a call was resumed once per suspension but for the one it is in, which is owed exactly one; a finished call reports ETIMEDOUT exactly when its last timer's callback ran |
| HookedIo.NextPlaced | luwu/luwu/hook.cpp:114-156 | every step keeps a suspended fiber queued or in the slot of its own call's fd and event |
| HookedIo.TimeoutWakes | luwu/luwu/hook.cpp:124-134 | in every reachable state: a timeout callback whose cancel is accepted queues its call's fiber and leaves its event disarmed, whatever the event |
| HookedIo.ReadinessWakes | luwu/luwu/iomanager.cpp:331-369 | in every reachable state: a report that covers the event a call waits for queues its fiber |
| HookedIo.TurnComes | luwu/luwu/scheduler.cpp:157-186 | a task at position k of the queue is the head once k tasks have been taken, whatever else happens |
| HookedIo.TimeoutReported | luwu/luwu/hook.cpp:127-147 | after the callback the fiber has a place in the queue; when what stands before it is taken it is resumed and its call reports ETIMEDOUT |
| HookedIo.CallbackFindsItsCall | luwu/luwu/hook.cpp:127-134 | a timeout callback that runs always finds its own call still waiting on that attempt and unmarked |
| HookedIo.CancelMissesFiredTimer | luwu/luwu/hook.cpp:137-147 | a queued fiber is a waiting call; it reports ETIMEDOUT exactly when its timer's callback ran, which is exactly when the cancel looks up a timer that has left the set |
| HookedIo.TimesOut | luwu/luwu/hook.cpp:114-147 | a run in which the call times out and its timer has left the set |
| WorkerPool.Scheduler.FetchTask | luwu/luwu/scheduler.cpp:157-186 | the first task the thread may run leaves the queue, the rest keep their order, and others are woken exactly when something is left |
| WorkerPool.StepInv | luwu/luwu/scheduler.cpp:142-217 | every lock step of any worker keeps the counts, the pins and the stop condition |
| WorkerPool.QuietStays | luwu/luwu/scheduler.cpp:82-97 | once stopping() holds it holds for ever, if only tasks submit |
| WorkerPool.JobsConserved | luwu/luwu/scheduler.cpp:142-217 | in every reachable state a submitted task is queued, executing or done, exactly once; pins are respected; both counters count the workers they are named after |
| WorkerPool.EarliestFirst | luwu/luwu/scheduler.h:104-112 | of the queued tasks a worker may run its scan takes the one submitted first, and no later task with the same pin overtakes a queued one |
| WorkerPool.StopLosesNothing | luwu/luwu/scheduler.cpp:99-136 | once a worker has left run, every submitted task has run exactly once, on a thread its pin allows |
| WorkerPool.RunsExactlyWhen | luwu/luwu/scheduler.cpp:155-216 | a queued task can still come to be run exactly when some worker that may run it will look at the queue again |
| WorkerPool.StaysUntilTaken | luwu/luwu/scheduler.cpp:155-216 | such a worker goes on looking until somebody has taken the task |
| WorkerPool.LateSubmissionIsLost | luwu/luwu/scheduler.h:37-46 | a submission is never run once every worker has left or is about to |
| WorkerPool.LostWhileLeaving | luwu/luwu/scheduler.cpp:155-216 | a run that ends with the worker about to leave; whatever is submitted then is never run |
| TimerSet.ComparatorOrders | luwu/luwu/timer.cpp:10-28 | a strict total order in which only the same pointer is equivalent |
| TimerSet.FindFinds | luwu/luwu/timer.cpp:35-59 | lookup by key finds a timer exactly when it is in the set |
| TimerSet.CancelKeeps | luwu/luwu/timer.cpp:35-44 | after any cancel the timer is not pending and the invariant holds; the answer says whether there was a callback |
| TimerSet.CancelErasesEndWhen | luwu/luwu/timer.cpp:35-44 | the lookup fails exactly on a one-shot that has been handed out and not cancelled |
| TimerSet.FiredTimerErasesEnd | luwu/luwu/timer.cpp:135-165 | a run after which a cancel erases end() |
| TimerSet.RefreshKeeps | luwu/luwu/timer.cpp:46-59 | refresh keeps order and promise without a notification, and answers whether the timer was pending |
| TimerSet.ResetKeeps | luwu/luwu/timer.cpp:61-85 | reset keeps order and promise and announces a new front |
| TimerSet.AddTimerKeeps | luwu/luwu/timer.cpp:87-105 | adding keeps order and promise and announces a new front once |
| TimerSet.GetNextKeeps | luwu/luwu/timer.cpp:119-133 | asking for the next timer renews the promise for the deadline it saw |
| TimerSet.ListExpiredTakes | luwu/luwu/timer.cpp:135-165 | the callbacks of exactly the due timers, in deadline order; one-shots leave for good, recurring ones are re-armed at now plus period, others stay, and nothing due before now is left |
| TimerSet.RunInv | luwu/luwu/timer.cpp:35-165 | over every run with a nondecreasing clock the set stays ordered and either a notification is out or nothing is due before the deadline last seen |
| Timetable.RunFollows | luwu/luwu/timer.cpp:30-165 | over every run: a timer is pending exactly when the plan computed from the actions and the clock says so, with its deadline, period and callback; new, refreshed, reset in both modes, cancelled, handed out, re-armed |
| Timetable.HandedOutExactlyWhenDue | luwu/luwu/timer.cpp:135-165 | after any history listExpiredCb hands out exactly the timers whose plan is due, each once, with its callback, in deadline order |
| Timetable.WaitsForEarliest | luwu/luwu/timer.cpp:119-133 | after any history getNextTimer answers the time to the earliest deadline, 0 if it has passed, none exactly if nothing is pending |
| Timetable.OneShotRunsOnce | luwu/luwu/timer.cpp:30-165 | a one-shot added for ms and left alone is handed out by the first listing due after the adding time plus ms, and by no other |
| TimerManager.TimerManager.AddTimer | luwu/luwu/timer.cpp:87-105 | the method does what the value operation says |
| TimerManager.TimerManager.Cancel | luwu/luwu/timer.cpp:35-44 | the method does what the value operation says, for every timer |
| TimerManager.TimerManager.Refresh | luwu/luwu/timer.cpp:46-59 | the method does what the value operation says, under a later clock reading |
| TimerManager.TimerManager.Reset | luwu/luwu/timer.cpp:61-85 | the method does what the value operation says, including the early answer for an unchanged period |
| TimerManager.TimerManager.GetNextTimer | luwu/luwu/timer.cpp:119-133 | the wait to the earliest deadline, none for an empty set |
| TimerManager.TimerManager.ListExpiredCb | luwu/luwu/timer.cpp:135-165 | the loop over the expired timers does what the value operation says |
| TimerManager.SleepBounded | luwu/luwu/iomanager.cpp:296-306 | the sleep is at most 3000 ms and at most the wait exactly when bit 31 of the wait is clear; below 2^31 ms it is the lesser of the two |
| TimerManager.LongWaitNeverEnds | luwu/luwu/iomanager.cpp:296-306 | a wait of 2^31 ms becomes no timeout at all |
| TimerManager.WaitLoop | luwu/luwu/iomanager.cpp:297-313 | the retry loop sleeps the sum of its calls, each with the same timeout |
| TimerManager.LoopWithinTimeout | luwu/luwu/iomanager.cpp:297-313 | the whole wait stays within the timeout in every case exactly when the interrupted calls took no time |
| TimerManager.WakesInTimeExactlyWhen | luwu/luwu/iomanager.cpp:288-313 | with a timer due within 3000 ms: woken by its deadline in every case exactly when the interrupted calls took no time |
| TimerManager.InterruptedSleepIsLate | luwu/luwu/iomanager.cpp:297-313 | a timer added for 1000 ms, a wait interrupted after 900 ms and repeated: it ends 900 ms after the deadline |
| TimerManager.NeverOversleeps | luwu/luwu/iomanager.cpp:288-313 | whatever happens to the timers meanwhile, either one notification is out or each call of epoll_wait ends no later than every pending deadline and after at most 3000 ms; so does the whole wait if no time went into interrupted calls |
| ByteBlocks.FlattenWrite | luwu/luwu/bytearray.cpp:333-351 | writing inside one block is writing at that place of the flat string |
| ByteBlocks.FlattenRead | luwu/luwu/bytearray.cpp:367-385 | reading inside one block is reading at that place of the flat string |
| ByteArrays.ByteArray.CursorMeaning | luwu/luwu/bytearray.h:184-193 | capacity is base times blocks, position at most size at most capacity, the cursor's block is position over base, null exactly at capacity |
| ByteArrays.ByteArray.AddCapacity | luwu/luwu/bytearray.cpp:488-518 | room for the request with less than one block to spare, old bytes unchanged, cursor repaired |
| ByteArrays.ByteArray.Write | luwu/luwu/bytearray.cpp:322-356 | for every base size: the bytes stand at the cursor of the flat string, nothing else changes, cursor and size advance |
| ByteArrays.ByteArray.Read | luwu/luwu/bytearray.cpp:358-386 | the next bytes of the flat string, or an exception exactly when fewer are left |
| ByteArrays.ByteArray.SetPosition | luwu/luwu/bytearray.cpp:462-478 | any position up to the capacity, with the cursor's block found; size grows if passed |
| ByteArrays.ByteArray.Clear | luwu/luwu/bytearray.cpp:309-320 | one block left, nothing to read |
| ByteArrays.ByteArray.ToString | luwu/luwu/bytearray.cpp:520-528 | the readable part of the flat string, without changing anything |
| ByteArrays.ByteArray.GetReadBuffers | luwu/luwu/bytearray.cpp:530-559 | segments that concatenate to the next readable bytes, without changing anything |
| ByteArrays.ByteArray.GetWriteBuffers | luwu/luwu/bytearray.cpp:597-625 | segments that are the next bytes of the flat string, after growing it if needed |
| ByteArrays.ByteArray.Scatter | luwu/luwu/streams/socket_stream.cpp:39 | filling the segments in order is writing at that place of the flat string |
| ByteCodec.FixRoundTrip | luwu/luwu/bytearray.cpp:39-87 | fixed-width integers, signed or not, in either byte order, are read back |
| ByteCodec.FixByteAt | luwu/luwu/bytearray.cpp:26-87 | each byte of a fixed-width integer in two's complement: most significant first by default, least significant first on request |
| ByteCodec.VarintBuffers | luwu/luwu/bytearray.cpp:101-133 | at most 5 bytes for 32 bits and 10 for 64 |
| ByteCodec.VarintByteAt | luwu/luwu/bytearray.cpp:101-133 | each byte of a variable-length integer: seven bits, the least significant first, the top bit exactly on all but the last, no byte too many |
| ByteCodec.VarintRoundTrip | luwu/luwu/bytearray.cpp:227-261 | the reader's loop, with its bitwise or, recovers every value and stops after its bytes |
| ByteCodec.ZigzagRoundTrip | luwu/luwu/bytearray.cpp:89-118 | 2v for v at least 0 and -2v - 1 below; decoding inverts it for every integer, the smallest included |
| ByteCodec.DecodeEncode | luwu/luwu/bytearray.cpp:171-307 | every typed reader recovers what its writer wrote and leaves the rest |
| ByteCodec.TextSurvivesIff | luwu/luwu/bytearray.cpp:147-165 | a text comes back exactly when its length fits the prefix |
| ByteCodec.LongTextIsCut | luwu/luwu/bytearray.cpp:147-150 | 65536 bytes under a 16-bit prefix do not come back |
| ByteStream.WriteVarint | luwu/luwu/bytearray.cpp:101-110 | the loop writes the variable-length encoding |
| ByteStream.WriteItem | luwu/luwu/bytearray.cpp:39-165 | each typed writer writes the item's encoding at the cursor |
| ByteStream.ReadVarint | luwu/luwu/bytearray.cpp:227-239 | the loop reads what the decoder describes, on any bytes, exception included |
| ByteStream.ReadItem | luwu/luwu/bytearray.cpp:171-307 | each typed reader does what the decoder describes, on any bytes but those that make it read 0 bytes through a null block |
| ByteStream.RoundTrip | luwu/luwu/bytearray.cpp:39-307 | for every base size, cursor and list of mixed values: written, sought back and read, the list is the same and nothing is left; excluded is only an empty text last in a list that fills the last block |
| ByteStream.SocketRead | luwu/luwu/streams/socket_stream.cpp:33-44 | received bytes are in the array exactly as write would have put them; a failed receive moves the cursor one back or throws |
| Streams.Stream.ReadFixSize | luwu/luwu/streams/stream.cpp:8-20 | all the bytes under any schedule of partial reads, or 0 |
| Streams.Stream.WriteFixSize | luwu/luwu/streams/stream.cpp:34-46 | all the bytes under any schedule of partial writes, or 0 |
| WebSocket.HeadRoundTrip | luwu/luwu/http/ws_session.h:14-39 | the two header bytes hold and give back every field |
| WebSocket.MaskedTwice | luwu/luwu/http/ws_session.cpp:159-163 | masking twice restores the payload |
| WsWire.XorBit | luwu/luwu/http/ws_session.cpp:159-163 | each bit of the mask operation is the parity of the two bits |
| WsWire.FrameOnWire | luwu/luwu/http/ws_session.cpp:182-226 | every frame byte by byte: fin and opcode, mask bit and length or its form, a longer length most significant byte first, mask and masked payload or the payload |
| WsWire.ControlOnWire | luwu/luwu/http/ws_session.cpp:239-261 | a control header is the byte 128 plus opcode and a zero byte |
| WsWire.DataFromWire | luwu/luwu/http/ws_session.cpp:101-180 | any bytes of a data frame from anybody, opcode 0, 1 or 2, in any of the three length forms: unmasked and added to the message, which ends with the fin bit; a server refuses it unmasked |
| WsWire.OthersFromWire | luwu/luwu/http/ws_session.cpp:106-123 | opcode 9 is answered or fails, every other one is passed over |
| WebSocket.FormMinimal | luwu/luwu/http/ws_session.cpp:190-212 | no header announcing the same length is shorter |
| WebSocket.LimitKept | luwu/luwu/http/ws_session.cpp:142-147 | with its 32-bit count and 64-bit sum the limit test is right exactly when, below 2^31 bytes, the sum does not wrap, or, from there on, neither the message nor the wrapped sum is below the limit |
| WebSocket.LimitRightExactlyWhen | luwu/luwu/http/ws_session.cpp:104-147 | for all messages and lengths that do not wrap the sum, the test is right exactly when the limit is at most 2^31 |
| WebSocket.LimitAboveInt | luwu/luwu/http/ws_session.cpp:104-147 | under a limit of 2^31 + 1000, a frame past the limit that passes and one below it that is refused |
| WebSocket.LargeFrameStaysMasked | luwu/luwu/http/ws_session.cpp:159-163 | a masked frame of 2^31 bytes or more under a larger limit is not unmasked |
| WebSocket.LimitWraps | luwu/luwu/http/ws_session.cpp:142-158 | for every limit and payload, bytes on which the sum wraps to 0, the test passes, and the payload is read past the emptied buffer |
| WebSocket.PartBelowLimit | luwu/luwu/http/ws_session.cpp:142-164 | a frame that is taken keeps the message below the limit |
| WebSocket.ReceiveWire | luwu/luwu/http/ws_session.cpp:101-180 | any fragmentation of a message below the limit and below 2^31 bytes, with pings and pongs between: the first data opcode, all payloads in order, every ping answered, what follows untouched |
| WsSession.WSFrameMessage.XorInPlace | luwu/luwu/http/ws_session.cpp:217-220 | the loop masks in place, and masking again would restore |
| WsSession.SendMessage | luwu/luwu/http/ws_session.cpp:182-233 | the frame goes out whole or as far as the peer accepts; sent exactly for a nonempty payload that got through; the answer is cut to 32 bits; a client's message is left masked |
| WsSession.AnswerPositive | luwu/luwu/http/ws_session.cpp:229 | the answer is the size plus 2 exactly below 2^31 - 2 bytes, and negative there |
| WsSession.SendControl | luwu/luwu/http/ws_session.cpp:239-261 | the bare header, or a closed stream |
| WsSession.RecvMessage | luwu/luwu/http/ws_session.cpp:101-180 | under any schedule the loop, with its 32-bit count and loop bound, returns what the reference receiver returns, with one pong per ping, or closes; nothing is promised once it reaches outside its buffer |
| WsSession.Exchange | luwu/luwu/http/ws_session.cpp:101-261 | end to end: what one side sends in any fragments, below the limit and 2^31 bytes, the other returns |
| UrlGrammar.WalkInv | luwu/luwu/http/http-parser/http_parser.c:490-636 | each part has only its characters, begins as it must, and parts come in order |
| UrlGrammar.HostWalkInv | luwu/luwu/http/http-parser/http_parser.c:2176-2253 | user info, host and port have only their characters; other than host characters only inside brackets |
| UrlHost.BracketHost | luwu/luwu/http/http-parser/http_parser.c:2176-2253 | any IPv6 literal in brackets with an optional zone and port is taken: the host is what stands in the brackets |
| UrlParser.ParseHost | luwu/luwu/http/http-parser/http_parser.c:2258-2336 | accepts exactly the host grammar; the spans are the parts, in bounds and in order |
| UrlParser.Split | luwu/luwu/http/http-parser/http_parser.c:2345-2418 | the loop's spans are the parts the walk collects, in bounds and in order |
| UrlParser.PortValue | luwu/luwu/http/http-parser/http_parser.c:2438-2463 | the digits' value, refused exactly above 16 bits |
| UrlParser.ParseUrlFields | luwu/luwu/http/http-parser/http_parser.c:2345-2466 | accepts exactly the URLs of the grammar; fields in bounds, in order and disjoint |
| UrlSpelling.UrlIsItsParts | luwu/luwu/http/http-parser/http_parser.c:2345-2466 | an accepted URL is its parts joined by delimiters, and by nothing else |
| UrlParser.CreateUri | luwu/luwu/uri.cpp:10-63 | the URI built from the offsets is the one of the parts, with the scheme's default port |
| Uris.PrintedUriReadsBack | luwu/luwu/uri.cpp:82-97 | for every URL with a scheme: printing and creating again shows the same to every getter exactly when the host has only host characters |
| Uris.LoopbackIsNotReadBack | luwu/luwu/uri.cpp:82-97 | `http://[::1]/` is accepted and its URI is not read back |
| Base64.DecodeEncode | luwu/luwu/util/hash_util.cpp:136-242 | decoding inverts encoding on every byte string |
| Base64.EncodedAt | luwu/luwu/util/hash_util.cpp:204-242 | character k is the alphabet's at the k-th six bits, padding where there are none |
| Base64.AcceptedExactly | luwu/luwu/util/hash_util.cpp:136-198 | accepted are exactly whole groups of four symbols of which the last one or two may be padding |
| Base64.ValueIs | luwu/luwu/util/hash_util.cpp:152-173 | the decoder reads the same alphabet and nothing else |
| Base64.EncodedLength | luwu/luwu/util/hash_util.cpp:204-242 | 4 times the number of groups of three, rounded up |
| Base64.Base64Encode | luwu/luwu/util/hash_util.cpp:204-242 | the loop computes the encoding |
| Base64.Base64Decode | luwu/luwu/util/hash_util.cpp:136-198 | the loop computes the decoding, empty for any invalid input, and never writes past three quarters of the input length |
| Hex.DecodeEncode | luwu/luwu/util/hash_util.cpp:361-465 | decoding inverts encoding on every byte string |
| Hex.ToHexAt | luwu/luwu/util/hash_util.cpp:361-374 | each byte as its two lower-case digits, the high one first |
| Hex.EncodeDecode | luwu/luwu/util/hash_util.cpp:391-465 | accepted are exactly the even-length digit strings, and encoding gives them back in lower case |
| Hex.HexStringFromData | luwu/luwu/util/hash_util.cpp:361-374 | the loop computes the encoding |
| Hex.DataFromHexString | luwu/luwu/util/hash_util.cpp:391-465 | the loop computes the decoding, an exception for any invalid input |
| UrlCodec.DecodeEncode | luwu/luwu/ext.cpp:98-158 | decoding inverts encoding for each pair of space modes exactly when no space became an unread plus sign |
| UrlCodec.EscapedExactly | luwu/luwu/ext.cpp:52-127 | letters, digits, `-._~` and `=` go out as they are, a space as a plus sign in that mode, every other byte as a percent sign and two upper-case digits |
| UrlCodec.PlainTextStays | luwu/luwu/ext.cpp:129-158 | a text without a valid escape, and without a plus sign read as a space, is decoded to itself |
| UrlCodec.SpaceComesBackAsPlus | luwu/luwu/ext.cpp:98-158 | a single space in the two different modes |
| UrlCodec.UrlEncode | luwu/luwu/ext.cpp:98-127 | with its lazily made buffer the loop computes the plain character map |
| UrlCodec.UrlDecode | luwu/luwu/ext.cpp:129-158 | with its lazily made buffer the loop computes the plain decoding |
| QueryParams.InitQueryParam | luwu/luwu/http/http.cpp:163-189 | the loop inserts the decoded pairs in order, the first of equal keys staying |
| QueryParams.FirstPairStays | luwu/luwu/http/http.cpp:163-189 | a key is in the map exactly when some pair has it for strcasecmp, with the first such pair |
| QueryParams.PairsComeBackExactlyWhen | luwu/luwu/http/http.cpp:168-185 | encoded pairs joined by ampersands are parsed back exactly when no key holds `=` |
| QueryParams.EqualsKeyIsCut | luwu/luwu/http/http.cpp:168-185 | the key `=` comes back empty |
| QueryParams.QueryRecovers | luwu/luwu/http/http.cpp:168-185 | with such keys, distinct for strcasecmp, the map holds exactly the pairs |
| ChatRoom.NamesMatchConnections | chat/chat_servlet.cpp:24-143 | in every run a name maps to a connection exactly when that open connection logged in under it; names are unique and closing removes them |
| ChatRoom.RefusedNameIsTaken | chat/chat_servlet.cpp:69-73 | a login refused as existing names another open connection |
| ChatRoom.LoginRegisters | chat/chat_servlet.cpp:52-84 | a login registers its name exactly when it is not empty and free and the connection has none |
| ChatRoom.HoldsUntilClosed | chat/chat_servlet.cpp:24-143 | in every run a connection holds its name until it closes, and then the name is free at once |
| ChatRoom.ChatServlet.SessionNotify | chat/chat_servlet.cpp:132-143 | every registered session but the excepted one is told exactly once |
| ChatRoom.ChatServlet.Handle | chat/chat_servlet.cpp:41-114 | the answer code case by case, the registry afterwards, and who is told: all for a message, all others for a join or leave, nobody for a refusal |
| ChatRoom.ChatServlet.Reply | luwu/luwu/http/ws_server.cpp:33-43 | the answer goes to the sender; if it cannot be sent the connection is closed and the others told |
| ChatRoom.ChatServlet.OnClose | chat/chat_servlet.cpp:24-35 | the name is free again and all others are told once |

## Left out

- Callbacks that return a nonzero value, and the answers 1 and 2 of on_headers_complete: the model's callbacks return 0, so F_SKIPBODY is never set.
- HttpExecute.Execute: on a failing input only the failure is stated; which error comes first depends on the cut, because the fast paths test the header limit after a whole stretch; buffers are shorter than 2^32 less the header limit, so the 32-bit counter does not wrap.
- The C++ callback layer in luwu/luwu/http/http_parser.cpp: it stores each field or value piece by overwriting, so it does not share the parser's split independence.
- IoManager.RunConserves: one dispatching thread, so readiness reported is within the armed mask; the kernel may refuse any call, and error bits are modelled.
- HttpMessage.UpgradeWithBody: an upgrade request with a chunked body is in the reference, and so in Execute, but not among the whole messages.
- HttpSplit.SameForAnyCut: data is compared concatenated, so an empty data callback, such as that of an empty header value, is not observed.
- HookedIo.ResumedOnce: which timers expire and what the kernel reports is arbitrary; `connect` and `sleep` in hook.cpp, and the early returns of do_io for plain descriptors, are not modelled.
- TimerSet.RunInv: times are unbounded integers, not 64-bit ones.
- WorkerPool.StopLosesNothing: callbacks are one-shot; a fiber that reschedules itself while running on another thread is not protected (scheduler.cpp:172-175) and not modelled; the timers and pending events that IOManager::stopping also reads, before the lock, are not part of this machine.
- WorkerPool.RunsExactlyWhen: when a worker looks again is not timed; waking an idle one (tickle, hasIdleThreads) is not modelled.
- WsSession.RecvMessage: the payload of a ping is not consumed by the source, so pings here are bare headers, as WSPing sends them.
- ByteArrays.ByteArray.Read: reading 0 bytes at position equal to capacity goes through a null block in the source and is excluded.
- ByteArray file I/O, the positional overloads of read and getReadBuffers, and float and double (copies of the fixed-width bits) would add only easy or undefined members.
- SocketStream::write from a ByteArray: it hands the byte count to the socket as the number of segments (socket_stream.cpp:59), so there is no behaviour to model.
- Streams.Stream.ReadFixSize: a stream's -1 is not modelled; the unsigned result would be taken for a length.
- UrlParser.ParseUrlFields: inputs are shorter than 64 KiB, so the 16-bit offsets do not wrap.
- ChatRoom.ChatServlet.Handle: JSON parsing is the given request; time stamps are left out; a handler is atomic up to its answer because one worker switches only where it sends and the registry is read once, before the sends.
- Real sockets, epoll, pipes, context switching, locks, fibers' stacks, logging, configuration, start-up, addresses, hashing, servlet dispatch, the HTTP client pool and cookies.
