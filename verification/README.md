# Verification of the proxy and its libraries

Dafny models of the native code under `app/src/main/cpp`, with proofs about whole runs rather than single calls.

- `RingBuffer`, `ByteDeque`: the ring allocator and the growable byte deque of `hbuf.h`, as classes over arrays.
- `AppGlue`: the hand-shake between the UI thread and the app thread in `android_native_app_glue.c`.
- `ThreadPool`, `EventLoop`, `ObjectPool`: `hthreadpool.h`, the cross-thread events of `EventLoop.h`, and `hobjectpool.h`;
  `ThreadPoolRuns` builds the pool's runs: how far its guarantees go, and that its workers finish what was committed.
- `ProxyRoute`, `ProxyMessage`, `ProxyConn`: the routing table, the request parser and printer, and the connection
  state machine of `tsproxy.cpp`; `CText` holds the C string functions they use.
- `ResponseWriter`, `WebSocket`, `HMath`: the chunked and plain response writer against a decoder of section 7.1 of
  RFC 9112, message fragmentation against a receiver of section 5.4 of RFC 6455, and rounding and varints.
- `Backoff`: the reconnect delays of `TcpClient.h`.
- `Common`: options, bytes, and counting in a sequence.

`AppGlue`, `ThreadPool` and `EventLoop` are state machines: a step is one statement that other threads can see, `Legal`
runs are all interleavings of steps, and the main results hold of every legal run. `ProxyConn` has both a step function
with runs and a class whose methods, written in the order of the source, are proved to compute it.

## Where the code does not do what one would expect

Each item has a member that proves when it happens and when it does not.

- The ring can return NULL although a free span fits: when it is empty but head and tail rest in the middle, and when it
  is wrapped and only the skipped end is long enough (`RingBuffer.RefusalExact`; `RefusesWhileEmpty` and
  `RefusesBesideGap` give the calls).
- Asking again for the window already shown returns at once and leaves a TERM_WINDOW behind that later takes the window
  away (`AppGlue.RepeatedRequestFlickers`, `AppGlue.WindowLostExactly`).
- Two or more threads in `start` or `commit` can take the pool above its maximum (`ThreadPoolRuns.ExceedsMaxExactly`).
- A committed task can be left with no worker when the minimum or the maximum is not positive
  (`ThreadPoolRuns.StrandedExactly`).
- `wait` can return before a task committed ahead of its call has finished (`ThreadPoolRuns.WaitMissesExactly`): when
  another worker is just retiring, or when the compiler reads the thread count first and a thread is counted before the
  idle count is read.
- `HObjectPool` breaks its count when `Clear` is called while an object is out or being made, when an object that is not
  out is returned, and when a known one is added (`ObjectPool.HObjectPool.Clear`, `Return`, `Add`).
- `varint_encode` does not end for negative values (`HMath.EncodeEndsExactly`); `ceil2e` is 0 above half the word range
  (`HMath.Ceil2e`).
- `send` drops `fin = false` above 65535 bytes (`WebSocket.WebSocketChannel.Send`).
- A chunked response is malformed when a piece is empty, so also when `EndChunked` is followed by `End`, and when the
  headers were sent but no piece was (`ResponseWriter.HttpResponseWriter.SendChunks`); a NULL piece with a length leaves
  a chunk without its data (`ResponseWriter.NullChunkDecodes`).
- A body that was buffered before `EndHeaders` is lost when anything is written after it
  (`ResponseWriter.HttpResponseWriter.SendPlain`).
- "://" anywhere in a request target, even in its query, changes the path that is sent (`ProxyRoute.OriginFormExact`) and
  can change the route (`ProxyRoute.RoutedAlike`, `ProxyRoute.QueryDecidesRoute`).
- A negative content length is not passed on (`ProxyMessage.ReparsedFields`).
- A request body that is split over several reads never ends (`ProxyConn.SplitBodyNeverEnds`), and a body that is just
  CRLF is not passed on (`ProxyConn.ExchangeDelivered`).
- A step of the reconnect delay that wraps around 32 bits can give a shorter delay (`Backoff.ShrinksExactly`,
  `Backoff.DelayCollapses`); `Backoff.FollowsExactly` says when no delay is affected.

## Model

| member | source | states |
|---|---|---|
| RingBuffer.RingBuf.constructor | app/src/main/cpp/include/hv/hbuf.h:209 | an empty ring of the given capacity |
| RingBuffer.RingBuf.Alloc | app/src/main/cpp/include/hv/hbuf.h:212-235 | NULL exactly when `Refuses`; otherwise the block lies at the tail, or at the start when it only fits there, and the tail moves past it; it becomes the youngest live block, every older one keeps its place and bytes, the size grows by the length |
| RingBuffer.RingBuf.Free | app/src/main/cpp/include/hv/hbuf.h:237-246 | given the oldest block's length, exactly that block leaves the queue; the head moves past it, across the skipped end if need be; all others keep place and bytes; head meets tail when none is left |
| RingBuffer.RingBuf.Clear | app/src/main/cpp/include/hv/hbuf.h:248 | no block is live and the fields are at 0 |
| RingBuffer.RingBuf.Fill | app/src/main/cpp/include/hv/hbuf.h:212-235 | a caller that fills its block changes no other live block |
| RingBuffer.LiveBlocksDisjoint | app/src/main/cpp/include/hv/hbuf.h:212-246 | live blocks lie inside the buffer and no two overlap |
| RingBuffer.GapFromFields | app/src/main/cpp/include/hv/hbuf.h:212-246 | whether the ring is wrapped and how many bytes it skipped follow from head, tail and size alone; the size is the total of the live blocks |
| RingBuffer.WrapInference | app/src/main/cpp/include/hv/hbuf.h:239-245 | the freed length exceeds what is left to the end exactly when the oldest block is the first one after the skipped end |
| RingBuffer.OccupiedExactly | app/src/main/cpp/include/hv/hbuf.h:214-232 | which bytes belong to live blocks, from the fields |
| RingBuffer.FreeSpanExactly | app/src/main/cpp/include/hv/hbuf.h:214-232 | a free span of a length exists exactly up to `LongestFree` |
| RingBuffer.RefusalExact | app/src/main/cpp/include/hv/hbuf.h:212-235 | NULL although a span fits happens exactly in the empty and the wrapped state with the given lengths; in a non-empty unwrapped state NULL means no span fits |
| RingBuffer.RefusesWhileEmpty | app/src/main/cpp/include/hv/hbuf.h:214-225 | for every capacity and resting place, the calls after which an empty ring refuses every length above its larger side |
| RingBuffer.RefusesBesideGap | app/src/main/cpp/include/hv/hbuf.h:227-232 | for all block lengths that leave a gap and wrap, the calls after which a length that fits the gap is refused |
| ByteDeque.HVLBuf.constructor | app/src/main/cpp/include/hv/hbuf.h:122 | an empty deque of the given capacity |
| ByteDeque.HVLBuf.PushFront | app/src/main/cpp/include/hv/hbuf.h:128-144 | prepends; grows to twice the larger of capacity and length exactly when the bytes do not fit, and moves what it holds to the end exactly when there is too little room in front; all moves and copies are in range |
| ByteDeque.HVLBuf.PushBack | app/src/main/cpp/include/hv/hbuf.h:146-159 | appends; same growth; what it holds moves to the start exactly when only the room behind it is too small; after growing no move is needed |
| ByteDeque.HVLBuf.PopFront | app/src/main/cpp/include/hv/hbuf.h:161-170 | returns and drops exactly the first bytes, or does nothing when there are too few |
| ByteDeque.HVLBuf.PopBack | app/src/main/cpp/include/hv/hbuf.h:172-179 | returns and drops exactly the last bytes, or does nothing when there are too few |
| ByteDeque.HVLBuf.Clear | app/src/main/cpp/include/hv/hbuf.h:181-183 | the deque is empty |
| ByteDeque.HVLBuf.Replay | app/src/main/cpp/include/hv/hbuf.h:128-199 | over any run of operations the deque holds what a plain byte sequence would hold; its capacity never shrinks |
| AppGlue.StepKeepsInv | app/src/main/cpp/src/android_native_app_glue.c:83-162 | every step of either thread keeps the hand-shake, wake-up, saved-state and window invariants |
| AppGlue.RequestsReachFields | app/src/main/cpp/src/android_native_app_glue.c:83-162 | in every interleaving the outstanding commands, applied to the current fields, give the window, input queue and activity state last requested; exactly the current non-NULL input queue is attached |
| AppGlue.CallsReturnAsAsked | app/src/main/cpp/src/android_native_app_glue.c:281-313 | when a waiting call returns, the field it waited for has the requested value; a save request returns the block made for it |
| AppGlue.AppEffect | app/src/main/cpp/src/android_native_app_glue.c:83-162 | a step of the app thread leaves window, input and state alone or completes the first outstanding command |
| AppGlue.StepKeepsWake | app/src/main/cpp/src/android_native_app_glue.c:284-309 | a sleeper that nobody has woken has nothing to wake up for, after every step |
| AppGlue.Drain | app/src/main/cpp/src/android_native_app_glue.c:48-56 | an app thread that keeps polling empties the pipe in `Work(s)` steps |
| AppGlue.DrainedMeetsWait | app/src/main/cpp/src/android_native_app_glue.c:284-309 | whenever nothing is posted or half done, the condition a sleeping UI thread waits for holds and it has been woken |
| AppGlue.EveryWaitEnds | app/src/main/cpp/src/android_native_app_glue.c:284-309 | every run of the app thread alone can go on until `Work(s)` steps are done, never takes more, and then the condition a UI thread sleeps on holds and it has been woken |
| AppGlue.NullWindowStays | app/src/main/cpp/src/android_native_app_glue.c:291-304 | after `set_window(NULL)` returns the window stays NULL over every run that asks for no other window |
| AppGlue.SteadyWindow | app/src/main/cpp/src/android_native_app_glue.c:291-304 | as long as no request repeats the non-NULL window last requested, the window outside a call is the one last requested, with no window command outstanding |
| AppGlue.WindowLostExactly | app/src/main/cpp/src/android_native_app_glue.c:291-304 | in every reachable state outside a call, the window shown can be lost before the next window request exactly when a TERM_WINDOW is outstanding |
| AppGlue.TermTakesEffect | app/src/main/cpp/src/android_native_app_glue.c:110-113 | an outstanding TERM_WINDOW does take the window away |
| AppGlue.RepeatedRequestFlickers | app/src/main/cpp/src/android_native_app_glue.c:291-304 | a request for a non-NULL window returns before the app thread does anything exactly when that window is the one last requested; a TERM_WINDOW is then outstanding and later sets the window to NULL |
| AppGlue.SavedStateOwnership | app/src/main/cpp/src/android_native_app_glue.c:38-46 | every saved-state block is freed once or handed over once, never both; the glue frees only the initial block, so a late RESUME frees no block made for a save request |
| AppGlue.AppKeepsLedger | app/src/main/cpp/src/android_native_app_glue.c:150-160 | no step of the app thread loses or doubles a saved-state block |
| AppGlue.MutexRespected | app/src/main/cpp/src/android_native_app_glue.c:38-162 | which steps of the app thread go on while the UI thread holds the mutex; they change no shared field but the block with which the application answers |
| AppGlue.WakesExactly | app/src/main/cpp/src/android_native_app_glue.c:83-162 | with which commands, and when, the app thread wakes the sleeper |
| ThreadPool.StepKeepsInv | app/src/main/cpp/include/hv/hthreadpool.h:62-210 | every step of a worker, of a thread in `start` or `commit`, or of the waiter keeps the lock, queue, count, bound, join, serve and wait invariants |
| ThreadPool.IdleCount | app/src/main/cpp/include/hv/hthreadpool.h:143-210 | in every interleaving idle threads = threads - busy workers - half-added threads + half-deleted ones |
| ThreadPool.WaitMeansDone | app/src/main/cpp/include/hv/hthreadpool.h:102-110 | a `wait` that returns with nobody committing, starting or retiring since its call returns only when every committed task has finished |
| ThreadPool.WaitBesideCommits | app/src/main/cpp/include/hv/hthreadpool.h:102-110 | a `wait` that reads the idle count first and returns, with nobody retiring since its call, returns only when every task committed before the call has finished, whatever is committed meanwhile |
| ThreadPool.TasksInOrder | app/src/main/cpp/include/hv/hthreadpool.h:129-170 | tasks are taken in commit order; each popped task is finished or on exactly one worker; `front()` never meets an empty queue |
| ThreadPool.ThreadBounds | app/src/main/cpp/include/hv/hthreadpool.h:62-188 | with n threads in `start` or `commit` the count stays at most max + n - 1 (0 when no thread can be made), and retirement never takes it below the minimum |
| ThreadPoolRuns.MaxReached | app/src/main/cpp/include/hv/hthreadpool.h:62-71 | for all limits and numbers of calling threads, a run that counts as many threads as `ThreadBounds` allows: all call `start` at once and pass its status test before the first sets the status |
| ThreadPoolRuns.ExceedsMaxExactly | app/src/main/cpp/include/hv/hthreadpool.h:62-142 | some run counts more than the maximum exactly when the maximum is positive and at least two threads call |
| ThreadPoolRuns.NoTaskStranded | app/src/main/cpp/include/hv/hthreadpool.h:156-161 | with positive limits, from the first commit on some worker is neither gone nor retiring |
| ThreadPoolRuns.StrandedExactly | app/src/main/cpp/include/hv/hthreadpool.h:120-161 | a run that ends with a queued task, every worker gone and no client in a call exists exactly when a client exists and the minimum or the maximum is not positive |
| ThreadPoolRuns.EveryTaskFinishes | app/src/main/cpp/include/hv/hthreadpool.h:143-175 | with positive limits, from every reachable state with no client in a call some run of the workers alone finishes every committed task and leaves the workers waiting or gone |
| ThreadPoolRuns.WaitMissesExactly | app/src/main/cpp/include/hv/hthreadpool.h:62-110 | some run lets `wait` return before a task committed ahead of its call has finished exactly when max >= 1 and either two threads call, or one does and min < max |
| ThreadPoolRuns.RetiringHidesTask | app/src/main/cpp/include/hv/hthreadpool.h:193-194 | one way, for all limits with room and either order of the two reads: a worker between its two decrements hides one that runs the task |
| ThreadPoolRuns.AddingHidesTask | app/src/main/cpp/include/hv/hthreadpool.h:104 | another, for two callers: the thread count is read first, and a thread of a `start` is counted before the idle count is read |
| ThreadPoolRuns.StrandedTaskHidden | app/src/main/cpp/include/hv/hthreadpool.h:104 | the third, for one caller and no minimum: a stranded task is run by the next commit's thread, which is counted between the two reads |
| ThreadPoolRuns.StartTriesAll | app/src/main/cpp/include/hv/hthreadpool.h:62-71 | whatever other threads do, the loop of `start(k)` calls `createThread` k times, but no fewer than the minimum and no more than the maximum, even when calls fail |
| ThreadPoolRuns.StartMakesThreads | app/src/main/cpp/include/hv/hthreadpool.h:62-71 | a call `start(k)` that nothing interrupts makes exactly that many threads, all counted and idle |
| ThreadPool.JoinSafe | app/src/main/cpp/include/hv/hthreadpool.h:190-210 | `delThread` joins only a thread that has let go of both mutexes, never itself |
| ThreadPool.WorkerFrame | app/src/main/cpp/include/hv/hthreadpool.h:149-170 | a worker's step moves that worker only and takes a mutex only when it is free |
| ThreadPool.IdleMeansNoneBusy | app/src/main/cpp/include/hv/hthreadpool.h:104 | with no worker half deleted, equal counts mean that no worker holds a task; with no thread half added either, they are equal exactly then |
| EventLoop.StepKeepsInv | app/src/main/cpp/include/hv/EventLoop.h:164-213 | queue length = undelivered events + posters between push and post + a callback that has not popped; pushed = run + running + queued |
| EventLoop.NeverEmpty | app/src/main/cpp/include/hv/EventLoop.h:204-213 | whatever the order of delivery, `front()` meets a non-empty queue |
| EventLoop.RunInPushOrder | app/src/main/cpp/include/hv/EventLoop.h:164-213 | callbacks run in push order, once per delivery |
| ObjectPool.HObjectPool.constructor | app/src/main/cpp/include/hv/hobjectpool.h:24-38 | the count is the number of objects made, none is out |
| ObjectPool.HObjectPool.TryBorrow | app/src/main/cpp/include/hv/hobjectpool.h:46-54 | the front idle object goes out, or none when none is idle; objects stay conserved |
| ObjectPool.HObjectPool.Reserve | app/src/main/cpp/include/hv/hobjectpool.h:62-73 | an object is counted before it is made exactly when the count is below the maximum |
| ObjectPool.HObjectPool.FinishCreate | app/src/main/cpp/include/hv/hobjectpool.h:67-70 | the made object goes out, or the count is taken back when making failed |
| ObjectPool.HObjectPool.Woken | app/src/main/cpp/include/hv/hobjectpool.h:73-87 | NULL exactly on a timeout or when nothing is idle, otherwise the front object |
| ObjectPool.HObjectPool.Return | app/src/main/cpp/include/hv/hobjectpool.h:90-95 | the object is idle again, at the back; the books balance exactly when it was out |
| ObjectPool.HObjectPool.Add | app/src/main/cpp/include/hv/hobjectpool.h:97-106 | added exactly below the maximum; the books balance exactly when it was not known |
| ObjectPool.HObjectPool.Remove | app/src/main/cpp/include/hv/hobjectpool.h:108-122 | found exactly when idle; one occurrence leaves, the rest keeps its order |
| ObjectPool.HObjectPool.Clear | app/src/main/cpp/include/hv/hobjectpool.h:124-128 | the books still balance exactly when no object is out or being made |
| ObjectPool.HObjectPool.BorrowNum | app/src/main/cpp/include/hv/hobjectpool.h:44 | total minus idle is the objects out or being made |
| HMath.Floor2e | app/src/main/cpp/include/hv/hmath.h:6-13 | the greatest power of two at most the number; 1 for 0 |
| HMath.Ceil2e | app/src/main/cpp/include/hv/hmath.h:15-24 | the least power of two at least the number up to half the word range, 0 beyond; twice the floor of the predecessor from 2 on |
| HMath.ShiftOne | app/src/main/cpp/include/hv/hmath.h:21-22 | 1 shifted left leaves the word exactly at its width |
| HMath.VarintEncode | app/src/main/cpp/include/hv/hmath.h:28-39 | writes exactly `VarintBytes`, at most 9 bytes, nothing else |
| HMath.VarintBytesRight | app/src/main/cpp/include/hv/hmath.h:28-39 | an encoding is well-formed and has the value it came from |
| HMath.VarintMinimal | app/src/main/cpp/include/hv/hmath.h:28-39 | no well-formed encoding of the value is shorter |
| HMath.VarintAtMostNine | app/src/main/cpp/include/hv/hmath.h:28-39 | a non-negative 64-bit value takes at most 9 bytes |
| HMath.EncodeEndsExactly | app/src/main/cpp/include/hv/hmath.h:32-37 | the encode loop reaches 0 exactly for values that are not negative |
| HMath.VarintDecode | app/src/main/cpp/include/hv/hmath.h:42-66 | value and used length up to the first end byte; too short and not found reported exactly when the limit or ten bytes come first; 64-bit wrap-around |
| HMath.Wrap64Means | app/src/main/cpp/include/hv/hmath.h:42-66 | the wrapped result is the signed 64-bit number that differs from the value by a multiple of 2^64 |
| HMath.DecodeStream | app/src/main/cpp/include/hv/hmath.h:42-66 | a concatenation of encodings decodes back to the list of values |
| HMath.DecodePrefix | app/src/main/cpp/include/hv/hmath.h:47-51 | every proper non-empty prefix of an encoding is reported as too short |
| WebSocket.FragmentShape | app/src/main/cpp/include/hv/WebSocketChannel.h:41-64 | max(1, ceil(len/fragment)) frames; the first has the opcode, the rest CONTINUE; only the last has fin; all but the last are full; they concatenate to the message |
| WebSocket.CeilDivMeans | app/src/main/cpp/include/hv/WebSocketChannel.h:41-64 | the frame count is the rounded-up quotient |
| WebSocket.MessageReceived | app/src/main/cpp/include/hv/WebSocketChannel.h:41-64 | a receiver of section 5.4 of RFC 6455 gets exactly the message back |
| WebSocket.PrefixDeliversNothing | app/src/main/cpp/include/hv/WebSocketChannel.h:48-61 | after a refused write the receiver has seen no fin and delivered nothing |
| WebSocket.Resize | app/src/main/cpp/include/hv/WebSocketChannel.h:76-78 | the reused buffer fits the frame, never shrinks and is less than twice the frame when resized |
| WebSocket.WebSocketChannel.SendFrame | app/src/main/cpp/include/hv/WebSocketChannel.h:67-81 | one frame out, or none on a closed socket; the buffer is never smaller than the frame |
| WebSocket.WebSocketChannel.SendFragmented | app/src/main/cpp/include/hv/WebSocketChannel.h:41-64 | the fragments go out in order until one is refused; negative exactly when one is |
| WebSocket.WebSocketChannel.SendRest | app/src/main/cpp/include/hv/WebSocketChannel.h:50-63 | the loop sends the fragments after the first in order until one is refused |
| WebSocket.WebSocketChannel.Send | app/src/main/cpp/include/hv/WebSocketChannel.h:28-34 | one frame up to 65535 bytes, fragments above, in order until one is refused; the last frame's fin is what was asked for exactly when `fin` or the message fits in one frame |
| ResponseWriter.HttpResponseWriter.EndHeaders | app/src/main/cpp/include/hv/HttpResponseWriter.h:55-63 | adds the header if one is given and writes the header block, in the begin state only |
| ResponseWriter.HttpResponseWriter.WriteChunked | app/src/main/cpp/include/hv/HttpResponseWriter.h:71-88 | headers if not sent yet, then one chunk; an empty one ends the chunks, as does a NULL pointer, whose length is printed without data; on a closed channel only the state moves on |
| ResponseWriter.NullChunkDecodes | app/src/main/cpp/include/hv/HttpResponseWriter.h:78-85 | the chunk of a NULL pointer with a length decodes exactly when that length is 0 |
| ResponseWriter.HttpResponseWriter.EndChunked | app/src/main/cpp/include/hv/HttpResponseWriter.h:94-96 | writes the last-chunk, after the headers if they are not sent yet |
| ResponseWriter.HttpResponseWriter.WriteBody | app/src/main/cpp/include/hv/HttpResponseWriter.h:98-111 | a chunk, a buffered or a direct write, by the state |
| ResponseWriter.HttpResponseWriter.WriteResponse | app/src/main/cpp/include/hv/HttpResponseWriter.h:117-126 | another response's header block (in the begin state) and body; without one a server error is recorded |
| ResponseWriter.HttpResponseWriter.End | app/src/main/cpp/include/hv/HttpResponseWriter.h:128-166 | what goes out, by state, declared encoding and buffer: after chunks the buffer's chunk and a last-chunk; else without a buffer the header block unless it was sent and the body unless some of it was; else the buffer, after the header block and body in the begin state, and as a chunk with both again behind it when chunked was declared; a second call writes nothing; -1 exactly for a first call on a closed channel |
| ResponseWriter.HttpResponseWriter.SendChunks | app/src/main/cpp/include/hv/HttpResponseWriter.h:71-166 | the wire is one header block and a body that decodes (section 7.1 of RFC 9112) to the concatenated pieces, nothing left over, exactly when there is a piece and none is empty |
| ResponseWriter.HttpResponseWriter.SendPlain | app/src/main/cpp/include/hv/HttpResponseWriter.h:55-166 | without chunking the wire is one header block and all pieces; with `EndHeaders` in between, the body buffered before it follows the header block at `End` exactly when nothing was written since; otherwise just the later pieces and the last buffer do |
| ResponseWriter.HttpResponseWriter.SendResponse | app/src/main/cpp/include/hv/HttpResponseWriter.h:117-166 | a whole response and `End` leave one header block and one body on the wire |
| ResponseWriter.HexRoundTrip | app/src/main/cpp/include/hv/HttpResponseWriter.h:78 | a printed chunk size reads back |
| ResponseWriter.DecodePieces | app/src/main/cpp/include/hv/HttpResponseWriter.h:71-88 | non-empty chunks decode to their concatenation in front of whatever follows |
| ResponseWriter.EmptyPieceEndsMessage | app/src/main/cpp/include/hv/HttpResponseWriter.h:80-86 | an empty piece in the middle ends the message too early |
| ResponseWriter.TailDecides | app/src/main/cpp/include/hv/HttpResponseWriter.h:128-159 | which pieces and which last buffer give a proper chunked message |
| Backoff.ReconnectInfo.constructor | app/src/main/cpp/include/hv/TcpClient.h:30-38 | the default limits and policy |
| Backoff.ReconnectInfo.StartReconnect | app/src/main/cpp/include/hv/TcpClient.h:134-155 | one step of the recurrence with 32-bit wrap-around; no timer exactly when the retries are used up |
| Backoff.ReconnectInfo.ReconnectUntilGivenUp | app/src/main/cpp/include/hv/TcpClient.h:134-155 | a finite limit is the number of timers set; under `Follows` the delays follow the closed form and do not decrease |
| Backoff.FollowsWhen | app/src/main/cpp/include/hv/TcpClient.h:17-24 | whenever `Follows` holds, the k-th delay is min(max, min), min(max, k*min) or min(max, min*policy^(k-1)) |
| Backoff.DelaysGrow | app/src/main/cpp/include/hv/TcpClient.h:134-155 | delays do not decrease and stay at most the maximum, whenever they follow the closed form |
| Backoff.StepExact | app/src/main/cpp/include/hv/TcpClient.h:139-147 | one step is what unbounded integers give exactly when nothing wraps, the rest still passes the maximum, or the limits coincide |
| Backoff.FollowsExactly | app/src/main/cpp/include/hv/TcpClient.h:134-155 | for all limits and policies, every delay follows the closed form exactly when `Follows`: the steps that pass the maximum do so even when they wrap, or the limits coincide |
| Backoff.ShrinksExactly | app/src/main/cpp/include/hv/TcpClient.h:139-147 | a step shortens a delay above the minimum exactly under the fixed policy or when the sum or product wraps around to less |
| Backoff.DelayCollapses | app/src/main/cpp/include/hv/TcpClient.h:142-147 | a sequence from 0 whose 32nd delay is 2^31 ms and whose 33rd is 1 ms |
| ProxyRoute.ParseProxyPort | app/src/main/cpp/src/tsproxy.cpp:388-458 | the port for the path that is sent upstream, prefix by prefix (`GoesTo`): the one configured for /im, /audio/ptt/broadcast, other /audio, /video, /file, /contact or /group, /settings, /location or /v0/ap/location; the default for all others and where the configured port is 0 |
| ProxyRoute.PathGoes | app/src/main/cpp/src/tsproxy.cpp:408-447 | the port of the longest matching rule is the one that the prefixes name |
| ProxyRoute.GoesToOne | app/src/main/cpp/src/tsproxy.cpp:388-458 | the prefixes name one port for each path |
| ProxyRoute.ForwardPathExactly | app/src/main/cpp/src/tsproxy.cpp:187-198 | for every target the path sent is what starts at the first slash after the first "://", or in the whole target without one; / when there is no slash |
| ProxyRoute.MatchRules | app/src/main/cpp/src/tsproxy.cpp:408-447 | the first rule that matches is the longest that does, and its port is the one the prefixes name |
| ProxyRoute.LongestMatchUnique | app/src/main/cpp/src/tsproxy.cpp:408-447 | the longest match is one service |
| ProxyRoute.OriginFormExact | app/src/main/cpp/src/tsproxy.cpp:187-198 | an origin-form target is sent as it stands exactly when it holds no "://" |
| ProxyRoute.AbsoluteForm | app/src/main/cpp/src/tsproxy.cpp:187-198 | an absolute-form target is sent and routed by its path |
| ProxyRoute.FormsAgree | app/src/main/cpp/src/tsproxy.cpp:187-198 | absolute and origin form of one path are sent with the same path exactly when it holds no "://" |
| ProxyRoute.RoutedAlike | app/src/main/cpp/src/tsproxy.cpp:396-456 | they go to the same port whatever the ports are exactly when the path and what is taken for the path of its origin form have the same service; so always without "://" |
| ProxyRoute.SchemeInPathMayNotMatter | app/src/main/cpp/src/tsproxy.cpp:396-456 | a path that holds "://" and is routed alike in both forms |
| ProxyRoute.QueryDecidesRoute | app/src/main/cpp/src/tsproxy.cpp:396-456 | a target for messaging whose query holds a URL goes to the audio port in origin form and to the messaging port in absolute form |
| ProxyMessage.PrintThenParse | app/src/main/cpp/src/tsproxy.cpp:182-348 | a printed head, whatever follows it, parses line by line to the request that was printed and leaves what follows |
| ProxyMessage.ReparsedFields | app/src/main/cpp/src/tsproxy.cpp:182-348 | method, version, keep-alive and forwarded headers come back; the path in origin form, the backend as Host; the content length exactly when it is not negative |
| ProxyMessage.ReparsedOwnFields | app/src/main/cpp/src/tsproxy.cpp:255-263 | what comes back of a request that is printed without being passed on |
| ProxyMessage.HeadStarts | app/src/main/cpp/src/tsproxy.cpp:200-223 | the head that is passed on begins with the request line, the backend as Host, the connection and a positive length, in this text |
| ProxyMessage.ParsedRequestRoundTrips | app/src/main/cpp/src/tsproxy.cpp:280-348 | every request parsed from clean lines and then proxied prints and parses back |
| ProxyMessage.ParseHeadFields | app/src/main/cpp/src/tsproxy.cpp:296-348 | what a header line leaves, field by field: keep-alive is cleared exactly by close under Connection or Proxy-Connection, the length is set by Content-Length and each text field by its own key, cut to its size; all other keys change nothing |
| ProxyMessage.KeyValueExists | app/src/main/cpp/src/tsproxy.cpp:296-308 | a header line is accepted exactly when it has a colon, and then is a key, a colon, blanks and a value |
| ProxyMessage.KeyValueOne | app/src/main/cpp/src/tsproxy.cpp:296-308 | a line splits in one way |
| ProxyMessage.KeepAliveExactly | app/src/main/cpp/src/tsproxy.cpp:280-348 | a parsed request is keep-alive exactly when its minor version is 1 and no line says close |
| ProxyMessage.RequestLineExactly | app/src/main/cpp/src/tsproxy.cpp:280-294 | a line of two words and a version, whatever blanks (`SpacesAre`) are between them, is accepted exactly for major version 1, and its words and numbers are stored |
| ProxyMessage.NoVersionRefused | app/src/main/cpp/src/tsproxy.cpp:280-294 | a line without HTTP/ after two words is refused |
| ProxyMessage.StripExactly | app/src/main/cpp/src/tsproxy.cpp:596-624 | a line is read without its last two characters and up to its first NUL |
| CText.AtoiExactly | app/src/main/cpp/src/tsproxy.cpp:313 | blanks, one sign and the digits after it; 0 when there is none |
| CText.SameIgnoringCaseMeans | app/src/main/cpp/src/tsproxy.cpp:310-334 | two keys are the same exactly when they are, letter by letter, up to case |
| ProxyMessage.RequestLineRoundTrip | app/src/main/cpp/src/tsproxy.cpp:200 | a printed request line scans back |
| ProxyMessage.RequestLineKeeps | app/src/main/cpp/src/tsproxy.cpp:280-294 | a clean request line that is accepted gives version 1 and clean, non-empty words |
| ProxyMessage.HeadLineKeeps | app/src/main/cpp/src/tsproxy.cpp:296-348 | parsing a clean header line keeps every field within its size, clean and without leading space |
| ProxyMessage.KeyRoundTrip | app/src/main/cpp/src/tsproxy.cpp:310-334 | the key that is printed for a header names that header |
| ProxyMessage.HeaderOfExactly | app/src/main/cpp/src/tsproxy.cpp:310-334 | a key names a header exactly when it is the header's name, letter case ignored |
| ProxyMessage.BackendHostOk | app/src/main/cpp/src/tsproxy.cpp:467-499 | the backend's host and port form a field that can be printed |
| ProxyMessage.DumpFits | app/src/main/cpp/src/tsproxy.cpp:356-359 | the head of any request within the struct's fields takes at most 1109 of the 2048 bytes |
| ProxyMessage.Snprintf | app/src/main/cpp/src/tsproxy.cpp:200 | the text is complete when it is shorter than the space; nothing outside the space changes |
| ProxyMessage.PrintHead | app/src/main/cpp/src/tsproxy.cpp:200-266 | the offsets add up: the buffer holds exactly the request line and headers |
| ProxyMessage.HttpRequestDump | app/src/main/cpp/src/tsproxy.cpp:182-277 | the buffer holds exactly the head, and the body when there is one |
| ProxyConn.StepKeepsInv | app/src/main/cpp/src/tsproxy.cpp:350-706 | every read, connect or close keeps the connection in one of its six situations |
| ProxyConn.OneConnectOutstanding | app/src/main/cpp/src/tsproxy.cpp:492-519 | at most one upstream of a client is being connected, it is the last, and nothing is read from the client meanwhile |
| ProxyConn.EveryUpstreamRouted | app/src/main/cpp/src/tsproxy.cpp:460-520 | over every run each upstream is opened at the client's Host up to its first colon and the port that the prefixes name for its path, its Host field is that address cut to 63 characters, and its request is not refused |
| ProxyConn.EveryRefusalAnswered | app/src/main/cpp/src/tsproxy.cpp:537-545 | over every run the replies are exactly one 403, of the request's minor version, for each request that was complete and would come back to the proxy, in order |
| ProxyConn.RefusedExchange | app/src/main/cpp/src/tsproxy.cpp:576-706 | a refused request, with or without a body, gets one reply and no upstream; a keep-alive connection is then ready for the next request, any other is closed |
| ProxyConn.RefusedExactly | app/src/main/cpp/src/tsproxy.cpp:474-486 | a request is refused exactly when its port is the proxy's own and its Host names the proxy, localhost or 127.0.0.1 |
| ProxyConn.ClosesExactly | app/src/main/cpp/src/tsproxy.cpp:576-706 | after every run the next read closes the connection exactly when it is a malformed line, the end of a head without Host or without a socket for its upstream, or ends a refused request that is not keep-alive or cannot be answered |
| ProxyConn.HeadOnceThenBody | app/src/main/cpp/src/tsproxy.cpp:350-366 | over every run a connected upstream has got its head once and first, then exactly what the client sent while the body for it was read, but for lone CRLFs; an unconnected one has got nothing |
| ProxyConn.EveryUpstreamReadsBack | app/src/main/cpp/src/tsproxy.cpp:350-706 | over every run whose lines are clean, each connected upstream reads back the request it was opened for, and after it exactly the body reads of the run |
| ProxyConn.RunWrites | app/src/main/cpp/src/tsproxy.cpp:522-535 | from any state on, a run adds to an upstream exactly its body reads of the run, after its head if it gets connected in the run |
| ProxyConn.DumpCopiesNoBody | app/src/main/cpp/src/tsproxy.cpp:268-272 | whenever an upstream gets connected there is no body or no positive length, and the dump is its head |
| ProxyConn.RunFreezes | app/src/main/cpp/src/tsproxy.cpp:522-535 | over any run earlier upstreams never change again and nothing written is taken back |
| ProxyConn.EveryDumpFits | app/src/main/cpp/src/tsproxy.cpp:356-359 | over every run whose lines fit their fields, every dump fits the stack buffer |
| ProxyConn.ExchangeDelivered | app/src/main/cpp/src/tsproxy.cpp:576-706 | a request whose body comes in one read: the upstream reads back the request and the body, and a keep-alive connection is ready for the next request |
| ProxyConn.SessionDelivered | app/src/main/cpp/src/tsproxy.cpp:576-706 | a whole keep-alive session: one upstream for each request, in order, each reading back its own request and body |
| ProxyConn.BodyReadEnds | app/src/main/cpp/src/tsproxy.cpp:660-675 | a read ends the request exactly when it alone is as long as the whole body |
| ProxyConn.SplitBodyNeverEnds | app/src/main/cpp/src/tsproxy.cpp:670-675 | a body that never comes in one full read never ends; everything after it is written to the upstream as body |
| ProxyConn.ProxyConnection.constructor | app/src/main/cpp/src/tsproxy.cpp:727-734 | a fresh connection reads its first line |
| ProxyConn.ProxyConnection.OnRequest | app/src/main/cpp/src/tsproxy.cpp:537-545 | a request that is not proxied is answered 403 |
| ProxyConn.ProxyConnection.OnBody | app/src/main/cpp/src/tsproxy.cpp:522-535 | body data goes to the current upstream once it is connected, a lone CRLF does not |
| ProxyConn.ProxyConnection.OnHeadEnd | app/src/main/cpp/src/tsproxy.cpp:460-520 | fails exactly without a Host, or without a socket for a request that is not refused; a refused request is not proxied; any other opens one more upstream, where its path and Host say |
| ProxyConn.ProxyConnection.OnRecv | app/src/main/cpp/src/tsproxy.cpp:576-706 | the fall-through switch does what `Receive` says; in every reachable state it answers exactly the refused requests that it completes and closes the connection exactly when `Closes` says so |
| ProxyConn.ProxyConnection.WriteDump | app/src/main/cpp/src/tsproxy.cpp:356-366 | the write loop writes the dump once |
| ProxyConn.ProxyConnection.OnUpstreamConnect | app/src/main/cpp/src/tsproxy.cpp:350-386 | writes the head to the new upstream, then starts the body or the next request; the invariant holds |

## Left out

- VarintEncode: takes values that are not negative; for negative ones there is only the proof that the loop does not end.
- PrintHead: requires a buffer that the head fits, as `HttpRequestDump` does; in a smaller one the offsets of the code would
  leave the buffer, which is undefined in C.
- HttpRequestDump: requires a buffer that the dump fits; that every dump of a run fits is `EveryDumpFits`, for lines whose
  words and numbers fit their fields. What `sscanf` and `atoi` do to fields that overflow is undefined in C and not modelled.
- ExchangeDelivered: is about requests without malformed or NUL-holding lines and with a non-negative content length;
  `EveryUpstreamReadsBack` covers all runs of clean lines.
- EveryUpstreamReadsBack: is about lines without a CR, LF or NUL inside; a NUL would cut a field short.
- RefusedExchange: is about bodies of less than 2^31 bytes that come as the length says; a refused request with a negative
  length waits for a block of nearly 4 GiB (`NegativeBlock`).
- OnUpstreamConnect: the connect callback is taken to run only after `on_recv` has returned; called from inside
  `hio_connect` it would still find the state s_head_end.
- WaitMeansDone: says nothing about a `wait` that overlaps a commit, a start or a retiring worker; see `WaitBesideCommits`
  for commits and starts, and `WaitMissesExactly` for when there is no failing run at all.
- WriteChunked: takes lengths that are not negative.
- WriteDump: takes every write to accept all of its data; after a write that took less, the loop of the code would send the
  whole head again.
- SendFragmented: requires a positive fragment length; a message of another thread may come between two fragments.
- Update in place of the glue, thread-pool and event-loop fields: their steps map one immutable state value to the next,
  which keeps the order of the writes but not aliasing.
- Thread pool: `stop`, `pause`, `resume` and changed limits, exceptions from tasks, the futures, and time; a finished idle
  wait and the join of a stopped thread are steps that may or may not be taken.
- Glue: creation and teardown (`android_app_free`, APP_CMD_DESTROY), configuration and content rectangle, and an app
  thread that does not poll, as in this repository's own `android_main`.
- Event loop: timers, and the body of the underlying loop, which is taken to deliver each posted event once in any order.
- Object pool: the HPoolObject wrapper, and `Borrow` as one call; it is its three critical sections in any order with others.
- Buffers: ownership of memory that was passed in, failing allocation and overflow of `size_t`.
- libhv bodies that are only declared: a line or block read happens once, a started read goes on, and every write takes
  all of its data.
- The frame builder and the frame size (`FrameSizes`), which follow section 5.2 of RFC 6455; masking is not modelled.
- The text of a response's header block, which is any function of the status and the headers that starts like "HTTP/";
  dumping a response without its headers is taken to print the body and nothing else.
- Proxy: TLS beyond the flag with which an upstream is opened, the keep-alive timeout, reading responses, the copy of the
  raw head that nothing reads, configuration and arguments, and worker threads (one connection belongs to one loop).
- JNI, the Java service, logging, INI files, base64, MD5 and SHA-1: plumbing that would add only easy members.
