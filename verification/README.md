# BatchQueue: a verified model of quota-limited request batching

`BatchQueue` (in `batching/batchqueue.py`) collects API requests from a
producer. It sends them to a remote service in batches of at most `quota`
requests, and it routes each response back to the handler registered for
that request. Its state has four parts:

- a FIFO queue of `(request, request_id)` pairs;
- `call_backs`, a map from request id to handler;
- `count`, the number of responses since the last reset;
- `quota`, fixed when the queue is created (10 by default).

It has three operations:

- `add` registers the handler and appends the pair to the tail of the queue.
- `execute` moves up to `quota` pairs from the head of the queue into one batch and submits it.
- `call_back` receives each response. It increments `count`. When `count` reaches `quota`, it resets `count` to 0 and calls `execute` again, so batches keep flowing without the producer. Only after that does it look up and call the response's handler.

The model is written as pure functions over an immutable state:

- `wrappers.dfy` defines `Option`.
- `batching.dfy` (module `Batching`) holds the state record `BatchQueue<R, H>` and the operations `Init`, `Add`, `Execute` and `CallBack`. Requests `R` and handlers `H` are opaque type parameters. It also has `ExecuteLoop`, a loop written like the source's loop and proved equal to `Execute`.
- `runs.dfy` (module `Runs`) models any sequential interleaving of `add` calls, manual `execute` calls and transport responses. It proves the properties that span many calls: no item is lost or submitted twice, batches follow enqueue order, the registry only grows, and the counter drives the automatic flushes.
- `scenarios.dfy` (module `Scenarios`) holds concrete runs (quota 2, an empty `execute`, an unknown id) and the "n adds then one execute" property.

Some behaviour a caller might not expect:

- `add` with an id that is already registered silently replaces the earlier handler. It does not raise an error.
- `execute` on an empty queue still builds an empty batch and submits it.
- A response whose id is not registered still increments the counter, and can still trigger `execute`, before the lookup fails.
- `quota` is not checked. With a quota of 0 or less, `execute` submits empty batches and the counter never resets. All counter invariants are therefore stated under `Valid`, which is `1 <= quota` together with `count < quota`.

## Model

| member | source | states |
|---|---|---|
| `Batching.Init` | batching/batchqueue.py:46-55 | a new queue has an empty queue, an empty handler map, count 0 and the given quota (10 by default); it satisfies the counter invariant exactly when the quota is positive, and every queued id is registered |
| `Batching.ResolveId` | batching/batchqueue.py:94-96 | a missing or empty id is replaced by the generated id; any other id is kept as given |
| `Batching.Add` | batching/batchqueue.py:98-102 | appends exactly `(request, id)` at the tail and keeps all earlier items in order; maps the id to the handler, replacing any earlier handler for that id; leaves every other map entry, the counter and the quota unchanged; preserves both invariants |
| `Batching.AddGeneratedId` | batching/batchqueue.py:94-102 | when no id is given and the generated id is new, the queued pair and the new map entry carry that same id, the map grows by exactly one, and no earlier handler changes |
| `Batching.DuplicateIdOverwrites` | batching/batchqueue.py:98-102 | two adds under the same id raise no error: both requests are queued in order, and the map holds only the second handler under that id |
| `Batching.Execute` | batching/batchqueue.py:112-119 | the batch followed by the new queue is the old queue, so the batch is the leading prefix in order; the batch has at most `quota` items and is shorter only when it empties the queue; nothing but the queue changes; on an empty queue the batch is empty and the state is unchanged; both invariants are preserved |
| `Batching.BatchSize` | batching/batchqueue.py:113-117 | the batch has exactly `min(len(queue), quota)` items (none when the quota is not positive), and that many fewer items stay queued |
| `Batching.ExecuteLoop` | batching/batchqueue.py:112-119 | the source's bounded loop, which stops early when the queue is empty, produces the same batch and remaining queue as `Execute` |
| `Batching.CallBack` | batching/batchqueue.py:72-78 | increments the counter; exactly when it reaches the quota, resets it to 0 and performs one `Execute`, otherwise leaves the queue alone; looks up the handler afterwards, invoking the handler registered for the id, or failing when the id is unknown; never changes the handler map or the quota; keeps the counter in `[0, quota)` |
| `Runs.Apply` | batching/batchqueue.py:72-119 | one call (add, execute or response) conserves items: submitted items plus the new queue equal the old queue plus the added item; registered ids are never dropped; an add has no effects and yields exactly `Add`'s new state; an execute yields `Execute`'s new state and exactly one submission, of `Execute`'s batch; a response takes `CallBack`'s new state, and its effects are `CallBack`'s triggered batch first (when there is one), then its handler call for that id; only responses call handlers |
| `Runs.RunConservesItems` | batching/batchqueue.py:99-117 | over any run, the submitted batches concatenated, followed by the final queue, equal the initial queue followed by all added items |
| `Runs.DispatchedIsPrefix` | batching/batchqueue.py:102-117 | from a new queue, the submitted batches concatenated form a prefix of the order in which requests were added, and the queue holds exactly the rest; no item is submitted twice or out of order |
| `Runs.NoIdSubmittedTwice` | batching/batchqueue.py:113-117 | when every added request has its own id, no id occurs twice among the submitted items |
| `Runs.RunPreservesInvariants` | batching/batchqueue.py:72-75 | any run that starts with a positive quota and a counter below it keeps both; every queued id stays registered; the quota never changes |
| `Runs.RunNeverPrunes` | batching/batchqueue.py:77-78 | no run removes a registered id from the handler map |
| `Runs.HandlerStable` | batching/batchqueue.py:72-78 | through any run that adds nothing under an id, the handler registered under that id stays registered and unchanged |
| `Runs.LatestHandlerReached` | batching/batchqueue.py:77-78 | after `add(request, handler, id)` and any later run that adds nothing more under that id, a response for the id invokes exactly that handler |
| `Runs.DispatchedStayRegistered` | batching/batchqueue.py:99-102 | every submitted item's id still has a handler at the end of the run |
| `Runs.ResponseToDispatchedIsRouted` | batching/batchqueue.py:77-78 | after any run from a new queue, a response for any item that was submitted invokes a handler; the lookup never fails for ids the queue itself submitted |
| `Runs.ResponseSubmissions` | batching/batchqueue.py:73-75 | a response submits one batch when it brings the counter to the quota, and none otherwise |
| `Runs.ResponsesDriveFlushes` | batching/batchqueue.py:72-75 | over any `n` responses, `count + n == submissions * quota + final count`, and the final count is below the quota; so one batch is submitted per `quota` responses and the counter keeps the remainder |
| `Runs.StepDispatchesFromQueue` | batching/batchqueue.py:113-117 | the items a single call submits are a leading prefix of the queue as it was before the call |
| `Scenarios.AddsOnlyQueue` | batching/batchqueue.py:99-102 | a run of adds submits nothing and appends every request to the queue in call order |
| `Scenarios.AddsThenExecute` | batching/batchqueue.py:80-119 | for any quota, after `n` adds to a new queue and one execute, the batch holds the first `min(n, quota)` requests in add order (none when the quota is not positive), and the rest stay queued |
| `Scenarios.QuotaTwoPipeline` | batching/batchqueue.py:72-119 | with quota 2, adding r1, r2, r3 and executing submits [r1, r2]; the response for r1 sets the counter to 1; the response for r2 resets it to 0, and that response's effects are exactly the submission of [r3] followed by the call of r2's handler |
| `Scenarios.EmptyExecuteStillSubmits` | batching/batchqueue.py:112-119 | an execute on an empty queue still submits one empty batch and changes nothing |
| `Scenarios.UnknownIdStillCounts` | batching/batchqueue.py:72-77 | a response for an unregistered id still counts toward the quota and still triggers the execute; only the handler lookup fails |

## Left out

- The `rate_limited` decorator (batching/batchqueue.py:12-35) is not modelled. It reads `time.clock()` (processor time on Unix) and sleeps for a float interval. Its only effect is to delay each `execute`, so the model treats every `execute` as already allowed to run.
- The HTTP transport (`BatchHttpRequest`, `batch.execute(http=...)`) is not modelled. The batch that would be handed to it is returned instead. Which responses arrive, and in what order, is left open: responses are `Response(id)` events in a run.
- The library calls `batch.add` and `batch.execute` (batching/batchqueue.py:117, 119) are assumed to succeed. If `batch.add` raised, the loop would stop part-way, and the items already dequeued would be dropped without being submitted. If `batch.execute` raised inside the automatic `execute` that `call_back` triggers, `call_back` would exit before its handler lookup, so no handler would run for that response. The model always submits the whole batch, and `CallBack` always ends in a handler invocation or a failed lookup.
- The transport's synchronous re-entry is not modelled. In the source, `batch.execute` may deliver responses, and so call `call_back`, before the outer `call_back` reaches its handler lookup. The model treats each response as a separate later event.
- `uuid.uuid4()` is modelled as a parameter (`generated`) that supplies the new id. Whether that id is fresh is a precondition of `AddGeneratedId`, not a guarantee.
- Python's `not request_id` accepts any falsy value. The model covers only a missing id and the empty string.
- The response and exception objects passed to `call_back` are not modelled. The source forwards them to the handler unchanged, so the model records only which handler is invoked for which id.
- Concurrency is not modelled: the thread-safe `Queue`, and producers running alongside response delivery. A run is one sequential interleaving.
- `self.start = time.time()` is not modelled. It is never read.
- The `__main__` demo driver (batching/batchqueue.py:121-158) is not modelled. It is sample usage: JSON parsing, printing and Analytics API calls.
