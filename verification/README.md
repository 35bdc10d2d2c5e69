# meesee work queue and worker loop, modelled in Dafny

meesee keeps a work queue in a Redis list. `RedisQueue` addresses the list `namespace:key`. It has a lossy bounded `send`, a head push
(`first_inline_send`) used to redeliver, `send_to` for sibling lists, and
an iterator that pops from the head and stops when a blocking pop times
out. `run_worker` is the loop each worker process runs. It builds its
handler's keyword arguments with `init_add`, drains the queue through the
handler and reacts to `InitFail`, to interrupts and to handler errors.
`startapp` starts `workers` of them with ids `1..workers`.

The model has no server in it. The Redis server is a map from list key to
list contents (`Store`). Every queue operation is a pure function on that
map. The worker is a recursive function over a script of handler outcomes:
`Ok`, `Fails(e)` or `Interrupt`, one per handler call.

Files, one module each:

- `store.dfy` (`Store`): the store and the list primitives `rpush`, `lpush`, `lpop`, `llen`.
- `queue.dfy` (`Queue`): `RedisQueue` and its operations.
- `init.dfy` (`Init`): `init_add` and `InitFail`.
- `worker.dfy` (`Worker`): `run_worker` as `Consume` (the inner `for`), `Pass` (one `try` body with its `except` branches), `Loop` (the `while True`) and `RunWorker`.
- `worker_properties.dfy` (`WorkerProperties`): lemmas about whole runs.
- `app.dfy` (`App`): the worker ids `startapp` hands out.

The worker takes an `ItemPolicy`. `KeepLast` is meesee.py as written.
`ClearHandled` is the correction described under Findings. Every lemma
about runs is proved for both policies, except the ones that show the
difference.

## Model

| member | source | states |
|---|---|---|
| Queue.ListKeyInjective | meesee.py:20 | within one namespace, two queue names give the same list key exactly when they are equal |
| Queue.ListKeyAcrossNamespaces | meesee.py:20 | a namespace with a colon in it can address the same list as a different namespace/key pair |
| Queue.FirstInlineSend | meesee.py:25-27 | the pushed value becomes the head, in front of the old list, and no other list changes |
| Queue.SendTo | meesee.py:29-30 | appends to `namespace:key` whatever the queue's bound is, and leaves every other list alone |
| Queue.SendToOwnListOnlyForOwnKey | meesee.py:29-30 | `send_to` leaves the queue's own list unchanged if and only if it targets a different name |
| Queue.Send | meesee.py:32-41 | below the bound (or with no bound) the value is appended; at or over the bound on a non-empty list the head is dropped and the value appended, so the length stays the same and is never trimmed down to `maxsize`; on an empty list with bound <= 0 the list becomes `[v]`; for a bound >= 1, "length <= maxsize" is preserved; other lists unchanged |
| Queue.SendDict | meesee.py:43-44 | the encoded value ends the queue's list and no other list changes |
| Queue.NextItem | meesee.py:49-53 | on a non-empty list it returns `(list_key, head)` and leaves the tail; on an empty list it raises StopIteration exactly when a timeout is set, and blocks otherwise |
| Queue.FirstInlineSendIsNext | meesee.py:25-27 | the value pushed by `first_inline_send` is the next one `__next__` returns, and popping it restores the store |
| Queue.Drain | meesee.py:46-53 | iterating the queue until it stops yields the whole list in order, leaves it empty and touches no other list |
| Queue.SendAllUnbounded | meesee.py:39-41 | without a bound, a series of sends appends the values in order and touches no other list |
| Queue.SendThenDrainIsFifo | meesee.py:41-53 | FIFO: unbounded sends followed by draining yield the old contents and then the sent values in send order |
| Queue.SendAllKeepsNewest | meesee.py:32-41 | with a bound m >= 1, a series of sends to a list within the bound leaves exactly the m newest of the old items and the sent values, in order; the oldest are evicted first |
| Init.InitAdd | meesee.py:60-66 | `init_add` rewrites at most as many entries as `init_kwargs` has; it succeeds exactly when it rewrote all of them; the dict keeps exactly its keys (entries are rewritten in place, never added or removed) |
| Init.InitAddFacts | meesee.py:60-66 | entries are processed in order; each rewritten name holds what its factory returned; all other keys are unchanged, including those after a failure (rewrites before it stay); the call succeeds exactly when every entry succeeds; otherwise it ends like the first failing entry: a `TypeError` (non-callable value or factory raising it) gives `InitFail`, a missing name gives `KeyError` |
| Init.InitAddTwiceFails | meesee.py:60-66 | running `init_add` again on the dict it rewrote fails with `InitFail` at the first name, rewriting nothing |
| Worker.Consume | meesee.py:76-77 | the inner loop delivers items from the head of the queue in order; the list loses exactly those items; the iterator stops only with a timeout and an empty list; an interrupt while waiting happens only on an empty list, during the timed wait as well as the unbounded one; after a failing or interrupted call `item` is that call's item; as written `item` is always the last item popped |
| Worker.HandleError | meesee.py:86-91 | the exception `e` is reported once, after the earlier reports; when a hook is given it gets exactly one call `(item, e, r, worker_id)` with the current `item` and queue, and no call otherwise; the store and the delivered items are untouched; as written `item` is kept |
| Worker.Redelivery | meesee.py:82-84 | as written the interrupt branch pushes exactly one value: the held item, or None when nothing was popped; corrected, it pushes the held item and nothing when none is held |
| Worker.ServeQueue | meesee.py:74-85 | once `init_add` succeeded, the pass keeps `RunFacts`; it reaches the timeout check after the iterator ran dry only when a timeout is set; it stops the worker only on an interrupt (with the redelivery pushed to the head) or when the model stops looking |
| Worker.AfterInit | meesee.py:73-91 | after `init_add`, the pass keeps `RunFacts`; the worker stops with `InitFailed` exactly when `init_add` raised `InitFail`, and then the store is untouched and nothing was handed to the handler; another exception `e` from `init_add` reaches the `except Exception` branch: `e` is reported, the hook (if any) gets the `item` and `r` of before, the store is untouched and the pass goes on to the timeout check |
| Worker.Pass | meesee.py:72-91 | one loop pass keeps `RunFacts`; the pass reaches the timeout check after the iterator ran dry only when a timeout is set; a pass that stops with `InitFailed` left the store untouched and handed nothing to the handler |
| Worker.PassInitOutcome | meesee.py:72-91 | a pass stops the worker with `InitFailed` exactly when `init_add` raises `InitFail`; any other exception `e` from `init_add` is reported, the hook (if any) gets the `item` and `r` of before with `e`, the store is untouched, and the pass goes on to the timeout check |
| Worker.Loop | meesee.py:71-94 | the outer loop keeps `RunFacts` across passes; with a timeout it makes at most one pass |
| Worker.RunWorker | meesee.py:69-94 | with no hook there are no hook calls, otherwise one per reported failure with the same exception and the worker id; with a timeout at most one pass; the queue lost exactly the delivered items, in order, plus the redelivered one at the head; no other list changes; as written an interrupt pushes the last popped raw item, or None if nothing was popped, to the head; an interrupt during a handler call pushes that call's item |
| WorkerProperties.ConsumeAllOk | meesee.py:76-77 | with a timeout, enough successful handler calls and no interrupt during the last wait, the inner loop runs the list dry |
| WorkerProperties.ConsumeOkThenFail | meesee.py:76-77 | k successful calls then an error end the inner loop with that error, holding the (k+1)-th item, after delivering the first k+1 items |
| WorkerProperties.ServeQueueRunsDry | meesee.py:74-77 | with a timeout, a successful handler call per item and no interrupt during the last wait, a pass hands out the whole list in order and ends at the timeout check with the list empty and nothing reported |
| WorkerProperties.ServeQueueFailsAfter | meesee.py:76-90 | k successful calls and then an error: the pass reports the error once, calls the hook with the failing raw item, and leaves the items after it in the list |
| WorkerProperties.LoopEndsInDrainMode | meesee.py:71-94 | with a timeout the loop ends after its first pass, whichever way that pass ends |
| WorkerProperties.LoopGoesOn | meesee.py:86-94 | without a timeout, a handled error starts the loop body over |
| WorkerProperties.DrainHandlesEveryItemOnce | meesee.py:69-94 | drain mode without failures or interrupts: every queued item is handed to the handler exactly once, in queue order; the queue ends empty, no hook runs, and the worker stops after one pass |
| WorkerProperties.DrainFailureCallsHookOnce | meesee.py:86-94 | drain mode, k successes then error e: e is reported once; the hook (if any) is called once with the raw failing item, e, the queue and the worker id; the worker stops after that pass with the rest of the queue untouched |
| WorkerProperties.InitFailLeavesQueueAlone | meesee.py:78-81 | `InitFail` in the first pass stops the worker with the store unchanged, nothing delivered and no hook call |
| WorkerProperties.DrainModeIsOnePass | meesee.py:93-94 | with a timeout, allowing more passes does not change the run |
| WorkerProperties.LongLivedErrorEndsInInitFail | meesee.py:71-81 | with no timeout and factories in `init_kwargs`, a handler error sends the worker back to `init_add`; it cannot call the already-built objects and stops with `InitFail` after one reported error and at most one hook call |
| WorkerProperties.IdleInterruptRedeliversHandledItem | meesee.py:70-85 | as written, with or without a timeout: queue `[v]`, the handler returns for v, then an interrupt while waiting on the empty list pushes v back although it was handled |
| WorkerProperties.IdleInterruptPushesNone | meesee.py:70-85 | as written: an interrupt before anything was popped pushes None to the head of the queue |
| WorkerProperties.CorrectedRedeliveryOnlyInFlight | meesee.py:82-85 | corrected: on an interrupt the queue holds every item not yet delivered, preceded by the item of the interrupted handler call if there was one and by nothing otherwise |
| WorkerProperties.CorrectedIdleInterruptKeepsQueueEmpty | meesee.py:82-85 | corrected: in the same run as `IdleInterruptRedeliversHandledItem`, the handled item is not pushed back |
| App.WorkerIds | meesee.py:97-100 | for `workers >= 1` the ids are exactly `1..workers`, increasing and distinct; for fewer the pool refuses to start and there are none |

`RunFacts` (in `worker.dfy`) bundles what holds between the state before a stretch of a run and the state after it:

- the queue lost the delivered items from its head, in order, and got the redelivered item in front;
- no other list changed;
- hook calls match reported failures;
- `item` behaves as the policy says.

## Left out

- The Redis client and the connection: `redis.Redis(**redis_config)`, TLS and wire encoding. The store is a map, and `blpop`, `llen`, `lpop`, `lpush` and `rpush` are functions on it.
- How the client stores a pushed Python `None`: the model stores a distinct value, `PyNone`.
- Other clients: no other worker or producer touches the store during a run. A blocking pop on an empty list with no timeout therefore never returns, and only an interrupt can end the wait.
- Timing: the length of the blocking timeout, and the throttling `time.sleep(0.1)`. A timeout counts only as present or absent. A timeout of 0, which Redis treats as "block forever", is modelled as present.
- JSON encoding in `send_dict` is a function parameter.
- UTF-8 decoding of the raw item is part of the scripted outcome: a decoding error is a `Fails` outcome.
- Logging: the stdout lines and `traceback.print_exc`. The model keeps only the list of exceptions reported as `failed reason`.
- What the handler and the failure hook do to the store: they are opaque. The model records their calls, not their effects.
- Interrupts are modelled only during a handler call and while `blpop` waits on an empty list, with or without a timeout. Whether an interrupt arrives during a wait is read from the script: an `Interrupt` next in the script ends the wait, and any other next outcome lets a timed wait end with `StopIteration`. Interrupts during `init_add`, queue construction, the failure hook or the sleep are not modelled. So the case where `r` is still None at line 84, which crashes, cannot occur in the model.
- An exception raised by the failure hook itself, which would end the worker, is not modelled.
- A handler that raises `InitFail` itself is not modelled. The handler only returns, fails or is interrupted.
- `RedisQueue(**config)` with a malformed config dict: the worker's config always builds a queue.
- Callable objects returned by a factory: built objects and plain keyword values are all non-callable.
- Worker.Loop: the `while True` loop is unrolled at most `fuel` times, and a run that has not stopped then ends as `Running`. Unbounded runs are not modelled, for example a long-lived worker whose `init_add` keeps raising `KeyError` for its first name.
- Worker.Consume: when the script runs out, the model stops looking before the next pop. A non-interrupt outcome met while the worker is blocked also ends the run as `Running`.
- Queue.SendDict: states only that the encoded value ends the list and that other lists are untouched. The eviction it inherits is stated on `Queue.Send`.
- The process pool in `startapp` (`Pool`, `starmap`, `close`, `join`, the graceful-exit message): only the worker ids are modelled.
- Parallel workers sharing one queue are not modelled.
- The decorator registry, `send_wait`, `send_unsafe`, re-keying, `__len__`, worker partitioning by `worker_id % len`, retries and backoff: they are not part of meesee.py as modelled here.

## Findings

| source | as written | input that shows it | evidently intended | confidence | as-written member | corrected member |
|---|---|---|---|---|---|---|
| meesee.py:70-85 | `item` is set by each pop and never cleared, and the interrupt branch always pushes `item` back | queue `[v]`, with or without a timeout; the handler returns for v, then an interrupt arrives while the worker waits on the empty list. v is pushed back and will be handled twice. With an empty queue from the start, None is pushed instead | push back only the item whose handler call was interrupted (examples/example_sys_signal_doesnt_add_item.py:20-21 flags a None item as a regression) | medium; not executed | WorkerProperties.IdleInterruptRedeliversHandledItem | WorkerProperties.CorrectedRedeliveryOnlyInFlight |

The corrected behaviour is `RunWorker` with `ClearHandled`. Under it, `item` is forgotten once its handler call returns or fails, and the interrupt branch pushes only an item still held.
