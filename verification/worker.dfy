/** `run_worker` of meesee.py for one worker. The handler is abstract: what
    each call does is read from a script of outcomes, one per call. The
    outer `while True` loop is unrolled at most `fuel` times. */
module Worker {
  import opened Store
  import opened Queue
  import opened Init

  /** What one delivery does: decoding the raw item and calling the handler
      returns, raises an ordinary exception, or is cut short by
      `KeyboardInterrupt`/`SystemExit`. */
  datatype Outcome = Ok | Fails(error: Exc) | Interrupt

  /** What the worker does with `item` once the handler has returned or
      failed. meesee.py keeps the last popped item (`KeepLast`);
      `ClearHandled` forgets it, the correction described in README. */
  datatype ItemPolicy = KeepLast | ClearHandled

  /** The `config` dict the worker builds its queue from. */
  datatype Config = Config(namespace: string, key: string, maxsize: Option<int>, timeout: Option<real>)

  /** The arguments of `run_worker` besides the handler itself: whether an
      `on_failure_func` is given, the worker id, `init_kwargs` in iteration
      order, and what the factories in `func_kwargs` do when called. */
  datatype Spec = Spec(config: Config, hasHook: bool, workerId: int,
                       initKwargs: seq<(string, FactoryConfig)>, build: (nat, FactoryConfig) -> Call)

  /** The arguments of one `on_failure_func(item, e, r, worker_id)` call. */
  datatype HookCall = HookCall(item: Option<Value>, error: Exc, queue: Option<RedisQueue>, workerId: int)

  /** The worker's local variables and what it has done so far: `item` and
      `r` of run_worker, the store, the failure-hook calls, the exceptions
      reported as `failed reason`, the raw items handed to the handler in
      order, and the outcomes still to come. */
  datatype State = State(kwargs: Kwargs, item: Option<Value>, queue: Option<RedisQueue>, store: Store,
                         hooks: seq<HookCall>, failures: seq<Exc>, invoked: seq<Value>, script: seq<Outcome>)

  /** Why the worker stopped. `Interrupted(true)` is an interrupt during a
      handler call, `Interrupted(false)` one while waiting on an empty list;
      `Running` means it has not stopped when the model stops looking. */
  datatype Stop = InitFailed | Interrupted(inHandler: bool) | DrainedEmpty | DrainedAfterError | Running

  datatype Run = Run(stop: Stop, final: State, passes: nat)

  /** How the inner `for key_name, item in r` loop ends. */
  datatype Exit = QueueEmpty | HandlerFailed(error: Exc) | InterruptedAt(inHandler: bool) | Waiting

  datatype Inner = Inner(st: State, exit: Exit)

  function QueueOf(c: Config): RedisQueue
  {
    NewQueue(c.namespace, c.key, c.maxsize, c.timeout)
  }

  function Last(s: seq<Value>): Value
    requires s != []
  {
    s[|s| - 1]
  }

  /** The items delivered after `before` was recorded. */
  function Since(before: State, after: State): seq<Value>
  {
    if |before.invoked| <= |after.invoked| then after.invoked[|before.invoked|..] else []
  }

  lemma SinceSplits(before: State, after: State)
    requires before.invoked <= after.invoked
    ensures after.invoked == before.invoked + Since(before, after)
  {
    assert after.invoked == after.invoked[..|before.invoked|] + after.invoked[|before.invoked|..];
  }

  /** What holds between the state `st` on entry to the inner loop and its
      result `r`: only the store, `item`, the delivered items and the script
      change; the list lost exactly the delivered items, from its head and in
      order; the iterator stops only with a timeout and an empty list; a wait
      is interrupted only on an empty list; after a failing
      or interrupted call `item` is that call's item; as written `item` is
      the last item popped, and under the correction it is otherwise
      forgotten. */
  ghost predicate InnerFacts(policy: ItemPolicy, q: RedisQueue, st: State, r: Inner)
  {
    && r.st.kwargs == st.kwargs && r.st.queue == st.queue
    && r.st.hooks == st.hooks && r.st.failures == st.failures
    && st.invoked <= r.st.invoked
    && Since(st, r.st) + Get(r.st.store, q.listKey) == Get(st.store, q.listKey)
    && (forall k :: k != q.listKey ==> Get(r.st.store, k) == Get(st.store, k))
    && (r.exit.QueueEmpty? ==> q.timeout.Some? && Get(r.st.store, q.listKey) == [])
    && (r.exit.HandlerFailed? || r.exit == InterruptedAt(true) ==>
          |r.st.invoked| > |st.invoked| && r.st.item == Some(Last(r.st.invoked)))
    && (r.exit == InterruptedAt(false) ==> Get(r.st.store, q.listKey) == [])
    && (policy.KeepLast? ==>
          r.st.item == if |r.st.invoked| == |st.invoked| then st.item else Some(Last(r.st.invoked)))
    && (policy.ClearHandled? && st.item.None? && !r.exit.HandlerFailed? && r.exit != InterruptedAt(true) ==>
          r.st.item.None?)
  }

  /** The state after popping `v` and handing it to a handler that
      returned. */
  function AfterOk(policy: ItemPolicy, st: State, v: Value, rest: Store): State
    requires st.script != []
  {
    st.(store := rest, item := if policy.ClearHandled? then None else Some(v),
        invoked := st.invoked + [v], script := st.script[1..])
  }

  /** A successful handler call followed by the rest of the inner loop keeps
      `InnerFacts` from before the call. */
  lemma InnerFactsAfterOk(policy: ItemPolicy, q: RedisQueue, st: State, v: Value, rest: Store, r: Inner)
    requires NextItem(q, st.store) == Item(q.listKey, v, rest) && st.script != []
    requires InnerFacts(policy, q, AfterOk(policy, st, v, rest), r)
    ensures InnerFacts(policy, q, st, r)
  {
    var st1 := AfterOk(policy, st, v, rest);
    var l := Get(st.store, q.listKey);
    assert Get(rest, q.listKey) == l[1..];
    assert r.st.invoked[..|st1.invoked|] == st1.invoked;
    assert r.st.invoked[..|st.invoked|] == st1.invoked[..|st.invoked|];
    assert Since(st, r.st) == [v] + Since(st1, r.st);
    if |r.st.invoked| == |st1.invoked| {
      assert r.st.invoked == st1.invoked;
    }
  }

  /** The inner loop: pop, hand to the handler, repeat. On an empty list
      `blpop` waits: an interrupt can end any wait; otherwise the wait ends
      with `StopIteration` when a timeout is set and never when none is.
      When the script runs out the model stops looking, before the next
      pop. */
  function Consume(policy: ItemPolicy, q: RedisQueue, st: State): (r: Inner)
    ensures r.exit.QueueEmpty? ==> q.timeout.Some?
    ensures InnerFacts(policy, q, st, r)
    decreases |st.script|
  {
    match NextItem(q, st.store)
    case StopIteration =>
      assert Since(st, st) == [];
      if st.script != [] && st.script[0].Interrupt? then Inner(st.(script := st.script[1..]), InterruptedAt(false))
      else Inner(st, QueueEmpty)
    case Blocked =>
      assert Since(st, st) == [];
      if st.script != [] && st.script[0].Interrupt? then Inner(st.(script := st.script[1..]), InterruptedAt(false))
      else Inner(st, Waiting)
    case Item(_, v, rest) =>
      assert Since(st, st) == [];
      if st.script == [] then Inner(st, Waiting)
      else
        var st1 := st.(store := rest, item := Some(v), invoked := st.invoked + [v], script := st.script[1..]);
        assert Since(st, st1) == [v];
        match st.script[0]
        case Ok =>
          var r := Consume(policy, q, AfterOk(policy, st, v, rest));
          InnerFactsAfterOk(policy, q, st, v, rest, r);
          r
        case Fails(e) => Inner(st1, HandlerFailed(e))
        case Interrupt => Inner(st1, InterruptedAt(true))
  }

  /** A handler call that returns lets the inner loop carry on with the
      next item. */
  lemma {:induction false} ConsumeOkStep(policy: ItemPolicy, q: RedisQueue, st: State, v: Value, rest: Store)
    requires NextItem(q, st.store) == Item(q.listKey, v, rest)
    requires st.script != [] && st.script[0] == Ok
    ensures Consume(policy, q, st) == Consume(policy, q, AfterOk(policy, st, v, rest))
  {
  }

  /** A handler call that raises ends the inner loop holding its item. */
  lemma {:induction false} ConsumeFailStep(policy: ItemPolicy, q: RedisQueue, st: State, v: Value, rest: Store, e: Exc)
    requires NextItem(q, st.store) == Item(q.listKey, v, rest)
    requires st.script != [] && st.script[0] == Fails(e)
    ensures Consume(policy, q, st)
            == Inner(st.(store := rest, item := Some(v), invoked := st.invoked + [v], script := st.script[1..]),
                     HandlerFailed(e))
  {
  }

  /** What the `except (KeyboardInterrupt, SystemExit)` branch pushes back:
      meesee.py always pushes `item`, which is `None` when nothing was
      popped yet; the corrected policy pushes only an item still held. */
  function Redelivery(policy: ItemPolicy, item: Option<Value>): (r: seq<Value>)
    ensures |r| <= 1
    ensures policy.KeepLast? ==> |r| == 1
    ensures policy.ClearHandled? ==> (r == [] <==> item.None?)
    ensures r != [] ==> r[0] == if item.Some? then item.value else PyNone
  {
    match policy
    case KeepLast => [if item.Some? then item.value else PyNone]
    case ClearHandled => if item.Some? then [item.value] else []
  }

  function PushFront(s: Store, k: string, vs: seq<Value>): (r: Store)
    requires |vs| <= 1
    ensures Get(r, k) == vs + Get(s, k)
    ensures forall k' :: k' != k ==> Get(r, k') == Get(s, k')
  {
    if vs == [] then s else LPush(s, k, vs[0])
  }

  /** Between `before` and `after` the worker's list lost exactly the items
      delivered in between, from its head and in order, and then got
      `pushed` in front of what is left. */
  ghost predicate Conserves(lk: string, before: State, after: State, pushed: seq<Value>)
  {
    var l := Get(after.store, lk);
    && before.invoked <= after.invoked
    && |pushed| <= |l| && l[..|pushed|] == pushed
    && Since(before, after) + l[|pushed|..] == Get(before.store, lk)
  }

  /** Lists other than the worker's own are untouched. */
  ghost predicate OthersUnchanged(lk: string, before: State, after: State)
  {
    forall k :: k != lk ==> Get(after.store, k) == Get(before.store, k)
  }

  /** Every failure reported in between produced one hook call carrying the
      same exception and the worker's id when a hook is given, and none
      otherwise. */
  ghost predicate HooksFollowFailures(spec: Spec, before: State, after: State)
  {
    && before.hooks <= after.hooks
    && before.failures <= after.failures
    && (!spec.hasHook ==> after.hooks == before.hooks)
    && (spec.hasHook ==> |after.hooks| - |before.hooks| == |after.failures| - |before.failures|)
    && forall i :: |before.hooks| <= i < |after.hooks| ==>
         after.hooks[i].workerId == spec.workerId &&
         |before.failures| + i - |before.hooks| < |after.failures| &&
         after.hooks[i].error == after.failures[|before.failures| + i - |before.hooks|]
  }

  lemma ConservesTrans(lk: string, a: State, b: State, c: State, pushed: seq<Value>)
    requires Conserves(lk, a, b, [])
    requires Conserves(lk, b, c, pushed)
    ensures Conserves(lk, a, c, pushed)
  {
    var lb := Get(b.store, lk);
    var lc := Get(c.store, lk);
    SinceTrans(a, b, c);
    assert Since(a, b) + lb[0..] == Get(a.store, lk);
    assert lb[0..] == lb;
    ChainRest(Since(a, b), Since(b, c), lb, lc[|pushed|..], Get(a.store, lk));
  }

  lemma ChainRest(s1: seq<Value>, s2: seq<Value>, mid: seq<Value>, rest: seq<Value>, whole: seq<Value>)
    requires s1 + mid == whole && s2 + rest == mid
    ensures (s1 + s2) + rest == whole
  {
    assert (s1 + s2) + rest == s1 + (s2 + rest);
  }

  lemma SinceTrans(a: State, b: State, c: State)
    requires a.invoked <= b.invoked && b.invoked <= c.invoked
    ensures a.invoked <= c.invoked
    ensures Since(a, c) == Since(a, b) + Since(b, c)
  {
    SinceSplits(a, b);
    SinceSplits(b, c);
    var s1, s2 := Since(a, b), Since(b, c);
    assert c.invoked == a.invoked + (s1 + s2);
    assert c.invoked[..|a.invoked|] == a.invoked;
  }

  lemma HooksTrans(spec: Spec, a: State, b: State, c: State)
    requires HooksFollowFailures(spec, a, b)
    requires HooksFollowFailures(spec, b, c)
    ensures HooksFollowFailures(spec, a, c)
  {
    assert c.hooks[..|a.hooks|] == c.hooks[..|b.hooks|][..|a.hooks|];
    assert c.failures[..|a.failures|] == c.failures[..|b.failures|][..|a.failures|];
    forall i | |a.hooks| <= i < |c.hooks|
      ensures c.hooks[i].workerId == spec.workerId
      ensures |a.failures| + i - |a.hooks| < |c.failures|
      ensures c.hooks[i].error == c.failures[|a.failures| + i - |a.hooks|]
    {
      if i >= |b.hooks| {
      } else {
        assert c.hooks[i] == b.hooks[i];
        assert |a.failures| + i - |a.hooks| < |b.failures|;
        assert c.failures[|a.failures| + i - |a.hooks|] == b.failures[|a.failures| + i - |a.hooks|];
      }
    }
  }

  /** How one pass of the `while True` body ends: the worker stops, or it
      reaches the timeout check after the inner loop ran dry or after the
      `except Exception` branch. */
  datatype PassEnd = Stopped(reason: Stop) | PassDone | ErrorHandled

  datatype PassResult = PassResult(st: State, end: PassEnd)

  /** What a run pushed back on its way out. */
  function PushedBack(policy: ItemPolicy, stop: Stop, final: State): (r: seq<Value>)
    ensures |r| <= 1
  {
    if stop.Interrupted? then Redelivery(policy, final.item) else []
  }

  /** The `except Exception as e` branch: report the failure, call the hook
      if there is one with the current `item` and `r`, and (under the
      corrected policy) forget the item. */
  function HandleError(policy: ItemPolicy, spec: Spec, st: State, e: Exc): (r: State)
    ensures HooksFollowFailures(spec, st, r)
    ensures r.failures == st.failures + [e]
    ensures r.hooks == st.hooks + (if spec.hasHook then [HookCall(st.item, e, st.queue, spec.workerId)] else [])
    ensures r.store == st.store && r.invoked == st.invoked
    ensures policy.KeepLast? ==> r.item == st.item
    ensures policy.ClearHandled? ==> r.item.None?
  {
    st.(failures := st.failures + [e],
        hooks := st.hooks + (if spec.hasHook then [HookCall(st.item, e, st.queue, spec.workerId)] else []),
        item := if policy.ClearHandled? then None else st.item)
  }

  /** The stop a pass reports; a pass that reaches the timeout check has
      not stopped the worker. */
  function StopOf(e: PassEnd): Stop
  {
    if e.Stopped? then e.reason else Running
  }

  /** What holds between the state `before` a stretch of the run and the
      state `after` it, when the stretch ends with `stop`: the queue lost
      the delivered items in order and got the redelivery in front, no other
      list changed, hook calls follow reported failures, and `item` is the
      last delivered item (as written) or is held only by an interrupted
      handler call (corrected). */
  ghost predicate RunFacts(policy: ItemPolicy, spec: Spec, before: State, stop: Stop, after: State)
  {
    var lk := QueueOf(spec.config).listKey;
    && Conserves(lk, before, after, PushedBack(policy, stop, after))
    && OthersUnchanged(lk, before, after)
    && HooksFollowFailures(spec, before, after)
    && (stop == Interrupted(true) ==>
          |after.invoked| > |before.invoked| && after.item == Some(Last(after.invoked)))
    && (policy.KeepLast? ==>
          after.item == if |after.invoked| == |before.invoked| then before.item else Some(Last(after.invoked)))
    && (policy.ClearHandled? && before.item.None? && after.item.Some? ==> stop == Interrupted(true))
  }

  lemma RunFactsRelabel(policy: ItemPolicy, spec: Spec, a: State, b: State, s1: Stop, s2: Stop)
    requires !s1.Interrupted? && !s2.Interrupted?
    requires RunFacts(policy, spec, a, s1, b)
    ensures RunFacts(policy, spec, a, s2, b)
  {
  }

  lemma RunFactsCompose(policy: ItemPolicy, spec: Spec, a: State, b: State, c: State, stop: Stop)
    requires RunFacts(policy, spec, a, Running, b)
    requires RunFacts(policy, spec, b, stop, c)
    ensures RunFacts(policy, spec, a, stop, c)
  {
    var lk := QueueOf(spec.config).listKey;
    ConservesTrans(lk, a, b, c, PushedBack(policy, stop, c));
    HooksTrans(spec, a, b, c);
    if |c.invoked| == |b.invoked| {
      assert c.invoked == b.invoked;
    }
  }

  /** A stretch of the run that delivers nothing and leaves the store alone
      keeps `RunFacts` as long as its hook calls follow its failures and it
      keeps or (corrected) forgets `item`. */
  lemma RunFactsNoDelivery(policy: ItemPolicy, spec: Spec, a: State, b: State, stop: Stop)
    requires !stop.Interrupted?
    requires b.store == a.store && b.invoked == a.invoked
    requires HooksFollowFailures(spec, a, b)
    requires policy.KeepLast? ==> b.item == a.item
    requires policy.ClearHandled? ==> b.item.None? || b.item == a.item
    ensures RunFacts(policy, spec, a, stop, b)
  {
    assert Since(a, b) == [];
    assert a.invoked[..|a.invoked|] == a.invoked;
  }

  /** The inner loop, run on `st` once its queue is built, keeps `RunFacts`
      from `st` when it stops without an error or an interrupt. */
  lemma InnerRunFacts(policy: ItemPolicy, spec: Spec, st: State, inner: Inner)
    requires InnerFacts(policy, QueueOf(spec.config), st.(queue := Some(QueueOf(spec.config))), inner)
    requires inner.exit.QueueEmpty? || inner.exit.Waiting?
    ensures RunFacts(policy, spec, st, Running, inner.st)
  {
    assert inner.st.invoked[..|st.invoked|] == st.invoked;
    assert Get(inner.st.store, QueueOf(spec.config).listKey)[0..] == Get(inner.st.store, QueueOf(spec.config).listKey);
  }

  /** ... and through the `except Exception` branch after a failing
      handler call. */
  lemma FailedRunFacts(policy: ItemPolicy, spec: Spec, st: State, inner: Inner, e: Exc)
    requires InnerFacts(policy, QueueOf(spec.config), st.(queue := Some(QueueOf(spec.config))), inner)
    requires inner.exit == HandlerFailed(e)
    ensures RunFacts(policy, spec, st, Running, HandleError(policy, spec, inner.st, e))
  {
    var after := HandleError(policy, spec, inner.st, e);
    assert after.invoked[..|st.invoked|] == st.invoked;
    assert Get(after.store, QueueOf(spec.config).listKey)[0..] == Get(after.store, QueueOf(spec.config).listKey);
    HooksTrans(spec, st, inner.st, after);
  }

  /** ... and through the interrupt branch, which pushes the redelivery to
      the head of the queue. */
  lemma InterruptedRunFacts(policy: ItemPolicy, spec: Spec, st: State, inner: Inner, b: bool)
    requires InnerFacts(policy, QueueOf(spec.config), st.(queue := Some(QueueOf(spec.config))), inner)
    requires inner.exit == InterruptedAt(b)
    ensures var lk := QueueOf(spec.config).listKey;
            RunFacts(policy, spec, st, Interrupted(b),
                     inner.st.(store := PushFront(inner.st.store, lk, Redelivery(policy, inner.st.item))))
  {
    var lk := QueueOf(spec.config).listKey;
    var after := inner.st.(store := PushFront(inner.st.store, lk, Redelivery(policy, inner.st.item)));
    var p := Redelivery(policy, inner.st.item);
    assert PushedBack(policy, Interrupted(b), after) == p;
    assert Get(after.store, lk) == p + Get(inner.st.store, lk);
    assert Get(after.store, lk)[|p|..] == Get(inner.st.store, lk);
    assert after.invoked[..|st.invoked|] == st.invoked;
    assert after.hooks[..|st.hooks|] == st.hooks && after.failures[..|st.failures|] == st.failures;
  }

  /** The rest of a pass once `init_add` succeeded: build the queue, run the
      inner loop over it, and the `except` branches that can follow it. An
      interrupt pushes `item` back to the head of the queue. */
  function ServeQueue(policy: ItemPolicy, spec: Spec, st: State): (r: PassResult)
    ensures RunFacts(policy, spec, st, StopOf(r.end), r.st)
    ensures r.end.PassDone? ==> spec.config.timeout.Some?
    ensures r.end.Stopped? ==> r.end.reason.Interrupted? || r.end.reason.Running?
  {
    var q := QueueOf(spec.config);
    var inner := Consume(policy, q, st.(queue := Some(q)));
    match inner.exit
    case QueueEmpty =>
      InnerRunFacts(policy, spec, st, inner);
      PassResult(inner.st, PassDone)
    case HandlerFailed(e) =>
      FailedRunFacts(policy, spec, st, inner, e);
      PassResult(HandleError(policy, spec, inner.st, e), ErrorHandled)
    case InterruptedAt(b) =>
      InterruptedRunFacts(policy, spec, st, inner, b);
      var pushed := PushFront(inner.st.store, q.listKey, Redelivery(policy, inner.st.item));
      PassResult(inner.st.(store := pushed), Stopped(Interrupted(b)))
    case Waiting =>
      InnerRunFacts(policy, spec, st, inner);
      PassResult(inner.st, Stopped(Running))
  }

  /** A pass after `init_add` returned `init`: `InitFail` stops the worker
      with the queue as it was; another exception from `init_add` goes to
      the `except Exception` branch; success goes on to the queue. */
  function AfterInit(policy: ItemPolicy, spec: Spec, st: State, init: InitResult): (r: PassResult)
    ensures RunFacts(policy, spec, st, StopOf(r.end), r.st)
    ensures r.end.PassDone? ==> spec.config.timeout.Some?
    ensures r.end == Stopped(InitFailed) ==> r.st.store == st.store && r.st.invoked == st.invoked
    ensures init.outcome == InitFail <==> r.end == Stopped(InitFailed)
    ensures init.outcome.Raised? ==>
              && r.end == ErrorHandled && r.st.store == st.store && r.st.invoked == st.invoked
              && r.st.failures == st.failures + [init.outcome.error]
              && r.st.hooks == st.hooks + (if spec.hasHook then [HookCall(st.item, init.outcome.error, st.queue, spec.workerId)] else [])
  {
    var st0 := st.(kwargs := init.kwargs);
    match init.outcome
    case InitFail =>
      assert st0.hooks[..|st.hooks|] == st.hooks && st0.failures[..|st.failures|] == st.failures;
      RunFactsNoDelivery(policy, spec, st, st0, InitFailed);
      PassResult(st0, Stopped(InitFailed))
    case Raised(e) =>
      var st1 := HandleError(policy, spec, st0, e);
      RunFactsNoDelivery(policy, spec, st, st1, Running);
      PassResult(st1, ErrorHandled)
    case Added => ServeQueue(policy, spec, st0)
  }

  /** One pass of the loop body: `init_add`, then the rest. */
  function Pass(policy: ItemPolicy, spec: Spec, st: State): (r: PassResult)
    ensures RunFacts(policy, spec, st, StopOf(r.end), r.st)
    ensures r.end.PassDone? ==> spec.config.timeout.Some?
    ensures r.end == Stopped(InitFailed) ==> r.st.store == st.store && r.st.invoked == st.invoked
  {
    AfterInit(policy, spec, st, InitAdd(st.kwargs, spec.initKwargs, spec.build))
  }

  /** How `init_add` decides a pass: `InitFail` and nothing else stops the
      worker with `InitFailed`; any other exception from `init_add` goes to
      the `except Exception` branch, which reports it and calls the hook
      with the `item` and `r` of before, with the queue untouched. */
  lemma PassInitOutcome(policy: ItemPolicy, spec: Spec, st: State)
    ensures var o := InitAdd(st.kwargs, spec.initKwargs, spec.build).outcome;
            o == InitFail <==> Pass(policy, spec, st).end == Stopped(InitFailed)
    ensures var o := InitAdd(st.kwargs, spec.initKwargs, spec.build).outcome;
            var r := Pass(policy, spec, st);
            o.Raised? ==>
              && r.end == ErrorHandled && r.st.store == st.store && r.st.invoked == st.invoked
              && r.st.failures == st.failures + [o.error]
              && r.st.hooks == st.hooks + (if spec.hasHook then [HookCall(st.item, o.error, st.queue, spec.workerId)] else [])
  {
  }

  /** The outer loop: after a pass that did not stop the worker, break when
      a timeout is configured, otherwise start over at `init_add`. */
  function Loop(policy: ItemPolicy, spec: Spec, st: State, fuel: nat): (r: Run)
    ensures r.passes <= fuel
    ensures spec.config.timeout.Some? ==> r.passes <= 1
    ensures RunFacts(policy, spec, st, r.stop, r.final)
    decreases fuel
  {
    if fuel == 0 then
      assert Since(st, st) == [];
      Run(Running, st, 0)
    else
      var p := Pass(policy, spec, st);
      match p.end
      case Stopped(reason) => Run(reason, p.st, 1)
      case PassDone =>
        RunFactsRelabel(policy, spec, st, p.st, Running, DrainedEmpty);
        Run(DrainedEmpty, p.st, 1)
      case ErrorHandled =>
        if spec.config.timeout.Some? then
          RunFactsRelabel(policy, spec, st, p.st, Running, DrainedAfterError);
          Run(DrainedAfterError, p.st, 1)
        else
          var r := Loop(policy, spec, p.st, fuel - 1);
          RunFactsCompose(policy, spec, st, p.st, r.final, r.stop);
          r.(passes := r.passes + 1)
  }

  /** The worker's state when `run_worker` is entered: `item` and `r` are
      `None`. */
  function Fresh(kwargs: Kwargs, store: Store, script: seq<Outcome>): State
  {
    State(kwargs, None, None, store, [], [], [], script)
  }

  /** From a fresh start, hook calls and reported failures line up one to
      one (none without a hook). */
  lemma FreshHooks(policy: ItemPolicy, spec: Spec, st: State, stop: Stop, fin: State)
    requires st.hooks == [] && st.failures == []
    requires RunFacts(policy, spec, st, stop, fin)
    ensures !spec.hasHook ==> fin.hooks == []
    ensures spec.hasHook ==> |fin.hooks| == |fin.failures|
    ensures forall i :: 0 <= i < |fin.hooks| ==>
              i < |fin.failures| && fin.hooks[i].error == fin.failures[i] && fin.hooks[i].workerId == spec.workerId
  {
    assert HooksFollowFailures(spec, st, fin);
  }

  /** From a fresh start, the queue is the redelivered item (if any) in
      front of what was not delivered, and what was delivered is the
      original list's head, in order. */
  lemma FreshQueue(policy: ItemPolicy, spec: Spec, st: State, stop: Stop, fin: State)
    requires st.invoked == [] && st.item.None?
    requires RunFacts(policy, spec, st, stop, fin)
    ensures var l := Get(fin.store, QueueOf(spec.config).listKey);
            var p := PushedBack(policy, stop, fin);
            |p| <= |l| && l[..|p|] == p &&
            fin.invoked + l[|p|..] == Get(st.store, QueueOf(spec.config).listKey)
    ensures policy.KeepLast? && stop.Interrupted? ==>
              var l := Get(fin.store, QueueOf(spec.config).listKey);
              l != [] && l[0] == if fin.invoked == [] then PyNone else Last(fin.invoked)
    ensures stop == Interrupted(true) ==>
              var l := Get(fin.store, QueueOf(spec.config).listKey);
              fin.invoked != [] && l != [] && l[0] == Last(fin.invoked)
    ensures policy.ClearHandled? && stop.Interrupted? ==>
              PushedBack(policy, stop, fin) == if stop.inHandler then [Last(fin.invoked)] else []
  {
    var lk := QueueOf(spec.config).listKey;
    var l := Get(fin.store, lk);
    var p := PushedBack(policy, stop, fin);
    assert Conserves(lk, st, fin, p);
    assert Since(st, fin) == fin.invoked;
    if stop.Interrupted? && |p| == 1 {
      assert l[0] == l[..1][0] == p[0];
    }
    if policy.ClearHandled? && stop == Interrupted(false) {
      assert fin.item.None?;
    }
  }

  /** `run_worker` over at most `fuel` passes of its loop. The failure hook
      is called once per reported failure, and never when absent; with a
      timeout the loop runs once. Items are handed to the handler in queue
      order. On an interrupt the worker pushes back, at the head of its
      queue, the last item it popped (`None` if none): the in-flight item
      when the handler was cut short, an already handled one otherwise. */
  function RunWorker(policy: ItemPolicy, spec: Spec, kwargs: Kwargs, store: Store, script: seq<Outcome>, fuel: nat): (r: Run)
    ensures spec.config.timeout.Some? ==> r.passes <= 1
    ensures !spec.hasHook ==> r.final.hooks == []
    ensures spec.hasHook ==> |r.final.hooks| == |r.final.failures|
    ensures forall i :: 0 <= i < |r.final.hooks| ==>
              i < |r.final.failures| && r.final.hooks[i].error == r.final.failures[i] &&
              r.final.hooks[i].workerId == spec.workerId
    ensures var l := Get(r.final.store, QueueOf(spec.config).listKey);
            var p := PushedBack(policy, r.stop, r.final);
            |p| <= |l| && l[..|p|] == p &&
            r.final.invoked + l[|p|..] == Get(store, QueueOf(spec.config).listKey)
    ensures forall k :: k != QueueOf(spec.config).listKey ==> Get(r.final.store, k) == Get(store, k)
    ensures policy.KeepLast? && r.stop.Interrupted? ==>
              var l := Get(r.final.store, QueueOf(spec.config).listKey);
              l != [] && l[0] == if r.final.invoked == [] then PyNone else Last(r.final.invoked)
    ensures r.stop == Interrupted(true) ==>
              var l := Get(r.final.store, QueueOf(spec.config).listKey);
              r.final.invoked != [] && l != [] && l[0] == Last(r.final.invoked)
    ensures policy.ClearHandled? && r.stop.Interrupted? ==>
              PushedBack(policy, r.stop, r.final) == if r.stop.inHandler then [Last(r.final.invoked)] else []
  {
    var st := Fresh(kwargs, store, script);
    var r := Loop(policy, spec, st, fuel);
    FreshHooks(policy, spec, st, r.stop, r.final);
    FreshQueue(policy, spec, st, r.stop, r.final);
    r
  }
}
