/** Properties of whole `run_worker` runs. */
module WorkerProperties {
  import opened Store
  import opened Queue
  import opened Init
  import opened Worker

  /** The outcomes start with `n` successful handler calls. */
  predicate OkPrefix(script: seq<Outcome>, n: nat)
  {
    n <= |script| && forall i :: 0 <= i < n ==> script[i].Ok?
  }

  /** No interrupt arrives during the wait that follows the first `n`
      handler calls. */
  predicate QuietAfter(script: seq<Outcome>, n: nat)
  {
    n < |script| ==> !script[n].Interrupt?
  }

  /** With a timeout, enough successful handler calls and no interrupt
      during the last wait take the inner loop through the whole list until
      the iterator stops. */
  lemma {:induction false} ConsumeAllOk(policy: ItemPolicy, q: RedisQueue, st: State)
    requires q.timeout.Some?
    requires OkPrefix(st.script, |Get(st.store, q.listKey)|) && QuietAfter(st.script, |Get(st.store, q.listKey)|)
    ensures Consume(policy, q, st).exit == QueueEmpty
    decreases |st.script|
  {
    var l := Get(st.store, q.listKey);
    if l != [] {
      match NextItem(q, st.store)
      case Item(_, v, rest) =>
        assert st.script[0].Ok?;
        var st1 := AfterOk(policy, st, v, rest);
        ConsumeOkStep(policy, q, st, v, rest);
        assert Get(rest, q.listKey) == l[1..];
        assert forall i :: 0 <= i < |l| - 1 ==> st1.script[i] == st.script[i + 1];
        assert |l| - 1 < |st1.script| ==> st1.script[|l| - 1] == st.script[|l|];
        ConsumeAllOk(policy, q, st1);
    }
  }

  /** Handler calls that succeed `k` times and then raise `e` end the inner
      loop with that error, holding the `k+1`-th item of the list. */
  lemma {:induction false} ConsumeOkThenFail(policy: ItemPolicy, q: RedisQueue, st: State, k: nat, e: Exc)
    requires k < |Get(st.store, q.listKey)|
    requires OkPrefix(st.script, k) && k < |st.script| && st.script[k] == Fails(e)
    ensures var r := Consume(policy, q, st);
            r.exit == HandlerFailed(e) && r.st.item == Some(Get(st.store, q.listKey)[k]) &&
            r.st.invoked == st.invoked + Get(st.store, q.listKey)[..k + 1]
    decreases |st.script|
  {
    var l := Get(st.store, q.listKey);
    match NextItem(q, st.store)
    case Item(_, v, rest) =>
      if k == 0 {
        ConsumeFailStep(policy, q, st, v, rest, e);
        assert l[..1] == [v];
      } else {
        var st1 := AfterOk(policy, st, v, rest);
        ConsumeOkStep(policy, q, st, v, rest);
        assert Get(st1.store, q.listKey) == l[1..];
        OkPrefixTail(st.script, k);
        ConsumeOkThenFail(policy, q, st1, k - 1, e);
        PrefixAfterHead(st.invoked, l, k);
      }
  }

  lemma OkPrefixTail(script: seq<Outcome>, k: nat)
    requires 1 <= k < |script| && OkPrefix(script, k)
    ensures OkPrefix(script[1..], k - 1) && script[1..][k - 1] == script[k]
  {
  }

  /** Delivering the head of `l` and then `k` items of its tail delivers
      the first `k+1` items of `l`. */
  lemma PrefixAfterHead(pre: seq<Value>, l: seq<Value>, k: nat)
    requires 0 < k < |l|
    ensures (pre + [l[0]]) + l[1..][..k] == pre + l[..k + 1]
    ensures l[1..][k - 1] == l[k]
  {
    assert l[..k + 1] == [l[0]] + l[1..][..k];
  }

  /** When `init_add` succeeds, a pass goes on to the queue with the
      rewritten keyword arguments. */
  lemma {:induction false} PassAfterAdded(policy: ItemPolicy, spec: Spec, st: State)
    requires InitAdd(st.kwargs, spec.initKwargs, spec.build).outcome == Added
    ensures Pass(policy, spec, st)
            == ServeQueue(policy, spec, st.(kwargs := InitAdd(st.kwargs, spec.initKwargs, spec.build).kwargs))
  {
  }

  /** A pass that stops the worker ends the loop. */
  lemma {:induction false} LoopStopsWithPass(policy: ItemPolicy, spec: Spec, st: State, fuel: nat)
    requires fuel >= 1
    requires Pass(policy, spec, st).end.Stopped?
    ensures Loop(policy, spec, st, fuel) == Run(Pass(policy, spec, st).end.reason, Pass(policy, spec, st).st, 1)
  {
  }

  /** In long-lived mode a handled error starts the loop over. */
  lemma {:induction false} LoopGoesOn(policy: ItemPolicy, spec: Spec, st: State, fuel: nat)
    requires fuel >= 1 && spec.config.timeout.None?
    requires Pass(policy, spec, st).end == ErrorHandled
    ensures var r := Loop(policy, spec, Pass(policy, spec, st).st, fuel - 1);
            Loop(policy, spec, st, fuel) == r.(passes := r.passes + 1)
  {
    var p := Pass(policy, spec, st);
    assert p.end == ErrorHandled && !spec.config.timeout.Some?;
    var r := Loop(policy, spec, p.st, fuel - 1);
    assert Loop(policy, spec, st, fuel) == r.(passes := r.passes + 1);
  }

  /** In drain mode the loop ends after its first pass, however that pass
      ends. */
  lemma {:induction false} LoopEndsInDrainMode(policy: ItemPolicy, spec: Spec, st: State, fuel: nat)
    requires fuel >= 1 && spec.config.timeout.Some?
    ensures var p := Pass(policy, spec, st);
            Loop(policy, spec, st, fuel)
            == Run(match p.end
                   case Stopped(reason) => reason
                   case PassDone => DrainedEmpty
                   case ErrorHandled => DrainedAfterError,
                   p.st, 1)
  {
  }

  /** With a timeout and a successful handler call for every item, the
      pass hands out the whole list in order and reaches the timeout check
      with the list empty and no failure reported. */
  lemma {:induction false} ServeQueueRunsDry(policy: ItemPolicy, spec: Spec, st: State)
    requires spec.config.timeout.Some?
    requires OkPrefix(st.script, |Get(st.store, QueueOf(spec.config).listKey)|)
    requires QuietAfter(st.script, |Get(st.store, QueueOf(spec.config).listKey)|)
    ensures var q := QueueOf(spec.config);
            var p := ServeQueue(policy, spec, st);
            && p.end == PassDone
            && p.st.invoked == st.invoked + Get(st.store, q.listKey)
            && Get(p.st.store, q.listKey) == []
            && p.st.hooks == st.hooks && p.st.failures == st.failures
  {
    var q := QueueOf(spec.config);
    var st0 := st.(queue := Some(q));
    ConsumeAllOk(policy, q, st0);
    var inner := Consume(policy, q, st0);
    assert ServeQueue(policy, spec, st) == PassResult(inner.st, PassDone);
    assert Get(inner.st.store, q.listKey) == [];
    assert Since(st0, inner.st) == Get(st.store, q.listKey);
    SinceSplits(st0, inner.st);
  }

  /** The handler returns `k` times and then raises `e`: the pass reports
      `e`, calls the hook with the failing item, hands out the first `k+1`
      items and leaves the rest of the list. */
  lemma {:induction false} ServeQueueFailsAfter(policy: ItemPolicy, spec: Spec, st: State, k: nat, e: Exc)
    requires k < |Get(st.store, QueueOf(spec.config).listKey)|
    requires OkPrefix(st.script, k) && k < |st.script| && st.script[k] == Fails(e)
    ensures var q := QueueOf(spec.config);
            var l := Get(st.store, q.listKey);
            var p := ServeQueue(policy, spec, st);
            && p.end == ErrorHandled && p.st.kwargs == st.kwargs
            && p.st.failures == st.failures + [e] && p.st.invoked == st.invoked + l[..k + 1]
            && p.st.hooks == st.hooks + (if spec.hasHook then [HookCall(Some(l[k]), e, Some(q), spec.workerId)] else [])
            && Get(p.st.store, q.listKey) == l[k + 1..]
  {
    var q := QueueOf(spec.config);
    var l := Get(st.store, q.listKey);
    var st0 := st.(queue := Some(q));
    ConsumeOkThenFail(policy, q, st0, k, e);
    var inner := Consume(policy, q, st0);
    assert ServeQueue(policy, spec, st) == PassResult(HandleError(policy, spec, inner.st, e), ErrorHandled);
    assert Since(st0, inner.st) == l[..k + 1];
    assert l == l[..k + 1] + l[k + 1..];
  }

  /** Drain mode, no failures: when `init_add` succeeds and the handler
      returns for every item, the worker hands every queued item to the
      handler exactly once and in queue order, leaves the queue empty, calls
      no hook, and stops after one pass because the iterator ran dry. */
  lemma {:induction false} DrainHandlesEveryItemOnce(policy: ItemPolicy, spec: Spec, kwargs: Kwargs, store: Store,
                                  script: seq<Outcome>, fuel: nat)
    requires spec.config.timeout.Some? && fuel >= 1
    requires InitAdd(kwargs, spec.initKwargs, spec.build).outcome == Added
    requires OkPrefix(script, |Get(store, QueueOf(spec.config).listKey)|)
    requires QuietAfter(script, |Get(store, QueueOf(spec.config).listKey)|)
    ensures var r := RunWorker(policy, spec, kwargs, store, script, fuel);
            && r.stop == DrainedEmpty && r.passes == 1
            && r.final.invoked == Get(store, QueueOf(spec.config).listKey)
            && Get(r.final.store, QueueOf(spec.config).listKey) == []
            && r.final.hooks == [] && r.final.failures == []
  {
    var st := Fresh(kwargs, store, script);
    PassAfterAdded(policy, spec, st);
    ServeQueueRunsDry(policy, spec, st.(kwargs := InitAdd(kwargs, spec.initKwargs, spec.build).kwargs));
    LoopEndsInDrainMode(policy, spec, st, fuel);
  }

  /** Drain mode, one failure: when the handler returns `k` times and then
      raises `e`, the worker reports `e` once, calls the hook (if any) once
      with the raw failing item, the exception, its queue and its id, and
      stops after that single pass with the rest of the queue untouched. */
  lemma {:induction false} DrainFailureCallsHookOnce(policy: ItemPolicy, spec: Spec, kwargs: Kwargs, store: Store,
                                  script: seq<Outcome>, fuel: nat, k: nat, e: Exc)
    requires spec.config.timeout.Some? && fuel >= 1
    requires InitAdd(kwargs, spec.initKwargs, spec.build).outcome == Added
    requires k < |Get(store, QueueOf(spec.config).listKey)|
    requires OkPrefix(script, k) && k < |script| && script[k] == Fails(e)
    ensures var r := RunWorker(policy, spec, kwargs, store, script, fuel);
            var l := Get(store, QueueOf(spec.config).listKey);
            && r.stop == DrainedAfterError && r.passes == 1
            && r.final.failures == [e]
            && r.final.hooks == (if spec.hasHook then [HookCall(Some(l[k]), e, Some(QueueOf(spec.config)), spec.workerId)] else [])
            && r.final.invoked == l[..k + 1]
            && Get(r.final.store, QueueOf(spec.config).listKey) == l[k + 1..]
  {
    var st := Fresh(kwargs, store, script);
    PassAfterAdded(policy, spec, st);
    ServeQueueFailsAfter(policy, spec, st.(kwargs := InitAdd(kwargs, spec.initKwargs, spec.build).kwargs), k, e);
    LoopEndsInDrainMode(policy, spec, st, fuel);
  }

  /** `InitFail` stops the worker in its first pass before any queue
      operation: nothing is popped, pushed, handed to the handler or
      reported to the hook. */
  lemma {:induction false} InitFailLeavesQueueAlone(policy: ItemPolicy, spec: Spec, kwargs: Kwargs, store: Store,
                                 script: seq<Outcome>, fuel: nat)
    requires fuel >= 1
    requires InitAdd(kwargs, spec.initKwargs, spec.build).outcome == InitFail
    ensures var r := RunWorker(policy, spec, kwargs, store, script, fuel);
            r.stop == InitFailed && r.final.store == store && r.final.invoked == [] &&
            r.final.hooks == [] && r.final.failures == []
  {
  }

  /** Drain mode makes exactly one pass: allowing more passes changes
      nothing. */
  lemma {:induction false} DrainModeIsOnePass(policy: ItemPolicy, spec: Spec, kwargs: Kwargs, store: Store,
                           script: seq<Outcome>, fuel: nat)
    requires spec.config.timeout.Some? && fuel >= 1
    ensures RunWorker(policy, spec, kwargs, store, script, fuel) == RunWorker(policy, spec, kwargs, store, script, 1)
  {
  }

  /** Long-lived mode (no timeout) with factories to build: after a handler
      error the loop goes back to `init_add`, which finds the objects built
      in the first pass where the factories were, cannot call them, and
      raises `InitFail`. The worker stops after reporting the one error. */
  lemma {:induction false} LongLivedErrorEndsInInitFail(policy: ItemPolicy, spec: Spec, kwargs: Kwargs, store: Store,
                                     script: seq<Outcome>, fuel: nat, e: Exc)
    requires DistinctNames(spec.initKwargs) && |spec.initKwargs| > 0
    requires spec.config.timeout.None? && fuel >= 2
    requires InitAdd(kwargs, spec.initKwargs, spec.build).outcome == Added
    requires Get(store, QueueOf(spec.config).listKey) != []
    requires script != [] && script[0] == Fails(e)
    ensures var r := RunWorker(policy, spec, kwargs, store, script, fuel);
            var l := Get(store, QueueOf(spec.config).listKey);
            && r.stop == InitFailed && r.passes == 2
            && r.final.failures == [e] && r.final.invoked == [l[0]]
            && r.final.hooks == (if spec.hasHook then [HookCall(Some(l[0]), e, Some(QueueOf(spec.config)), spec.workerId)] else [])
            && Get(r.final.store, QueueOf(spec.config).listKey) == l[1..]
  {
    var st := Fresh(kwargs, store, script);
    var init := InitAdd(kwargs, spec.initKwargs, spec.build);
    PassAfterAdded(policy, spec, st);
    ServeQueueFailsAfter(policy, spec, st.(kwargs := init.kwargs), 0, e);
    var p := Pass(policy, spec, st);
    LoopGoesOn(policy, spec, st, fuel);
    InitAddTwiceFails(kwargs, spec.initKwargs, spec.build);
    LoopStopsWithPass(policy, spec, p.st, fuel - 1);
  }

  /** An interrupt while the worker waits on an empty list, with or
      without a timeout, ends the inner loop without popping. */
  lemma {:induction false} ConsumeIdleInterrupt(policy: ItemPolicy, q: RedisQueue, st: State)
    requires Get(st.store, q.listKey) == []
    requires st.script != [] && st.script[0] == Interrupt
    ensures Consume(policy, q, st) == Inner(st.(script := st.script[1..]), InterruptedAt(false))
  {
  }

  /** The run behind the finding: the list holds one item `v`, the handler
      returns for it, and an interrupt arrives while the worker waits. The
      pass pushes back whatever `item` still holds. */
  lemma {:induction false} ServeQueueHandledThenIdle(policy: ItemPolicy, spec: Spec, st: State, v: Value)
    requires st.item.None?
    requires Get(st.store, QueueOf(spec.config).listKey) == [v]
    requires st.script == [Ok, Interrupt]
    ensures var p := ServeQueue(policy, spec, st);
            && p.end == Stopped(Interrupted(false)) && p.st.invoked == st.invoked + [v]
            && Get(p.st.store, QueueOf(spec.config).listKey) == if policy.KeepLast? then [v] else []
  {
    var q := QueueOf(spec.config);
    var st0 := st.(queue := Some(q));
    match NextItem(q, st0.store)
    case Item(_, _, rest) =>
      ConsumeOkStep(policy, q, st0, v, rest);
      ConsumeIdleInterrupt(policy, q, AfterOk(policy, st0, v, rest));
  }

  /** As written, an interrupt while the worker waits on an empty list
      pushes back the item it already handled: that item is delivered a
      second time to whichever worker pops next. This holds in both modes:
      the wait is the blocking `blpop` without a timeout, or the timed one
      of drain mode. */
  lemma {:induction false} IdleInterruptRedeliversHandledItem(spec: Spec, v: Value, fuel: nat)
    requires spec.initKwargs == []
    requires fuel >= 1
    ensures var lk := QueueOf(spec.config).listKey;
            var r := RunWorker(KeepLast, spec, map[], map[lk := [v]], [Ok, Interrupt], fuel);
            r.stop == Interrupted(false) && r.final.invoked == [v] && Get(r.final.store, lk) == [v]
  {
    var st := Fresh(map[], map[QueueOf(spec.config).listKey := [v]], [Ok, Interrupt]);
    PassAfterAdded(KeepLast, spec, st);
    ServeQueueHandledThenIdle(KeepLast, spec, st, v);
    LoopStopsWithPass(KeepLast, spec, st, fuel);
  }

  /** As written, an interrupt before anything was popped pushes Python's
      `None` to the head of the queue. */
  lemma {:induction false} IdleInterruptPushesNone(spec: Spec, fuel: nat)
    requires spec.initKwargs == []
    requires fuel >= 1
    ensures var lk := QueueOf(spec.config).listKey;
            var r := RunWorker(KeepLast, spec, map[], map[], [Interrupt], fuel);
            r.stop == Interrupted(false) && r.final.invoked == [] && Get(r.final.store, lk) == [PyNone]
  {
    var st := Fresh(map[], map[], [Interrupt]);
    var q := QueueOf(spec.config);
    PassAfterAdded(KeepLast, spec, st);
    ConsumeIdleInterrupt(KeepLast, q, st.(queue := Some(q)));
    LoopStopsWithPass(KeepLast, spec, st, fuel);
  }

  /** Corrected redelivery: when the worker forgets each item once its
      handler returned or failed, an interrupt pushes back exactly the item
      whose handler call it cut short, and nothing when it came while the
      worker was waiting. The queue then holds every item not yet handed
      out, so no item that completed is ever delivered again. */
  lemma {:induction false} CorrectedRedeliveryOnlyInFlight(spec: Spec, kwargs: Kwargs, store: Store, script: seq<Outcome>, fuel: nat, b: bool)
    requires RunWorker(ClearHandled, spec, kwargs, store, script, fuel).stop == Interrupted(b)
    ensures var r := RunWorker(ClearHandled, spec, kwargs, store, script, fuel);
            var l := Get(store, QueueOf(spec.config).listKey);
            var handed := r.final.invoked;
            |handed| <= |l| && handed == l[..|handed|] &&
            Get(r.final.store, QueueOf(spec.config).listKey)
              == (if b then [Last(handed)] else []) + l[|handed|..]
  {
    var r := RunWorker(ClearHandled, spec, kwargs, store, script, fuel);
    var lk := QueueOf(spec.config).listKey;
    var p := PushedBack(ClearHandled, r.stop, r.final);
    assert p == if b then [Last(r.final.invoked)] else [];
    SplitAtPushed(r.final.invoked, Get(store, lk), Get(r.final.store, lk), p);
  }

  /** A list that starts with `p` and continues with what `handed` left of
      `l` is `p` in front of the undelivered rest of `l`. */
  lemma SplitAtPushed(handed: seq<Value>, l: seq<Value>, fl: seq<Value>, p: seq<Value>)
    requires |p| <= |fl| && fl[..|p|] == p && handed + fl[|p|..] == l
    ensures |handed| <= |l| && handed == l[..|handed|] && fl == p + l[|handed|..]
  {
    assert l[|handed|..] == fl[|p|..];
    assert fl == fl[..|p|] + fl[|p|..];
  }

  /** The corrected worker on the same run as the as-written one above:
      the handled item is not pushed back. */
  lemma {:induction false} CorrectedIdleInterruptKeepsQueueEmpty(spec: Spec, v: Value, fuel: nat)
    requires spec.initKwargs == []
    requires fuel >= 1
    ensures var lk := QueueOf(spec.config).listKey;
            var r := RunWorker(ClearHandled, spec, map[], map[lk := [v]], [Ok, Interrupt], fuel);
            r.stop == Interrupted(false) && r.final.invoked == [v] && Get(r.final.store, lk) == []
  {
    var st := Fresh(map[], map[QueueOf(spec.config).listKey := [v]], [Ok, Interrupt]);
    PassAfterAdded(ClearHandled, spec, st);
    ServeQueueHandledThenIdle(ClearHandled, spec, st, v);
    LoopStopsWithPass(ClearHandled, spec, st, fuel);
  }
}
