/** `RedisQueue` of meesee.py: one Redis list addressed as
    `namespace:key`, with a lossy size bound on `send` and a head-popping
    iterator. Every operation is a pure transition on the store. */
module Queue {
  import opened Store

  /** The list key a queue in `namespace` with name `key` lives under. */
  function ListKey(namespace: string, key: string): string
  {
    namespace + ":" + key
  }

  /** The queue object. The connection parameters are left out; `timeout`
      only matters through whether it is present. */
  datatype RedisQueue = RedisQueue(namespace: string, listKey: string, maxsize: Option<int>, timeout: Option<real>)

  /** `RedisQueue.__init__`. */
  function NewQueue(namespace: string, key: string, maxsize: Option<int>, timeout: Option<real>): RedisQueue
  {
    RedisQueue(namespace, ListKey(namespace, key), maxsize, timeout)
  }

  /** Within one namespace, list keys and queue names correspond one to one. */
  lemma ListKeyInjective(namespace: string, k1: string, k2: string)
    ensures ListKey(namespace, k1) == ListKey(namespace, k2) <==> k1 == k2
  {
    var p := namespace + ":";
    assert ListKey(namespace, k1) == p + k1;
    assert ListKey(namespace, k2) == p + k2;
    if p + k1 == p + k2 {
      assert k1 == (p + k1)[|p|..];
      assert k2 == (p + k2)[|p|..];
    }
  }

  /** Across namespaces the colon is ambiguous: a namespace that itself
      contains a colon can address the same list as another pair. */
  lemma ListKeyAcrossNamespaces()
    ensures ListKey("a:b", "c") == ListKey("a", "b:c")
  {
  }

  /** `first_inline_send`: pushes `v` in front of everything already queued. */
  function FirstInlineSend(q: RedisQueue, s: Store, v: Value): (r: Store)
    ensures Get(r, q.listKey) == [v] + Get(s, q.listKey)
    ensures forall k :: k != q.listKey ==> Get(r, k) == Get(s, k)
  {
    LPush(s, q.listKey, v)
  }

  /** `send_to`: appends to the sibling list `namespace:key`, whatever
      the queue's own bound; no other list changes. */
  function SendTo(q: RedisQueue, s: Store, key: string, v: Value): (r: Store)
    ensures Get(r, ListKey(q.namespace, key)) == Get(s, ListKey(q.namespace, key)) + [v]
    ensures forall k :: k != ListKey(q.namespace, key) ==> Get(r, k) == Get(s, k)
  {
    RPush(s, ListKey(q.namespace, key), v)
  }

  /** `send_to` on a queue built by `NewQueue` leaves the queue's own list
      alone exactly when it targets another name. */
  lemma SendToOwnListOnlyForOwnKey(namespace: string, key: string, maxsize: Option<int>, timeout: Option<real>,
                                   s: Store, other: string, v: Value)
    ensures var q := NewQueue(namespace, key, maxsize, timeout);
            Get(SendTo(q, s, other, v), q.listKey) == Get(s, q.listKey) <==> other != key
  {
    var q := NewQueue(namespace, key, maxsize, timeout);
    ListKeyInjective(namespace, key, other);
    if other == key {
      assert |Get(SendTo(q, s, other, v), q.listKey)| == |Get(s, q.listKey)| + 1;
    }
  }

  /** `send`: when a bound is set and the list already holds at least
      `maxsize` items, the head is popped first; then `v` is appended. The
      list is never trimmed down to the bound, so a list that is over it
      stays over it. */
  function Send(q: RedisQueue, s: Store, v: Value): (r: Store)
    ensures var before := Get(s, q.listKey);
            (q.maxsize.None? || |before| < q.maxsize.value) ==> Get(r, q.listKey) == before + [v]
    ensures var before := Get(s, q.listKey);
            q.maxsize.Some? && |before| >= q.maxsize.value && before != [] ==>
              Get(r, q.listKey) == before[1..] + [v] && |Get(r, q.listKey)| == |before|
    ensures var before := Get(s, q.listKey);
            q.maxsize.Some? && |before| >= q.maxsize.value && before == [] ==> Get(r, q.listKey) == [v]
    ensures q.maxsize.Some? && 1 <= q.maxsize.value && |Get(s, q.listKey)| <= q.maxsize.value ==>
              |Get(r, q.listKey)| <= q.maxsize.value
    ensures forall k :: k != q.listKey ==> Get(r, k) == Get(s, k)
  {
    var s1 := if q.maxsize.Some? && LLen(s, q.listKey) >= q.maxsize.value then LPop(s, q.listKey).store else s;
    RPush(s1, q.listKey, v)
  }

  /** `send_dict`: `send` of the JSON text of `d`. The encoder is a
      parameter: JSON itself is not modelled. */
  function SendDict<D>(q: RedisQueue, s: Store, d: D, dumps: D -> seq<byte>): (r: Store)
    ensures |Get(r, q.listKey)| > 0 && Get(r, q.listKey)[|Get(r, q.listKey)| - 1] == Raw(dumps(d))
    ensures forall k :: k != q.listKey ==> Get(r, k) == Get(s, k)
  {
    Send(q, s, Raw(dumps(d)))
  }

  /** What `__next__` produces: the `(key, value)` pair `blpop` returns,
      `StopIteration` when the timeout expires on an empty list, or nothing
      at all when no timeout is set and the list is empty (the call blocks). */
  datatype Next = Item(key: string, raw: Value, store: Store) | StopIteration | Blocked

  /** `__next__`. No other client is modelled, so an empty list stays empty
      for the whole wait. */
  function NextItem(q: RedisQueue, s: Store): (r: Next)
    ensures Get(s, q.listKey) != [] ==>
              r.Item? && r.key == q.listKey && r.raw == Get(s, q.listKey)[0] &&
              Get(r.store, q.listKey) == Get(s, q.listKey)[1..]
    ensures Get(s, q.listKey) == [] ==> (r.StopIteration? <==> q.timeout.Some?) && !r.Item?
    ensures r.Item? ==> forall k :: k != q.listKey ==> Get(r.store, k) == Get(s, k)
    ensures r.Item? && Valid(s) ==> Valid(r.store)
  {
    var p := LPop(s, q.listKey);
    if p.value.Some? then Item(q.listKey, p.value.value, p.store)
    else if q.timeout.Some? then StopIteration
    else Blocked
  }

  /** An item pushed with `first_inline_send` is the very next one `__next__`
      returns, and popping it gives back the store as it was. */
  lemma FirstInlineSendIsNext(q: RedisQueue, s: Store, v: Value)
    requires Valid(s)
    ensures NextItem(q, FirstInlineSend(q, s, v)) == Item(q.listKey, v, s)
  {
    var s1 := FirstInlineSend(q, s, v);
    var n := NextItem(q, s1);
    assert Get(n.store, q.listKey) == Get(s, q.listKey);
    SameListsSameStore(n.store, s);
  }

  /** The items a consumer sees by iterating the queue until it stops
      (timeout) or would block (no timeout), and the store left behind. */
  datatype Drained = Drained(items: seq<Value>, store: Store)

  function Drain(q: RedisQueue, s: Store): (r: Drained)
    ensures r.items == Get(s, q.listKey)
    ensures Get(r.store, q.listKey) == []
    ensures forall k :: k != q.listKey ==> Get(r.store, k) == Get(s, k)
    decreases |Get(s, q.listKey)|
  {
    match NextItem(q, s)
    case Item(_, v, rest) =>
      var d := Drain(q, rest);
      Drained([v] + d.items, d.store)
    case _ => Drained([], s)
  }

  /** `send` applied to each value in turn, as a producer loop does. */
  function SendAll(q: RedisQueue, s: Store, vs: seq<Value>): Store
    decreases |vs|
  {
    if vs == [] then s else SendAll(q, Send(q, s, vs[0]), vs[1..])
  }

  /** Without a bound, sending appends every value in order and touches no
      other list. */
  lemma {:induction false} SendAllUnbounded(q: RedisQueue, s: Store, vs: seq<Value>)
    requires q.maxsize.None?
    ensures Get(SendAll(q, s, vs), q.listKey) == Get(s, q.listKey) + vs
    ensures forall k :: k != q.listKey ==> Get(SendAll(q, s, vs), k) == Get(s, k)
    decreases |vs|
  {
    if vs != [] {
      var s1 := Send(q, s, vs[0]);
      SendAllUnbounded(q, s1, vs[1..]);
      assert Get(s1, q.listKey) + vs[1..] == Get(s, q.listKey) + vs;
    }
  }

  /** FIFO: unbounded sends followed by draining return what was queued
      before, then the sent values in send order. */
  lemma SendThenDrainIsFifo(q: RedisQueue, s: Store, vs: seq<Value>)
    requires q.maxsize.None?
    ensures Drain(q, SendAll(q, s, vs)).items == Get(s, q.listKey) + vs
  {
    SendAllUnbounded(q, s, vs);
  }

  /** The last `m` elements of `all`, or all of them when there are fewer. */
  function Newest(all: seq<Value>, m: nat): (r: seq<Value>)
  {
    if |all| <= m then all else all[|all| - m..]
  }

  /** One `send` within the bound `m` does not change which `m` values are
      newest among the list and whatever is sent after it. */
  lemma SendKeepsNewestStep(q: RedisQueue, s: Store, v: Value, later: seq<Value>)
    requires q.maxsize.Some? && q.maxsize.value >= 1
    requires |Get(s, q.listKey)| <= q.maxsize.value
    ensures Newest(Get(Send(q, s, v), q.listKey) + later, q.maxsize.value)
         == Newest(Get(s, q.listKey) + ([v] + later), q.maxsize.value)
  {
    var m := q.maxsize.value;
    var before := Get(s, q.listKey);
    var all := before + ([v] + later);
    var all1 := Get(Send(q, s, v), q.listKey) + later;
    if |before| < m {
      assert all1 == all;
    } else {
      assert all1 == all[1..];
      assert all1[|all1| - m..] == all[|all| - m..];
    }
  }

  /** Backpressure: sending to a list that is within a bound `m >= 1` keeps
      exactly the `m` most recent of the old items and the sent values
      (all of them when fewer), in order; the oldest are dropped first. */
  lemma {:induction false} SendAllKeepsNewest(q: RedisQueue, s: Store, vs: seq<Value>)
    requires q.maxsize.Some? && q.maxsize.value >= 1
    requires |Get(s, q.listKey)| <= q.maxsize.value
    ensures Get(SendAll(q, s, vs), q.listKey) == Newest(Get(s, q.listKey) + vs, q.maxsize.value)
    decreases |vs|
  {
    if vs == [] {
      assert Get(s, q.listKey) + vs == Get(s, q.listKey);
    } else {
      var s1 := Send(q, s, vs[0]);
      assert SendAll(q, s, vs) == SendAll(q, s1, vs[1..]);
      assert |Get(s1, q.listKey)| <= q.maxsize.value;
      SendAllKeepsNewest(q, s1, vs[1..]);
      SendKeepsNewestStep(q, s, vs[0], vs[1..]);
      assert [vs[0]] + vs[1..] == vs;
    }
  }
}
