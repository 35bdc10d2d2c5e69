/** The Redis server as the queue sees it: a map from list key to the list's
    contents, head first. Only the list primitives the queue calls are
    modelled (`rpush`, `lpush`, `lpop`, `llen`); `blpop` is built from them
    in module Queue. */
module Store {

  datatype Option<+T> = None | Some(value: T)

  newtype byte = b: int | 0 <= b < 256

  /** A list element: the bytes Redis holds, or the Python `None` a worker
      pushes back when it is stopped before it ever popped an item. */
  datatype Value = Raw(bytes: seq<byte>) | PyNone

  type Store = map<string, seq<Value>>

  /** Redis deletes a list when its last element goes, so no key is ever
      bound to an empty list. */
  ghost predicate Valid(s: Store)
  {
    forall k :: k in s ==> s[k] != []
  }

  /** The list stored under `k`; a missing key reads as the empty list. */
  function Get(s: Store, k: string): seq<Value>
  {
    if k in s then s[k] else []
  }

  /** Replaces the list under `k`, dropping the key when the list is empty. */
  function Put(s: Store, k: string, l: seq<Value>): (r: Store)
    ensures Get(r, k) == l
    ensures forall k' :: k' != k ==> Get(r, k') == Get(s, k')
    ensures Valid(s) ==> Valid(r)
  {
    if l == [] then s - {k} else s[k := l]
  }

  /** `RPUSH k v`: appends at the tail. */
  function RPush(s: Store, k: string, v: Value): (r: Store)
    ensures Get(r, k) == Get(s, k) + [v]
    ensures forall k' :: k' != k ==> Get(r, k') == Get(s, k')
    ensures Valid(s) ==> Valid(r)
  {
    Put(s, k, Get(s, k) + [v])
  }

  /** `LPUSH k v`: prepends at the head. */
  function LPush(s: Store, k: string, v: Value): (r: Store)
    ensures Get(r, k) == [v] + Get(s, k)
    ensures forall k' :: k' != k ==> Get(r, k') == Get(s, k')
    ensures Valid(s) ==> Valid(r)
  {
    Put(s, k, [v] + Get(s, k))
  }

  datatype Popped = Popped(value: Option<Value>, store: Store)

  /** `LPOP k`: removes and returns the head; on an empty list it returns
      nil and changes nothing. */
  function LPop(s: Store, k: string): (r: Popped)
    ensures Get(s, k) == [] ==> r == Popped(None, s)
    ensures Get(s, k) != [] ==> r.value == Some(Get(s, k)[0]) && Get(r.store, k) == Get(s, k)[1..]
    ensures forall k' :: k' != k ==> Get(r.store, k') == Get(s, k')
    ensures Valid(s) ==> Valid(r.store)
  {
    var l := Get(s, k);
    if l == [] then Popped(None, s) else Popped(Some(l[0]), Put(s, k, l[1..]))
  }

  /** `LLEN k`. */
  function LLen(s: Store, k: string): nat
  {
    |Get(s, k)|
  }

  /** Two valid stores that hold the same list under every key are equal:
      on a valid store `Get` loses nothing. */
  lemma SameListsSameStore(s1: Store, s2: Store)
    requires Valid(s1) && Valid(s2)
    requires forall k :: Get(s1, k) == Get(s2, k)
    ensures s1 == s2
  {
    forall k | k in s1
      ensures k in s2 && s2[k] == s1[k]
    {
      assert Get(s1, k) == s1[k];
      assert Get(s2, k) == Get(s1, k);
    }
    forall k | k in s2
      ensures k in s1
    {
      assert Get(s2, k) == s2[k];
      assert Get(s1, k) == Get(s2, k);
    }
  }
}
