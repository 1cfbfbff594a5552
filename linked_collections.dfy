/**
 * Insertion-ordered tables and sets: the `LinkedHashMap` and `LinkedHashSet`
 * that the registry keeps its groups and listeners in. A table is a sequence of
 * entries in insertion order, a set a sequence of elements in insertion order.
 */
module LinkedCollections {
  import opened Wrappers

  /** One key/value entry of an insertion-ordered table. */
  datatype Entry<K, V> = Entry(key: K, value: V)

  /** No element occurs twice: what makes a sequence a set. */
  ghost predicate Distinct<T>(s: seq<T>) {
    forall i, j :: 0 <= i < j < |s| ==> s[i] != s[j]
  }

  /** No key occurs twice: what makes a sequence of entries a map. */
  ghost predicate KeysDistinct<K, V>(t: seq<Entry<K, V>>) {
    forall i, j :: 0 <= i < j < |t| ==> t[i].key != t[j].key
  }

  /** The position of the first entry with key `k`, or `|t|` when there is none. */
  function IndexOfKey<K(==), V>(t: seq<Entry<K, V>>, k: K): (i: nat)
    ensures i <= |t|
    ensures i < |t| ==> t[i].key == k
    ensures forall j :: 0 <= j < i ==> t[j].key != k
  {
    if t == [] then 0
    else if t[0].key == k then 0
    else 1 + IndexOfKey(t[1..], k)
  }

  /** `map.get(k)`: the value stored under `k`, or `None` (Java's `null`). */
  function Get<K(==), V>(t: seq<Entry<K, V>>, k: K): (r: Option<V>)
    ensures r.None? <==> forall i :: 0 <= i < |t| ==> t[i].key != k
    ensures r.Some? ==> Entry(k, r.value) in t
    ensures KeysDistinct(t) ==> forall i :: 0 <= i < |t| && t[i].key == k ==> r == Some(t[i].value)
  {
    var i := IndexOfKey(t, k);
    if i < |t| then Some(t[i].value) else None
  }

  /**
   * `map.put(k, v)`: a key already present keeps its position and gets the new
   * value; a new key is appended last.
   */
  function Put<K(==), V>(t: seq<Entry<K, V>>, k: K, v: V): (r: seq<Entry<K, V>>)
    ensures Get(r, k) == Some(v)
    ensures Get(t, k).None? ==> r == t + [Entry(k, v)]
    ensures Get(t, k).Some? ==> |r| == |t|
    ensures Get(t, k) == Some(v) ==> r == t
  {
    var i := IndexOfKey(t, k);
    var r := if i < |t| then t[i := Entry(k, v)] else t + [Entry(k, v)];
    assert forall j :: 0 <= j < i ==> r[j] == t[j];
    assert i < |r| && r[i] == Entry(k, v);
    var m := IndexOfKey(r, k);
    assert m == i;
    r
  }

  /**
   * On a map (no key twice), `put` keeps the map a map, and `put` under a
   * present key replaces that one entry in place.
   */
  lemma PutInPlace<K, V>(t: seq<Entry<K, V>>, k: K, v: V)
    ensures KeysDistinct(t) ==> KeysDistinct(Put(t, k, v))
    ensures KeysDistinct(t) && Get(t, k).Some? ==>
              forall i :: 0 <= i < |t| ==> Put(t, k, v)[i] == (if t[i].key == k then Entry(k, v) else t[i])
  {
  }

  /** A second `put` under the same key overwrites the first. */
  lemma PutOverwrites<K, V>(t: seq<Entry<K, V>>, k: K, a: V, b: V)
    ensures Put(Put(t, k, a), k, b) == Put(t, k, b)
  {
  }

  /** `put` under one key leaves the entry of every other key as it was. */
  lemma PutKeepsOtherKeys<K, V>(t: seq<Entry<K, V>>, k: K, v: V, k': K)
    requires k' != k
    ensures Get(Put(t, k, v), k') == Get(t, k')
  {
    var r := Put(t, k, v);
    var m := IndexOfKey(t, k');
    assert forall j :: 0 <= j < |t| ==> r[j].key == t[j].key;
    var m' := IndexOfKey(r, k');
    if m < |t| {
      assert m' == m;
    } else {
      assert m' == |r|;
    }
  }

  /** `map.values()`: the values of a table, in insertion order. */
  function Values<K, V>(t: seq<Entry<K, V>>): (vs: seq<V>)
    ensures |vs| == |t| && forall i :: 0 <= i < |t| ==> vs[i] == t[i].value
  {
    if t == [] then [] else [t[0].value] + Values(t[1..])
  }

  /** `set.add(x)`: an element already present leaves the set as it is; a new one is appended last. */
  function SetAdd<T(==)>(s: seq<T>, x: T): (r: seq<T>)
    ensures x in r && forall i :: 0 <= i < |r| ==> r[i] in s || r[i] == x
    ensures Distinct(s) ==> Distinct(r)
    ensures x in s ==> r == s
    ensures |s| <= |r| <= |s| + 1 && r[..|s|] == s
  {
    if x in s then s else s + [x]
  }

  /** The position of the first occurrence of `x` in `s`, or `|s|`. */
  function IndexOf<T(==)>(s: seq<T>, x: T): (i: nat)
    ensures i <= |s| && (i < |s| <==> x in s)
    ensures i < |s| ==> s[i] == x
    ensures forall j :: 0 <= j < i ==> s[j] != x
  {
    if s == [] then 0 else if s[0] == x then 0 else 1 + IndexOf(s[1..], x)
  }

  /** `set.remove(x)`: drops `x` and keeps the order of the other elements. */
  function SetRemove<T(==)>(s: seq<T>, x: T): (r: seq<T>)
    ensures forall i :: 0 <= i < |r| ==> r[i] in s
    ensures forall i :: 0 <= i < |s| && s[i] != x ==> s[i] in r
    ensures Distinct(s) ==> x !in r && Distinct(r)
    ensures x !in s ==> r == s
    ensures |r| == if x in s then |s| - 1 else |s|
  {
    if s == [] then []
    else if s[0] == x then s[1..]
    else [s[0]] + SetRemove(s[1..], x)
  }

  /**
   * `set.remove(x)` on an insertion-ordered set cuts the first occurrence of `x`
   * out: the elements before and after it keep their order.
   */
  lemma {:induction false} SetRemoveKeepsOrder<T>(s: seq<T>, x: T)
    ensures var i := IndexOf(s, x); SetRemove(s, x) == if i < |s| then s[..i] + s[i + 1..] else s
  {
    if s == [] {
    } else if s[0] == x {
      HeadAndTail(s);
    } else {
      var t := s[1..];
      SetRemoveKeepsOrder(t, x);
      var i := IndexOf(t, x);
      assert IndexOf(s, x) == i + 1;
      if i < |t| {
        calc {
          SetRemove(s, x);
          [s[0]] + SetRemove(t, x);
          [s[0]] + (t[..i] + t[i + 1..]);
          { CutAfterHead(s, i); }
          s[..i + 1] + s[i + 2..];
        }
      } else {
        HeadAndTail(s);
      }
    }
  }

  /** A non-empty sequence is its head followed by its tail. */
  lemma HeadAndTail<T>(s: seq<T>)
    requires s != []
    ensures [s[0]] + s[1..] == s && s[..0] + s[1..] == s[1..]
  {
  }

  /** Cutting element `i + 1` out of `s` is keeping its head and cutting element `i` out of its tail. */
  lemma CutAfterHead<T>(s: seq<T>, i: nat)
    requires i + 1 < |s|
    ensures [s[0]] + (s[1..][..i] + s[1..][i + 1..]) == s[..i + 1] + s[i + 2..]
  {
    assert s[..i + 1] == [s[0]] + s[1..][..i] && s[i + 2..] == s[1..][i + 1..];
  }

  /** A table from owners to listener sets: a map whose every value is a set. */
  ghost predicate ListenerTableValid<K, L>(t: seq<Entry<K, seq<L>>>) {
    KeysDistinct(t) && forall e :: e in t ==> Distinct(e.value)
  }

  /** The listeners registered for `k`, or none when `k` has no entry. */
  function ListenersOf<K(==), L>(t: seq<Entry<K, seq<L>>>, k: K): seq<L> {
    match Get(t, k)
    case None => []
    case Some(ls) => ls
  }

  /**
   * Registering listener `l` for owner `k`: the owner's set is looked up, created
   * empty and put when it is missing, and `l` is added to it.
   */
  function WithListener<K(==), L(==)>(t: seq<Entry<K, seq<L>>>, k: K, l: L): (r: seq<Entry<K, seq<L>>>)
    ensures ListenersOf(r, k) == SetAdd(ListenersOf(t, k), l)
    ensures ListenerTableValid(t) ==> ListenerTableValid(r)
    ensures l in ListenersOf(t, k) ==> r == t
    ensures Get(t, k).None? ==> r == t + [Entry(k, [l])]
  {
    PutInPlace(t, k, SetAdd(ListenersOf(t, k), l));
    Put(t, k, SetAdd(ListenersOf(t, k), l))
  }

  /**
   * Unregistering listener `l` for owner `k`: only an existing set is touched,
   * and an emptied set stays in the table.
   */
  function WithoutListener<K(==), L(==)>(t: seq<Entry<K, seq<L>>>, k: K, l: L): (r: seq<Entry<K, seq<L>>>)
    ensures ListenersOf(r, k) == SetRemove(ListenersOf(t, k), l)
    ensures ListenerTableValid(t) ==> ListenerTableValid(r) && l !in ListenersOf(r, k)
    ensures Get(t, k).None? ==> r == t
    ensures |r| == |t|
    ensures ListenerTableValid(t) ==>
              forall i :: 0 <= i < |t| ==>
                r[i] == (if t[i].key == k then Entry(k, SetRemove(t[i].value, l)) else t[i])
  {
    match Get(t, k)
    case None => t
    case Some(ls) =>
      PutInPlace(t, k, SetRemove(ls, l));
      Put(t, k, SetRemove(ls, l))
  }

  /**
   * A registration done step by step on the table, as the registry does it: the
   * owner's set is looked up, an empty one is created and put when it is
   * missing, and `l` is added to the set.
   */
  method AddListener<K(==), L(==)>(t: seq<Entry<K, seq<L>>>, k: K, l: L) returns (r: seq<Entry<K, seq<L>>>)
    ensures r == WithListener(t, k, l)
  {
    r := t;
    var listeners := Get(r, k);
    if listeners.None? {
      listeners := Some([]);
      PutOverwrites(r, k, [], SetAdd([], l));
      r := Put(r, k, []);
    }
    r := Put(r, k, SetAdd(listeners.value, l));
  }

  /**
   * An unregistration done step by step on the table: the owner's set is looked
   * up and, when there is one, `l` is removed from it.
   */
  method RemoveListener<K(==), L(==)>(t: seq<Entry<K, seq<L>>>, k: K, l: L) returns (r: seq<Entry<K, seq<L>>>)
    ensures r == WithoutListener(t, k, l)
  {
    r := t;
    var listeners := Get(r, k);
    if listeners.Some? {
      r := Put(r, k, SetRemove(listeners.value, l));
    }
  }

  /** Registering a listener keeps every owner at its position; only `k` may be appended. */
  lemma WithListenerKeepsOwners<K, L>(t: seq<Entry<K, seq<L>>>, k: K, l: L)
    requires KeysDistinct(t)
    ensures var r := WithListener(t, k, l);
            forall j :: 0 <= j < |r| ==> r[j].key == k || (j < |t| && r[j].key == t[j].key)
  {
  }

  /** Registering or unregistering a listener for `k` leaves every other owner's set as it was. */
  lemma ListenerChangeKeepsOtherOwners<K, L>(t: seq<Entry<K, seq<L>>>, k: K, l: L, k': K)
    requires k' != k
    ensures Get(WithListener(t, k, l), k') == Get(t, k')
    ensures Get(WithoutListener(t, k, l), k') == Get(t, k')
  {
    PutKeepsOtherKeys(t, k, SetAdd(ListenersOf(t, k), l), k');
    if Get(t, k).Some? {
      PutKeepsOtherKeys(t, k, SetRemove(Get(t, k).value, l), k');
    }
  }
}
