/**
 * The change dispatcher: which listener calls one change event of the external
 * store causes. The store reports the serialized key; the key decoder, the
 * Prefs' current values and the groups' `findPref` are inputs of the model.
 */
module ChangeDispatch {
  import opened Wrappers
  import opened LinkedCollections
  import opened PreferTypes

  /** One listener invocation. */
  datatype Call<V> =
    | ValueChanged(listener: ValueListener, value: V)           // `onValueChanged(value)`
    | GroupValueChanged(groupListener: GroupListener, pref: Pref?) // `onGroupValueChanged(pref)`

  /** Listener sets per Pref, in insertion order. */
  type PrefListeners = seq<Entry<Pref, seq<ValueListener>>>

  /** Listener sets per group, in insertion order. */
  type GroupListeners = seq<Entry<PrefGroup, seq<GroupListener>>>

  /** Every listener of `ls`, in order, receives `v` once. */
  function ValueCalls<V>(ls: seq<ValueListener>, v: V): (r: seq<Call<V>>)
    ensures |r| == |ls| && forall i :: 0 <= i < |ls| ==> r[i] == ValueChanged(ls[i], v)
  {
    if ls == [] then [] else [ValueChanged(ls[0], v)] + ValueCalls(ls[1..], v)
  }

  /** Every group listener of `ls`, in order, receives `p` once. */
  function GroupCalls<V>(ls: seq<GroupListener>, p: Pref?): (r: seq<Call<V>>)
    ensures |r| == |ls| && forall i :: 0 <= i < |ls| ==> r[i] == GroupValueChanged(ls[i], p)
  {
    if ls == [] then [] else [GroupValueChanged(ls[0], p)] + GroupCalls(ls[1..], p)
  }

  /**
   * The scan of the per-Pref table: the first entry whose Pref has the changed
   * key notifies its listeners with that Pref's value, and the scan stops.
   */
  function PrefCalls<V>(t: PrefListeners, key: EnumKey, valueOf: Pref -> V): (r: seq<Call<V>>)
    ensures var i := IndexOfPrefKey(t, key);
            r == if i < |t| then ValueCalls(t[i].value, valueOf(t[i].key)) else []
  {
    if t == [] then []
    else if t[0].key.key == key then ValueCalls(t[0].value, valueOf(t[0].key))
    else PrefCalls(t[1..], key, valueOf)
  }

  /**
   * The scan of the per-group table: the first entry whose group has the changed
   * key's run-time class notifies its listeners with `findPref(key)`, and the scan stops.
   */
  function GroupPrefCalls<V>(t: GroupListeners, key: EnumKey, findPref: (PrefGroup, EnumKey) -> Pref?): (r: seq<Call<V>>)
    ensures var i := IndexOfGroupClass(t, key.runtimeClass);
            r == if i < |t| then GroupCalls(t[i].value, findPref(t[i].key, key)) else []
  {
    if t == [] then []
    else if t[0].key.keyClass == key.runtimeClass then GroupCalls(t[0].value, findPref(t[0].key, key))
    else GroupPrefCalls(t[1..], key, findPref)
  }

  /**
   * All calls for one change event: none when the key does not decode,
   * otherwise the per-Pref calls followed by the per-group calls, so every
   * value listener is called before any group listener.
   */
  function Dispatch<V>(decoded: Option<EnumKey>, pt: PrefListeners, gt: GroupListeners,
                       valueOf: Pref -> V, findPref: (PrefGroup, EnumKey) -> Pref?): (r: seq<Call<V>>)
    ensures decoded.None? ==> r == []
    ensures forall m, n :: 0 <= m < n < |r| && r[n].ValueChanged? ==> r[m].ValueChanged?
  {
    match decoded
    case None => []
    case Some(key) =>
      var prefCalls := PrefCalls(pt, key, valueOf);
      var groupCalls := GroupPrefCalls(gt, key, findPref);
      assert forall m :: 0 <= m < |prefCalls| ==> prefCalls[m].ValueChanged?;
      assert forall m :: 0 <= m < |groupCalls| ==> groupCalls[m].GroupValueChanged?;
      prefCalls + groupCalls
  }

  /** The position of the first entry whose Pref has key `key`, or `|t|`. */
  function IndexOfPrefKey(t: PrefListeners, key: EnumKey): (i: nat)
    ensures i <= |t| && forall j :: 0 <= j < i ==> t[j].key.key != key
    ensures i < |t| ==> t[i].key.key == key
  {
    if t == [] then 0 else if t[0].key.key == key then 0 else 1 + IndexOfPrefKey(t[1..], key)
  }

  /** The position of the first entry whose group has key class `c`, or `|t|`. */
  function IndexOfGroupClass(t: GroupListeners, c: EnumClass): (i: nat)
    ensures i <= |t| && forall j :: 0 <= j < i ==> t[j].key.keyClass != c
    ensures i < |t| ==> t[i].key.keyClass == c
  {
    if t == [] then 0 else if t[0].key.keyClass == c then 0 else 1 + IndexOfGroupClass(t[1..], c)
  }

  /** The first entry whose Pref has `key` is the one `IndexOfPrefKey` finds. */
  lemma IndexOfPrefKeyIs(t: PrefListeners, key: EnumKey, i: int)
    requires 0 <= i < |t| && t[i].key.key == key
    requires forall j :: 0 <= j < i ==> t[j].key.key != key
    ensures IndexOfPrefKey(t, key) == i
  {
  }

  /** The first entry whose group has class `c` is the one `IndexOfGroupClass` finds. */
  lemma IndexOfGroupClassIs(t: GroupListeners, c: EnumClass, i: int)
    requires 0 <= i < |t| && t[i].key.keyClass == c
    requires forall j :: 0 <= j < i ==> t[j].key.keyClass != c
    ensures IndexOfGroupClass(t, c) == i
  {
  }

  /** The values `l` receives in `calls`, in order. */
  function ValueCallsTo<V>(calls: seq<Call<V>>, l: ValueListener): seq<V> {
    if calls == [] then []
    else (if calls[0].ValueChanged? && calls[0].listener == l then [calls[0].value] else [])
         + ValueCallsTo(calls[1..], l)
  }

  /** The Prefs the group listener `l` receives in `calls`, in order. */
  function GroupCallsTo<V>(calls: seq<Call<V>>, l: GroupListener): seq<Pref?> {
    if calls == [] then []
    else (if calls[0].GroupValueChanged? && calls[0].groupListener == l then [calls[0].pref] else [])
         + GroupCallsTo(calls[1..], l)
  }

  // ---------------------------------------------------------------------------
  // Helpers: how the per-listener views distribute over traces.
  // ---------------------------------------------------------------------------

  lemma {:induction false} ValueCallsToAppend<V>(a: seq<Call<V>>, b: seq<Call<V>>, l: ValueListener)
    ensures ValueCallsTo(a + b, l) == ValueCallsTo(a, l) + ValueCallsTo(b, l)
  {
    if a == [] {
      assert a + b == b;
    } else {
      assert (a + b)[0] == a[0] && (a + b)[1..] == a[1..] + b;
      ValueCallsToAppend(a[1..], b, l);
    }
  }

  lemma {:induction false} GroupCallsToAppend<V>(a: seq<Call<V>>, b: seq<Call<V>>, g: GroupListener)
    ensures GroupCallsTo(a + b, g) == GroupCallsTo(a, g) + GroupCallsTo(b, g)
  {
    if a == [] {
      assert a + b == b;
    } else {
      assert (a + b)[0] == a[0] && (a + b)[1..] == a[1..] + b;
      GroupCallsToAppend(a[1..], b, g);
    }
  }

  lemma {:induction false} ValueCallsReachEachOnce<V>(ls: seq<ValueListener>, v: V, l: ValueListener)
    requires Distinct(ls)
    ensures ValueCallsTo(ValueCalls(ls, v), l) == if l in ls then [v] else []
  {
    if ls != [] {
      ValueCallsReachEachOnce(ls[1..], v, l);
      assert ls[0] == l ==> l !in ls[1..];
      assert l in ls <==> ls[0] == l || l in ls[1..];
    }
  }

  lemma {:induction false} ValueCallsReachNoGroupListener<V>(ls: seq<ValueListener>, v: V, g: GroupListener)
    ensures GroupCallsTo(ValueCalls(ls, v), g) == []
  {
    if ls != [] {
      ValueCallsReachNoGroupListener(ls[1..], v, g);
    }
  }

  lemma {:induction false} GroupCallsReachEachOnce<V>(ls: seq<GroupListener>, p: Pref?, g: GroupListener)
    requires Distinct(ls)
    ensures GroupCallsTo(GroupCalls<V>(ls, p), g) == if g in ls then [p] else []
  {
    if ls != [] {
      GroupCallsReachEachOnce<V>(ls[1..], p, g);
      assert ls[0] == g ==> g !in ls[1..];
      assert g in ls <==> ls[0] == g || g in ls[1..];
    }
  }

  lemma {:induction false} GroupCallsReachNoValueListener<V>(ls: seq<GroupListener>, p: Pref?, l: ValueListener)
    ensures ValueCallsTo(GroupCalls<V>(ls, p), l) == []
  {
    if ls != [] {
      GroupCallsReachNoValueListener<V>(ls[1..], p, l);
    }
  }

  /** What one value listener receives from the per-Pref scan. */
  lemma PrefCallsTo<V>(t: PrefListeners, key: EnumKey, valueOf: Pref -> V, l: ValueListener)
    requires forall e :: e in t ==> Distinct(e.value)
    ensures var i := IndexOfPrefKey(t, key);
            ValueCallsTo(PrefCalls(t, key, valueOf), l) ==
              if i < |t| && l in t[i].value then [valueOf(t[i].key)] else []
  {
    var i := IndexOfPrefKey(t, key);
    if i < |t| {
      assert t[i] in t;
      ValueCallsReachEachOnce(t[i].value, valueOf(t[i].key), l);
    }
  }

  /** Group listeners receive nothing from the per-Pref scan. */
  lemma PrefCallsReachNoGroupListener<V>(t: PrefListeners, key: EnumKey, valueOf: Pref -> V, g: GroupListener)
    ensures GroupCallsTo(PrefCalls(t, key, valueOf), g) == []
  {
    var i := IndexOfPrefKey(t, key);
    if i < |t| {
      ValueCallsReachNoGroupListener(t[i].value, valueOf(t[i].key), g);
    }
  }

  /** What one group listener receives from the per-group scan. */
  lemma GroupPrefCallsTo<V>(t: GroupListeners, key: EnumKey, findPref: (PrefGroup, EnumKey) -> Pref?, g: GroupListener)
    requires forall e :: e in t ==> Distinct(e.value)
    ensures var i := IndexOfGroupClass(t, key.runtimeClass);
            GroupCallsTo(GroupPrefCalls<V>(t, key, findPref), g) ==
              if i < |t| && g in t[i].value then [findPref(t[i].key, key)] else []
  {
    var i := IndexOfGroupClass(t, key.runtimeClass);
    if i < |t| {
      assert t[i] in t;
      GroupCallsReachEachOnce<V>(t[i].value, findPref(t[i].key, key), g);
    }
  }

  /** Value listeners receive nothing from the per-group scan. */
  lemma GroupPrefCallsReachNoValueListener<V>(t: GroupListeners, key: EnumKey, findPref: (PrefGroup, EnumKey) -> Pref?,
                                              l: ValueListener)
    ensures ValueCallsTo(GroupPrefCalls<V>(t, key, findPref), l) == []
  {
    var i := IndexOfGroupClass(t, key.runtimeClass);
    if i < |t| {
      GroupCallsReachNoValueListener<V>(t[i].value, findPref(t[i].key, key), l);
    }
  }

  // ---------------------------------------------------------------------------
  // What each listener receives from one change event.
  // ---------------------------------------------------------------------------

  /**
   * A value listener receives nothing when the key does not decode or no Pref
   * entry has the decoded key. Otherwise it receives the value of the first Pref
   * entry with that key, exactly once, when it is in that entry's set, and
   * nothing when it is not.
   */
  lemma DispatchToValueListener<V>(decoded: Option<EnumKey>, pt: PrefListeners, gt: GroupListeners,
                                   valueOf: Pref -> V, findPref: (PrefGroup, EnumKey) -> Pref?, l: ValueListener)
    requires forall e :: e in pt ==> Distinct(e.value)
    ensures ValueCallsTo(Dispatch(decoded, pt, gt, valueOf, findPref), l) ==
              if decoded.None? then []
              else
                var i := IndexOfPrefKey(pt, decoded.value);
                if i < |pt| && l in pt[i].value then [valueOf(pt[i].key)] else []
  {
    if decoded.Some? {
      var key := decoded.value;
      ValueCallsToAppend(PrefCalls(pt, key, valueOf), GroupPrefCalls(gt, key, findPref), l);
      PrefCallsTo(pt, key, valueOf, l);
      GroupPrefCallsReachNoValueListener<V>(gt, key, findPref, l);
    }
  }

  /**
   * A group listener receives nothing when the key does not decode or no group
   * entry has the decoded key's run-time class. Otherwise it receives
   * `findPref(key)` of the first group entry with that class, exactly once, when
   * it is in that entry's set, and nothing when it is not.
   */
  lemma DispatchToGroupListener<V>(decoded: Option<EnumKey>, pt: PrefListeners, gt: GroupListeners,
                                   valueOf: Pref -> V, findPref: (PrefGroup, EnumKey) -> Pref?, g: GroupListener)
    requires forall e :: e in gt ==> Distinct(e.value)
    ensures GroupCallsTo(Dispatch(decoded, pt, gt, valueOf, findPref), g) ==
              if decoded.None? then []
              else
                var i := IndexOfGroupClass(gt, decoded.value.runtimeClass);
                if i < |gt| && g in gt[i].value then [findPref(gt[i].key, decoded.value)] else []
  {
    if decoded.Some? {
      var key := decoded.value;
      GroupCallsToAppend(PrefCalls(pt, key, valueOf), GroupPrefCalls(gt, key, findPref), g);
      PrefCallsReachNoGroupListener(pt, key, valueOf, g);
      GroupPrefCallsTo<V>(gt, key, findPref, g);
    }
  }

  /**
   * First match wins: when two entries hold Prefs with the same key, a listener
   * registered only for the later one is never notified.
   */
  lemma ShadowedPrefEntrySkipped<V>(pt: PrefListeners, gt: GroupListeners, valueOf: Pref -> V,
                                    findPref: (PrefGroup, EnumKey) -> Pref?, i: int, j: int, l: ValueListener)
    requires forall e :: e in pt ==> Distinct(e.value)
    requires 0 <= i < j < |pt| && pt[i].key.key == pt[j].key.key
    requires l in pt[j].value && forall k :: 0 <= k < j && pt[k].key.key == pt[j].key.key ==> l !in pt[k].value
    ensures ValueCallsTo(Dispatch(Some(pt[j].key.key), pt, gt, valueOf, findPref), l) == []
  {
    assert IndexOfPrefKey(pt, pt[j].key.key) <= i;
    DispatchToValueListener(Some(pt[j].key.key), pt, gt, valueOf, findPref, l);
  }

  /**
   * First match wins for groups: when two entries hold groups of the same key
   * class, a listener registered only for the later group is never notified.
   */
  lemma ShadowedGroupEntrySkipped<V>(pt: PrefListeners, gt: GroupListeners, valueOf: Pref -> V,
                                     findPref: (PrefGroup, EnumKey) -> Pref?, key: EnumKey, i: int, j: int, g: GroupListener)
    requires forall e :: e in gt ==> Distinct(e.value)
    requires 0 <= i < j < |gt| && gt[i].key.keyClass == key.runtimeClass && gt[j].key.keyClass == key.runtimeClass
    requires g in gt[j].value && forall k :: 0 <= k < j && gt[k].key.keyClass == key.runtimeClass ==> g !in gt[k].value
    ensures GroupCallsTo(Dispatch(Some(key), pt, gt, valueOf, findPref), g) == []
  {
    assert IndexOfGroupClass(gt, key.runtimeClass) <= i;
    DispatchToGroupListener(Some(key), pt, gt, valueOf, findPref, g);
  }

  /**
   * A listener just registered for Pref `p` receives `p`'s value exactly once
   * when `p`'s key changes, provided no other registered Pref shares that key.
   */
  lemma AddedListenerNotified<V>(pt: PrefListeners, gt: GroupListeners, valueOf: Pref -> V,
                                 findPref: (PrefGroup, EnumKey) -> Pref?, p: Pref, l: ValueListener)
    requires ListenerTableValid(pt)
    requires forall i :: 0 <= i < |pt| && pt[i].key != p ==> pt[i].key.key != p.key
    ensures ValueCallsTo(Dispatch(Some(p.key), WithListener(pt, p, l), gt, valueOf, findPref), l) == [valueOf(p)]
  {
    var r := WithListener(pt, p, l);
    WithListenerKeepsOwners(pt, p, l);
    var i := IndexOfKey(r, p);
    assert Get(r, p).Some?;
    forall j | 0 <= j < i
      ensures r[j].key.key != p.key
    {
      assert r[j].key != p;
    }
    IndexOfPrefKeyIs(r, p.key, i);
    assert r[i] in r;
    DispatchToValueListener(Some(p.key), r, gt, valueOf, findPref, l);
  }

  /**
   * A listener just registered for group `grp` receives `findPref(key)` exactly
   * once when a key whose run-time class is `grp`'s key class changes, provided
   * no other registered group shares that class.
   */
  lemma AddedGroupListenerNotified<V>(pt: PrefListeners, gt: GroupListeners, valueOf: Pref -> V,
                                      findPref: (PrefGroup, EnumKey) -> Pref?, grp: PrefGroup, key: EnumKey, g: GroupListener)
    requires ListenerTableValid(gt)
    requires key.runtimeClass == grp.keyClass
    requires forall i :: 0 <= i < |gt| && gt[i].key != grp ==> gt[i].key.keyClass != grp.keyClass
    ensures GroupCallsTo(Dispatch(Some(key), pt, WithListener(gt, grp, g), valueOf, findPref), g) == [findPref(grp, key)]
  {
    var r := WithListener(gt, grp, g);
    WithListenerKeepsOwners(gt, grp, g);
    var i := IndexOfKey(r, grp);
    assert Get(r, grp).Some?;
    forall j | 0 <= j < i
      ensures r[j].key.keyClass != key.runtimeClass
    {
      assert r[j].key != grp;
    }
    IndexOfGroupClassIs(r, key.runtimeClass, i);
    assert r[i] in r;
    DispatchToGroupListener(Some(key), pt, r, valueOf, findPref, g);
  }

  /**
   * A listener unregistered from Pref `p`, and registered for no other Pref,
   * receives nothing from any later change event.
   */
  lemma RemovedListenerNotNotified<V>(decoded: Option<EnumKey>, pt: PrefListeners, gt: GroupListeners,
                                      valueOf: Pref -> V, findPref: (PrefGroup, EnumKey) -> Pref?, p: Pref, l: ValueListener)
    requires ListenerTableValid(pt)
    requires forall i :: 0 <= i < |pt| && pt[i].key != p ==> l !in pt[i].value
    ensures ValueCallsTo(Dispatch(decoded, WithoutListener(pt, p, l), gt, valueOf, findPref), l) == []
  {
    var r := WithoutListener(pt, p, l);
    assert ListenerTableValid(r);
    DispatchToValueListener(decoded, r, gt, valueOf, findPref, l);
    if decoded.Some? {
      var f := IndexOfPrefKey(r, decoded.value);
      if f < |r| {
        assert pt[f] in pt;
        assert r[f] == if pt[f].key == p then Entry(p, SetRemove(pt[f].value, l)) else pt[f];
        assert l !in r[f].value;
      }
    }
  }

  /**
   * A group listener unregistered from group `grp`, and registered for no other
   * group, receives nothing from any later change event.
   */
  lemma RemovedGroupListenerNotNotified<V>(decoded: Option<EnumKey>, pt: PrefListeners, gt: GroupListeners,
                                           valueOf: Pref -> V, findPref: (PrefGroup, EnumKey) -> Pref?,
                                           grp: PrefGroup, g: GroupListener)
    requires ListenerTableValid(gt)
    requires forall i :: 0 <= i < |gt| && gt[i].key != grp ==> g !in gt[i].value
    ensures GroupCallsTo(Dispatch(decoded, pt, WithoutListener(gt, grp, g), valueOf, findPref), g) == []
  {
    var r := WithoutListener(gt, grp, g);
    assert ListenerTableValid(r);
    DispatchToGroupListener(decoded, pt, r, valueOf, findPref, g);
    if decoded.Some? {
      var f := IndexOfGroupClass(r, decoded.value.runtimeClass);
      if f < |r| {
        assert gt[f] in gt;
        assert r[f] == if gt[f].key == grp then Entry(grp, SetRemove(gt[f].value, g)) else gt[f];
        assert g !in r[f].value;
      }
    }
  }
}
