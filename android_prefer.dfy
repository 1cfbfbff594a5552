/**
 * The registry and change dispatcher of a Prefer: the groups it manages, the
 * listeners registered per Pref and per group, its initialized flag, and the
 * fan-out of a change event of the external preference store.
 */
module PreferRegistry {
  import opened Wrappers
  import opened LinkedCollections
  import opened PreferTypes
  import opened ChangeDispatch

  /** Groups by key class: no class twice, and each group stored under its own key class. */
  ghost predicate GroupTableValid(groups: seq<Entry<EnumClass, PrefGroup>>) {
    KeysDistinct(groups) && forall e :: e in groups ==> e.key == e.value.keyClass
  }

  class AndroidPrefer {
    /** Whether `InitializePrefer` has run (and `DisposePrefer` has not run since). */
    var initialized: bool
    /** Pref groups by key class, in insertion order. */
    var groups: seq<Entry<EnumClass, PrefGroup>>
    /** Value changed listeners per Pref, in insertion order. */
    var prefValueChangedListeners: PrefListeners
    /** Group value changed listeners per group, in insertion order. */
    var prefGroupValueChangedListeners: GroupListeners

    /**
     * The registry invariant: the tables are maps of sets, and no listener is
     * registered while the registry is not initialized.
     */
    ghost predicate Valid()
      reads this
    {
      GroupTableValid(groups)
      && ListenerTableValid(prefValueChangedListeners)
      && ListenerTableValid(prefGroupValueChangedListeners)
      && (!initialized ==> prefValueChangedListeners == [] && prefGroupValueChangedListeners == [])
    }

    constructor ()
      ensures Valid() && !initialized
      ensures groups == [] && prefValueChangedListeners == [] && prefGroupValueChangedListeners == []
    {
      initialized := false;
      groups := [];
      prefValueChangedListeners := [];
      prefGroupValueChangedListeners := [];
    }

    /** Marks the registry initialized; a second call changes nothing. */
    method InitializePrefer()
      requires Valid()
      modifies this
      ensures Valid() && initialized
      ensures groups == old(groups)
      ensures prefValueChangedListeners == old(prefValueChangedListeners)
      ensures prefGroupValueChangedListeners == old(prefGroupValueChangedListeners)
    {
      if initialized {
        return;
      }
      initialized := true;
    }

    /** Clears every group and listener and marks the registry not initialized; a no-op when not initialized. */
    method DisposePrefer()
      requires Valid()
      modifies this
      ensures Valid() && !initialized
      ensures !old(initialized) ==> unchanged(this)
      ensures old(initialized) ==>
                groups == [] && prefValueChangedListeners == [] && prefGroupValueChangedListeners == []
    {
      if !initialized {
        return;
      }
      groups := [];
      prefValueChangedListeners := [];
      prefGroupValueChangedListeners := [];
      initialized := false;
    }

    /**
     * Registers `listener` for `pref`: null arguments and a registry that is not
     * initialized are rejected before anything changes.
     */
    method AddValueChangedListener(pref: Pref?, listener: ValueListener?) returns (outcome: Outcome<PreferError>)
      requires Valid()
      modifies this
      ensures Valid()
      ensures pref == null ==> outcome == Fail(NullArgument("Pref can not be null"))
      ensures pref != null && listener == null ==> outcome == Fail(NullArgument("Listener can not be null"))
      ensures pref != null && listener != null && !old(initialized) ==>
                outcome == Fail(NotInitialized("Can not add listener"))
      ensures pref != null && listener != null && old(initialized) ==> outcome == Pass
      ensures outcome.Fail? ==> unchanged(this)
      ensures outcome.Pass? ==>
                pref != null && listener != null && old(initialized) &&
                prefValueChangedListeners == WithListener<Pref, ValueListener>(old(prefValueChangedListeners), pref, listener)
      ensures initialized == old(initialized) && groups == old(groups)
      ensures prefGroupValueChangedListeners == old(prefGroupValueChangedListeners)
    {
      if pref == null {
        return Fail(NullArgument("Pref can not be null"));
      }
      if listener == null {
        return Fail(NullArgument("Listener can not be null"));
      }
      if !initialized {
        return Fail(NotInitialized("Can not add listener"));
      }
      var p: Pref, l: ValueListener := pref, listener;
      prefValueChangedListeners := AddListener(prefValueChangedListeners, p, l);
      outcome := Pass;
    }

    /**
     * Unregisters `listener` from `pref`: null arguments and a registry that is
     * not initialized are rejected; a Pref without a set is left without one.
     */
    method RemoveValueChangedListener(pref: Pref?, listener: ValueListener?) returns (outcome: Outcome<PreferError>)
      requires Valid()
      modifies this
      ensures Valid()
      ensures pref == null ==> outcome == Fail(NullArgument("Pref can not be null"))
      ensures pref != null && listener == null ==> outcome == Fail(NullArgument("Listener can not be null"))
      ensures pref != null && listener != null && !old(initialized) ==>
                outcome == Fail(NotInitialized("Can not add listener"))
      ensures pref != null && listener != null && old(initialized) ==> outcome == Pass
      ensures outcome.Fail? ==> unchanged(this)
      ensures outcome.Pass? ==>
                pref != null && listener != null && old(initialized) &&
                prefValueChangedListeners == WithoutListener<Pref, ValueListener>(old(prefValueChangedListeners), pref, listener)
      ensures initialized == old(initialized) && groups == old(groups)
      ensures prefGroupValueChangedListeners == old(prefGroupValueChangedListeners)
    {
      if pref == null {
        return Fail(NullArgument("Pref can not be null"));
      }
      if listener == null {
        return Fail(NullArgument("Listener can not be null"));
      }
      if !initialized {
        return Fail(NotInitialized("Can not add listener"));
      }
      var p: Pref, l: ValueListener := pref, listener;
      prefValueChangedListeners := RemoveListener(prefValueChangedListeners, p, l);
      outcome := Pass;
    }

    /**
     * Adds `group` under its key class; a key class that already has a group is
     * rejected and the first registration stays. Needs no initialization.
     */
    method AddGroup(group: PrefGroup?) returns (outcome: Outcome<PreferError>)
      requires Valid()
      modifies this
      ensures Valid()
      ensures group == null ==> outcome == Fail(NullArgument("Group can not be null")) && groups == old(groups)
      ensures group != null && Get(old(groups), group.keyClass).Some? ==>
                outcome == Fail(GroupAlreadyAdded(group)) && groups == old(groups)
      ensures group != null && Get(old(groups), group.keyClass).None? ==>
                outcome == Pass && groups == old(groups) + [Entry(group.keyClass, group)]
      ensures initialized == old(initialized)
      ensures prefValueChangedListeners == old(prefValueChangedListeners)
      ensures prefGroupValueChangedListeners == old(prefGroupValueChangedListeners)
    {
      if group == null {
        return Fail(NullArgument("Group can not be null"));
      }
      var keyClass := group.keyClass;
      if Get(groups, keyClass).Some? {
        return Fail(GroupAlreadyAdded(group));
      }
      groups := Put(groups, keyClass, group);
      outcome := Pass;
    }

    /**
     * Registers `listener` for `group`: null arguments and a registry that is
     * not initialized are rejected before anything changes.
     */
    method AddGroupValueChangedListener(group: PrefGroup?, listener: GroupListener?) returns (outcome: Outcome<PreferError>)
      requires Valid()
      modifies this
      ensures Valid()
      ensures group == null ==> outcome == Fail(NullArgument("Pref can not be null"))
      ensures group != null && listener == null ==> outcome == Fail(NullArgument("Listener can not be null"))
      ensures group != null && listener != null && !old(initialized) ==>
                outcome == Fail(NotInitialized("Can not add group listener"))
      ensures group != null && listener != null && old(initialized) ==> outcome == Pass
      ensures outcome.Fail? ==> unchanged(this)
      ensures outcome.Pass? ==>
                group != null && listener != null && old(initialized) &&
                prefGroupValueChangedListeners == WithListener<PrefGroup, GroupListener>(old(prefGroupValueChangedListeners), group, listener)
      ensures initialized == old(initialized) && groups == old(groups)
      ensures prefValueChangedListeners == old(prefValueChangedListeners)
    {
      if group == null {
        return Fail(NullArgument("Pref can not be null"));
      }
      if listener == null {
        return Fail(NullArgument("Listener can not be null"));
      }
      if !initialized {
        return Fail(NotInitialized("Can not add group listener"));
      }
      var g: PrefGroup, l: GroupListener := group, listener;
      prefGroupValueChangedListeners := AddListener(prefGroupValueChangedListeners, g, l);
      outcome := Pass;
    }

    /** The group registered under `keyClass`, or `null`; a null class is rejected. */
    method FindGroup(keyClass: EnumClass?) returns (result: Result<PrefGroup?, PreferError>)
      requires Valid()
      ensures keyClass == null ==> result == Failure(NullArgument("Key class can not be null"))
      ensures keyClass != null ==> result.Success?
      ensures keyClass != null ==>
                (result.value != null <==> exists i :: 0 <= i < |groups| && groups[i].key == keyClass)
      ensures result.Success? && result.value != null ==>
                result.value.keyClass == keyClass && result.value in Values(groups)
    {
      if keyClass == null {
        return Failure(NullArgument("Key class can not be null"));
      }
      var found := Get(groups, keyClass);
      result := Success(if found.Some? then found.value else null);
    }

    /** A snapshot of the registered groups: each once, in the order they were added. */
    method GetGroups() returns (snapshot: seq<PrefGroup>)
      requires Valid()
      ensures |snapshot| == |groups| && forall i :: 0 <= i < |groups| ==> snapshot[i] == groups[i].value
      ensures Distinct(snapshot)
    {
      snapshot := Values(groups);
      forall i, j | 0 <= i < j < |snapshot|
        ensures snapshot[i] != snapshot[j]
      {
        assert groups[i] in groups && groups[j] in groups;
      }
    }

    /** Unregisters `listener` from `group`: null arguments and a registry that is not initialized are rejected. */
    method RemoveGroupValueChangedListener(group: PrefGroup?, listener: GroupListener?) returns (outcome: Outcome<PreferError>)
      requires Valid()
      modifies this
      ensures Valid()
      ensures group == null ==> outcome == Fail(NullArgument("Pref can not be null"))
      ensures group != null && listener == null ==> outcome == Fail(NullArgument("Listener can not be null"))
      ensures group != null && listener != null && !old(initialized) ==>
                outcome == Fail(NotInitialized("Can not add listener"))
      ensures group != null && listener != null && old(initialized) ==> outcome == Pass
      ensures outcome.Fail? ==> unchanged(this)
      ensures outcome.Pass? ==>
                group != null && listener != null && old(initialized) &&
                prefGroupValueChangedListeners == WithoutListener<PrefGroup, GroupListener>(old(prefGroupValueChangedListeners), group, listener)
      ensures initialized == old(initialized) && groups == old(groups)
      ensures prefValueChangedListeners == old(prefValueChangedListeners)
    {
      if group == null {
        return Fail(NullArgument("Pref can not be null"));
      }
      if listener == null {
        return Fail(NullArgument("Listener can not be null"));
      }
      if !initialized {
        return Fail(NotInitialized("Can not add listener"));
      }
      var g: PrefGroup, l: GroupListener := group, listener;
      prefGroupValueChangedListeners := RemoveListener(prefGroupValueChangedListeners, g, l);
      outcome := Pass;
    }

    /**
     * Notifies listeners of a changed Pref value. The store reports the key as a
     * string; `decode` is the key deserializer (`None` when it throws), `valueOf`
     * a Pref's current value and `findPref` a group's lookup by key. Returns the
     * listener calls in the order they are made; the registry does not change.
     */
    method HandlePrefChanged<V>(serializedKey: string, decode: string -> Option<EnumKey>,
                                valueOf: Pref -> V, findPref: (PrefGroup, EnumKey) -> Pref?)
      returns (calls: seq<Call<V>>)
      ensures calls == Dispatch(decode(serializedKey), prefValueChangedListeners, prefGroupValueChangedListeners,
                                valueOf, findPref)
    {
      var decoded := decode(serializedKey);
      if decoded.None? {
        // ignore unknown key
        return [];
      }
      var key := decoded.value;
      var prefCalls := NotifyPrefListeners(key, valueOf);
      var groupCalls := NotifyGroupListeners<V>(key, findPref);
      calls := prefCalls + groupCalls;
    }

    /**
     * The first loop of `HandlePrefChanged`: finds the first Pref entry with the
     * changed key, passes that Pref's value to each of its listeners, and stops.
     */
    method NotifyPrefListeners<V>(key: EnumKey, valueOf: Pref -> V) returns (calls: seq<Call<V>>)
      ensures calls == PrefCalls(prefValueChangedListeners, key, valueOf)
    {
      calls := [];
      var pt := prefValueChangedListeners;
      var i := 0;
      while i < |pt|
        invariant 0 <= i <= |pt|
        invariant PrefCalls(pt[i..], key, valueOf) == PrefCalls(pt, key, valueOf)
        invariant calls == []
      {
        var entry := pt[i];
        if entry.key.key == key {
          var value := valueOf(entry.key);
          var k := 0;
          while k < |entry.value|
            invariant 0 <= k <= |entry.value|
            invariant |calls| == k && forall m :: 0 <= m < k ==> calls[m] == ValueChanged(entry.value[m], value)
          {
            calls := calls + [ValueChanged(entry.value[k], value)];
            k := k + 1;
          }
          assert calls == ValueCalls(entry.value, value);
          break;
        }
        assert pt[i..][1..] == pt[i + 1..];
        i := i + 1;
      }
    }

    /**
     * The second loop of `HandlePrefChanged`: finds the first group entry for the
     * changed key's run-time class (`getClass()`), passes `findPref(key)` to each of its listeners, and stops.
     */
    method NotifyGroupListeners<V>(key: EnumKey, findPref: (PrefGroup, EnumKey) -> Pref?) returns (calls: seq<Call<V>>)
      ensures calls == GroupPrefCalls(prefGroupValueChangedListeners, key, findPref)
    {
      calls := [];
      var gt := prefGroupValueChangedListeners;
      var j := 0;
      while j < |gt|
        invariant 0 <= j <= |gt|
        invariant GroupPrefCalls<V>(gt[j..], key, findPref) == GroupPrefCalls<V>(gt, key, findPref)
        invariant calls == []
      {
        var entry := gt[j];
        if entry.key.keyClass == key.runtimeClass {
          var pref := findPref(entry.key, key);
          var k := 0;
          while k < |entry.value|
            invariant 0 <= k <= |entry.value|
            invariant |calls| == k && forall m :: 0 <= m < k ==> calls[m] == GroupValueChanged(entry.value[m], pref)
          {
            calls := calls + [GroupValueChanged(entry.value[k], pref)];
            k := k + 1;
          }
          assert calls == GroupCalls<V>(entry.value, pref);
          break;
        }
        assert gt[j..][1..] == gt[j + 1..];
        j := j + 1;
      }
    }
  }
}
