/**
 * Client scenarios of the registry: most follow a case of its test suite, the
 * others a behaviour of the registry the suite does not exercise. Each builds a
 * fresh registry, drives it through the public operations and states what the
 * caller observes.
 */
module PreferScenarios {
  import opened Wrappers
  import opened LinkedCollections
  import opened PreferTypes
  import opened ChangeDispatch
  import opened PreferRegistry

  /** A key decoder that knows exactly one serialized key. */
  function DecoderFor(name: string, key: EnumKey): string -> Option<EnumKey> {
    (s: string) => if s == name then Some(key) else None
  }

  /** Initializing twice is the same as initializing once: registrations survive. */
  method InitializeTwice() returns (group: PrefGroup, snapshot: seq<PrefGroup>, subscribe: Outcome<PreferError>)
    ensures snapshot == [group]
    ensures subscribe == Pass
  {
    var prefer := new AndroidPrefer();
    prefer.InitializePrefer();
    var keyClass := new EnumClass();
    group := new PrefGroup(keyClass);
    var added := prefer.AddGroup(group);
    prefer.InitializePrefer();
    snapshot := prefer.GetGroups();
    var pref := new Pref(EnumKey(keyClass, "IsEnabled", keyClass));
    var listener := new ValueListener();
    subscribe := prefer.AddValueChangedListener(pref, listener);
  }

  /** A subscribed listener is called once with the Pref's value when its key changes. */
  method SubscribeThenChange() returns (listener: ValueListener, outcome: Outcome<PreferError>, calls: seq<Call<bool>>)
    ensures outcome == Pass
    ensures calls == [ValueChanged(listener, true)]
  {
    var prefer := new AndroidPrefer();
    prefer.InitializePrefer();
    var keyClass := new EnumClass();
    var key := EnumKey(keyClass, "IsEnabled", keyClass);
    var pref := new Pref(key);
    listener := new ValueListener();
    outcome := prefer.AddValueChangedListener(pref, listener);
    assert prefer.prefValueChangedListeners == [Entry(pref, [listener])];
    calls := prefer.HandlePrefChanged("IsEnabled", DecoderFor("IsEnabled", key), (p: Pref) => true,
                                      (g: PrefGroup, k: EnumKey) => null);
  }

  /** After subscribing and unsubscribing, a change of the key calls nobody. */
  method SubscribeUnsubscribeThenChange() returns (calls: seq<Call<bool>>)
    ensures calls == []
  {
    var prefer := new AndroidPrefer();
    prefer.InitializePrefer();
    var keyClass := new EnumClass();
    var key := EnumKey(keyClass, "IsEnabled", keyClass);
    var pref := new Pref(key);
    var listener := new ValueListener();
    var added := prefer.AddValueChangedListener(pref, listener);
    var removed := prefer.RemoveValueChangedListener(pref, listener);
    assert prefer.prefValueChangedListeners == [Entry(pref, [])];
    calls := prefer.HandlePrefChanged("IsEnabled", DecoderFor("IsEnabled", key), (p: Pref) => true,
                                      (g: PrefGroup, k: EnumKey) => null);
  }

  /** Subscribing to or unsubscribing from a registry that was never initialized fails. */
  method SubscribeBeforeInitialize() returns (subscribe: Outcome<PreferError>, unsubscribe: Outcome<PreferError>)
    ensures subscribe == Fail(NotInitialized("Can not add listener"))
    ensures unsubscribe == Fail(NotInitialized("Can not add listener"))
  {
    var prefer := new AndroidPrefer();
    var keyClass := new EnumClass();
    var pref := new Pref(EnumKey(keyClass, "IsEnabled", keyClass));
    var listener := new ValueListener();
    subscribe := prefer.AddValueChangedListener(pref, listener);
    unsubscribe := prefer.RemoveValueChangedListener(pref, listener);
  }

  /** Null arguments are rejected, the Pref before the listener. */
  method SubscribeWithNulls() returns (nullPref: Outcome<PreferError>, nullListener: Outcome<PreferError>)
    ensures nullPref == Fail(NullArgument("Pref can not be null"))
    ensures nullListener == Fail(NullArgument("Listener can not be null"))
  {
    var prefer := new AndroidPrefer();
    prefer.InitializePrefer();
    var keyClass := new EnumClass();
    var pref := new Pref(EnumKey(keyClass, "IsEnabled", keyClass));
    nullPref := prefer.AddValueChangedListener(null, null);
    nullListener := prefer.AddValueChangedListener(pref, null);
  }

  /** Disposing forgets every group and every subscription. */
  method DisposeForgetsEverything()
    returns (group: PrefGroup, groupsBefore: seq<PrefGroup>, groupsAfter: seq<PrefGroup>,
             subscribedBefore: bool, subscribedAfter: bool)
    ensures groupsBefore == [group] && groupsAfter == []
    ensures subscribedBefore && !subscribedAfter
  {
    var prefer := new AndroidPrefer();
    prefer.InitializePrefer();
    var keyClass := new EnumClass();
    group := new PrefGroup(keyClass);
    var added := prefer.AddGroup(group);
    var pref := new Pref(EnumKey(keyClass, "IsEnabled", keyClass));
    var listener := new ValueListener();
    var subscribed := prefer.AddValueChangedListener(pref, listener);
    groupsBefore := prefer.GetGroups();
    subscribedBefore := Get(prefer.prefValueChangedListeners, pref).Some?;
    prefer.DisposePrefer();
    groupsAfter := prefer.GetGroups();
    subscribedAfter := Get(prefer.prefValueChangedListeners, pref).Some?;
  }

  /** A group is added once; adding another group for its key class fails and changes nothing. */
  method AddGroupTwice()
    returns (group: PrefGroup, first: Outcome<PreferError>, second: Outcome<PreferError>,
             snapshot: seq<PrefGroup>, found: Result<PrefGroup?, PreferError>)
    ensures first == Pass && second == Fail(GroupAlreadyAdded(group))
    ensures snapshot == [group]
    ensures found == Success(group)
  {
    var prefer := new AndroidPrefer();
    prefer.InitializePrefer();
    var keyClass := new EnumClass();
    group := new PrefGroup(keyClass);
    first := prefer.AddGroup(group);
    second := prefer.AddGroup(group);
    snapshot := prefer.GetGroups();
    found := prefer.FindGroup(keyClass);
  }

  /** A fresh registry has no groups: lookups find nothing and do not fail. */
  method EmptyRegistry() returns (found: Result<PrefGroup?, PreferError>, snapshot: seq<PrefGroup>)
    ensures found == Success(null)
    ensures snapshot == []
  {
    var prefer := new AndroidPrefer();
    prefer.InitializePrefer();
    var keyClass := new EnumClass();
    found := prefer.FindGroup(keyClass);
    snapshot := prefer.GetGroups();
  }

  /** A group listener is called with the group's Pref for a key of the group's class. */
  method GroupSubscribeThenChange()
    returns (listener: GroupListener, pref: Pref, calls: seq<Call<bool>>)
    ensures calls == [GroupValueChanged(listener, pref)]
  {
    var prefer := new AndroidPrefer();
    prefer.InitializePrefer();
    var keyClass := new EnumClass();
    var group := new PrefGroup(keyClass);
    var key := EnumKey(keyClass, "IsEnabled", keyClass);
    pref := new Pref(key);
    listener := new GroupListener();
    var added := prefer.AddGroupValueChangedListener(group, listener);
    assert prefer.prefGroupValueChangedListeners == [Entry(group, [listener])];
    var p: Pref := pref;
    calls := prefer.HandlePrefChanged("IsEnabled", DecoderFor("IsEnabled", key), (q: Pref) => true,
                                      (g: PrefGroup, k: EnumKey) => p);
  }

  /**
   * A constant with its own class body has an anonymous subclass as its run-time
   * class, so a change of it reaches no listener of the group registered under
   * its declaring enum class.
   */
  method ConstantWithBodySkipsGroup() returns (calls: seq<Call<bool>>)
    ensures calls == []
  {
    var prefer := new AndroidPrefer();
    prefer.InitializePrefer();
    var keyClass := new EnumClass();
    var bodyClass := new EnumClass();
    var group := new PrefGroup(keyClass);
    var key := EnumKey(keyClass, "IsEnabled", bodyClass);
    var pref := new Pref(key);
    var listener := new GroupListener();
    var added := prefer.AddGroupValueChangedListener(group, listener);
    assert prefer.prefGroupValueChangedListeners == [Entry(group, [listener])];
    calls := prefer.HandlePrefChanged("IsEnabled", DecoderFor("IsEnabled", key), (q: Pref) => true,
                                      (g: PrefGroup, k: EnumKey) => pref);
  }
}
