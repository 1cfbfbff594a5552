# Prefer for Android: the registry and change dispatcher of `AndroidPrefer`

`AndroidPrefer` is the base class of the Prefer library's Android implementation.
The library gives typed access to the platform's key-value preference store. The
class holds four pieces of state:

- an `initialized` flag, set by `initializePrefer` and cleared by `disposePrefer`;
- the registered Pref groups, keyed by their enum key class (a `LinkedHashMap`);
- value-changed listeners per Pref (a `LinkedHashMap` of `LinkedHashSet`s);
- group-value-changed listeners per group (the same shape).

When the store reports that a serialized key changed, `handlePrefChanged` decodes
the key. It then scans the per-Pref table and notifies every listener of the first
Pref whose key matches, passing that Pref's current value. Next it scans the
per-group table and notifies every listener of the first group whose key class
is the key's run-time class (`key.getClass()`), passing the Pref the group finds
for the key.

The model is made of these modules:

- `Wrappers` (`wrappers.dfy`): `Option`, `Result` and `Outcome`. A Java exception
  becomes a `Fail`/`Failure` carrying a `PreferError`: the exception's message for
  `NullArgument` and `NotInitialized`, the rejected group for `GroupAlreadyAdded`.
- `LinkedCollections` (`linked_collections.dfy`): insertion-ordered maps as
  sequences of `Entry(key, value)` and insertion-ordered sets as sequences without
  duplicates. It holds the map operations `Get`, `Put` and `Values`, the set
  operations `SetAdd` and `SetRemove`, and the listener-table updates
  `WithListener` and `WithoutListener`. `AddListener` and `RemoveListener` perform
  those updates step by step and are proved equal to them.
- `PreferTypes` (`prefer_types.dfy`): enum classes, Prefs, groups and listeners
  are Dafny classes, compared by reference. This assumes that the Pref and group
  classes keep `Object`'s identity `equals`/`hashCode`, which the registry's map
  lookups then use; those classes are not part of this model. An enum constant is
  a value `EnumKey(enumClass, name, runtimeClass)`. Its `runtimeClass` is what
  `getClass()` returns: the enum class itself, or an anonymous subclass for a
  constant with its own class body.
- `ChangeDispatch` (`dispatch.dfy`): the trace of listener calls that one change
  event causes. `Dispatch` is the specification, and the lemmas say what each
  listener receives.
- `PreferRegistry` (`android_prefer.dfy`): the class `AndroidPrefer`. Its fields
  are the four tables and the flag above, and each public operation is a method
  that updates them in place. `Valid()` is the invariant every operation keeps:
  - group keys are distinct;
  - each group is stored under its own key class;
  - listener sets have no duplicates;
  - both listener tables are empty while the registry is not initialized.
- `PreferScenarios` (`scenarios.dfy`): client runs of the registry. Most follow
  a case of its test suite, which calls the listener operations `subscribe` and
  `unsubscribe` (`addValueChangedListener` and `removeValueChangedListener`
  here). `InitializeTwice`, `GroupSubscribeThenChange` and
  `ConstantWithBodySkipsGroup` follow the registry's code; no test covers them.

Null arguments are modelled with nullable class types (`Pref?`), so each
`checkNotNull` becomes a `NullArgument` failure with the same message. The
messages are copied exactly as `AndroidPrefer.java` has them, including two that
look like copy-and-paste slips:

- `removeValueChangedListener` and `removeGroupValueChangedListener` report "Can
  not add listener" when the registry is not initialized;
- the group listener operations report "Pref can not be null" for a null group.

The dispatcher depends on three collaborators the model cannot see, so each is a
parameter:

- `decode` is the key deserializer. It returns `None` where
  `PreferKeySerializer.deserializeKey` throws `ClassNotFoundException`.
- `valueOf` is `Pref.getValue`.
- `findPref` is `PrefGroup.findPref`.

## Model

| member | source | states |
|---|---|---|
| LinkedCollections.Get | prefer/src/main/java/com/cookingfox/android/prefer/impl/prefer/AndroidPrefer.java:167 | map lookup: `None` exactly when no entry has the key; otherwise the value of an entry with the key, and with distinct keys the value of every such entry |
| LinkedCollections.Put | prefer/src/main/java/com/cookingfox/android/prefer/impl/prefer/AndroidPrefer.java:171 | after a put the key maps to the new value; a new key is appended at the end (insertion order); an existing key keeps its position and the length stays; putting the current value changes nothing |
| LinkedCollections.PutOverwrites | prefer/src/main/java/com/cookingfox/android/prefer/impl/prefer/AndroidPrefer.java:169-174 | a second put under the same key replaces the first: the table is as if only the second put happened |
| LinkedCollections.PutKeepsOtherKeys | prefer/src/main/java/com/cookingfox/android/prefer/impl/prefer/AndroidPrefer.java:207 | a put leaves the lookup of every other key unchanged |
| LinkedCollections.Values | prefer/src/main/java/com/cookingfox/android/prefer/impl/prefer/AndroidPrefer.java:237 | the values of the map in insertion order, one per entry |
| LinkedCollections.SetAdd | prefer/src/main/java/com/cookingfox/android/prefer/impl/prefer/AndroidPrefer.java:174 | set add: the element is in the result, nothing else is added, a duplicate-free set stays duplicate-free, adding a member changes nothing, a new member goes last |
| LinkedCollections.SetRemove | prefer/src/main/java/com/cookingfox/android/prefer/impl/prefer/AndroidPrefer.java:189 | set remove: every other element stays, nothing new appears, the element is gone from a duplicate-free set, removing a non-member changes nothing, the size drops by one exactly when it was a member |
| LinkedCollections.SetRemoveKeepsOrder | prefer/src/main/java/com/cookingfox/android/prefer/impl/prefer/AndroidPrefer.java:189 | set remove cuts out the element's occurrence: the elements before and after it keep their insertion order |
| LinkedCollections.WithListener | prefer/src/main/java/com/cookingfox/android/prefer/impl/prefer/AndroidPrefer.java:167-174 | registration: the owner's set becomes its old set (empty when missing) plus the listener; the table stays well formed; re-adding a registered listener changes nothing; an owner without a set gets a new entry holding only that listener, appended at the end |
| LinkedCollections.WithoutListener | prefer/src/main/java/com/cookingfox/android/prefer/impl/prefer/AndroidPrefer.java:186-190 | unregistration: the owner's set loses the listener; an owner without a set stays without one (no entry is created); the table stays well formed and its length stays; every other entry is unchanged |
| LinkedCollections.AddListener | prefer/src/main/java/com/cookingfox/android/prefer/impl/prefer/AndroidPrefer.java:167-174 | the get, create-and-put-if-missing and add steps produce exactly `WithListener` |
| LinkedCollections.RemoveListener | prefer/src/main/java/com/cookingfox/android/prefer/impl/prefer/AndroidPrefer.java:186-190 | the get and remove-if-present steps produce exactly `WithoutListener` |
| LinkedCollections.ListenerChangeKeepsOtherOwners | prefer/src/main/java/com/cookingfox/android/prefer/impl/prefer/AndroidPrefer.java:167-190 | registering or unregistering a listener for one owner leaves every other owner's set as it was |
| ChangeDispatch.ValueCalls | prefer/src/main/java/com/cookingfox/android/prefer/impl/prefer/AndroidPrefer.java:398-400 | one `onValueChanged(value)` call per listener of the set, in the set's order |
| ChangeDispatch.GroupCalls | prefer/src/main/java/com/cookingfox/android/prefer/impl/prefer/AndroidPrefer.java:418-420 | one `onGroupValueChanged(pref)` call per listener of the set, in the set's order |
| ChangeDispatch.ValueCallsReachEachOnce | prefer/src/main/java/com/cookingfox/android/prefer/impl/prefer/AndroidPrefer.java:398-400 | over a duplicate-free set, a listener receives the value exactly once if it is in the set and never otherwise |
| ChangeDispatch.GroupCallsReachEachOnce | prefer/src/main/java/com/cookingfox/android/prefer/impl/prefer/AndroidPrefer.java:418-420 | over a duplicate-free set, a group listener receives the Pref exactly once if it is in the set and never otherwise |
| ChangeDispatch.PrefCalls | prefer/src/main/java/com/cookingfox/android/prefer/impl/prefer/AndroidPrefer.java:390-404 | the Pref scan makes exactly the calls of the first entry whose Pref has the key (one per listener, with that Pref's value, in set order), and none when no entry has the key |
| ChangeDispatch.GroupPrefCalls | prefer/src/main/java/com/cookingfox/android/prefer/impl/prefer/AndroidPrefer.java:406-424 | the group scan makes exactly the calls of the first entry whose group's key class is the key's run-time class (one per listener, with `findPref(key)`), and none when no entry matches |
| ChangeDispatch.Dispatch | prefer/src/main/java/com/cookingfox/android/prefer/impl/prefer/AndroidPrefer.java:379-425 | a key that does not decode causes no call; otherwise every value-listener call comes before every group-listener call |
| ChangeDispatch.DispatchToValueListener | prefer/src/main/java/com/cookingfox/android/prefer/impl/prefer/AndroidPrefer.java:379-404 | what one value listener receives from a change event: nothing for a key that does not decode or that no Pref entry has; otherwise the first matching Pref's value once if it is in that entry's set, nothing if not |
| ChangeDispatch.DispatchToGroupListener | prefer/src/main/java/com/cookingfox/android/prefer/impl/prefer/AndroidPrefer.java:379-425 | what one group listener receives: nothing for an undecodable key or when no group's key class is the key's run-time class; otherwise `findPref(key)` of the first matching group once if it is in that entry's set, nothing if not |
| ChangeDispatch.ShadowedPrefEntrySkipped | prefer/src/main/java/com/cookingfox/android/prefer/impl/prefer/AndroidPrefer.java:394-402 | first match wins: a listener registered only for a later Pref with the same key as an earlier one is never notified |
| ChangeDispatch.ShadowedGroupEntrySkipped | prefer/src/main/java/com/cookingfox/android/prefer/impl/prefer/AndroidPrefer.java:414-422 | first match wins for groups: a listener registered only for a later group of the same key class is never notified |
| ChangeDispatch.AddedListenerNotified | prefer/src/main/java/com/cookingfox/android/prefer/impl/prefer/AndroidPrefer.java:167-174 | after registering a listener for a Pref, a change of that Pref's key delivers the Pref's value to the listener exactly once, unless another registered Pref shares the key |
| ChangeDispatch.AddedGroupListenerNotified | prefer/src/main/java/com/cookingfox/android/prefer/impl/prefer/AndroidPrefer.java:219-226 | after registering a group listener, a change of a key whose run-time class is the group's key class delivers `findPref(key)` exactly once, unless another registered group shares the class |
| ChangeDispatch.RemovedListenerNotNotified | prefer/src/main/java/com/cookingfox/android/prefer/impl/prefer/AndroidPrefer.java:186-190 | after unregistering a listener from its only Pref, no change event reaches it |
| ChangeDispatch.RemovedGroupListenerNotNotified | prefer/src/main/java/com/cookingfox/android/prefer/impl/prefer/AndroidPrefer.java:249-253 | after unregistering a group listener from its only group, no change event reaches it |
| PreferRegistry.AndroidPrefer.constructor | prefer/src/main/java/com/cookingfox/android/prefer/impl/prefer/AndroidPrefer.java:32-52 | a new registry is not initialized and has no groups and no listeners |
| PreferRegistry.AndroidPrefer.InitializePrefer | prefer/src/main/java/com/cookingfox/android/prefer/impl/prefer/AndroidPrefer.java:59-67 | afterwards the registry is initialized and every table is as before, so a second call changes nothing |
| PreferRegistry.AndroidPrefer.DisposePrefer | prefer/src/main/java/com/cookingfox/android/prefer/impl/prefer/AndroidPrefer.java:70-82 | on an uninitialized registry nothing changes; otherwise all groups and all listeners are cleared and the registry is no longer initialized |
| PreferRegistry.AndroidPrefer.AddValueChangedListener | prefer/src/main/java/com/cookingfox/android/prefer/impl/prefer/AndroidPrefer.java:159-175 | null Pref, then null listener, then not initialized are rejected with the source's messages and change nothing; otherwise it succeeds and the per-Pref table becomes `WithListener` of the old one, all else unchanged |
| PreferRegistry.AndroidPrefer.RemoveValueChangedListener | prefer/src/main/java/com/cookingfox/android/prefer/impl/prefer/AndroidPrefer.java:178-191 | the same three rejections; otherwise it succeeds and the per-Pref table becomes `WithoutListener` of the old one, all else unchanged |
| PreferRegistry.AndroidPrefer.AddGroup | prefer/src/main/java/com/cookingfox/android/prefer/impl/prefer/AndroidPrefer.java:198-208 | a null group is rejected; a group whose key class is already registered is rejected with `GroupAlreadyAdded(group)` and the groups are unchanged; otherwise the group is appended under its key class; works with or without initialization |
| PreferRegistry.AndroidPrefer.AddGroupValueChangedListener | prefer/src/main/java/com/cookingfox/android/prefer/impl/prefer/AndroidPrefer.java:211-227 | null group, then null listener, then not initialized are rejected and change nothing; otherwise the per-group table becomes `WithListener` of the old one |
| PreferRegistry.AndroidPrefer.FindGroup | prefer/src/main/java/com/cookingfox/android/prefer/impl/prefer/AndroidPrefer.java:230-233 | a null key class is rejected; otherwise the result is non-null exactly when a group is registered under the class, and then it is that class's group |
| PreferRegistry.AndroidPrefer.GetGroups | prefer/src/main/java/com/cookingfox/android/prefer/impl/prefer/AndroidPrefer.java:236-238 | the registered groups in insertion order, without duplicates |
| PreferRegistry.AndroidPrefer.RemoveGroupValueChangedListener | prefer/src/main/java/com/cookingfox/android/prefer/impl/prefer/AndroidPrefer.java:241-254 | the same three rejections; otherwise the per-group table becomes `WithoutListener` of the old one |
| PreferRegistry.AndroidPrefer.HandlePrefChanged | prefer/src/main/java/com/cookingfox/android/prefer/impl/prefer/AndroidPrefer.java:379-425 | the calls made for a changed serialized key are exactly `Dispatch` over the current tables: nothing for an undecodable key, else the Pref scan's calls followed by the group scan's |
| PreferRegistry.AndroidPrefer.NotifyPrefListeners | prefer/src/main/java/com/cookingfox/android/prefer/impl/prefer/AndroidPrefer.java:390-404 | the nested loop with `break` makes exactly the Pref scan's calls |
| PreferRegistry.AndroidPrefer.NotifyGroupListeners | prefer/src/main/java/com/cookingfox/android/prefer/impl/prefer/AndroidPrefer.java:406-424 | the nested loop with `break` makes exactly the group scan's calls |
| PreferScenarios.InitializeTwice | prefer/src/main/java/com/cookingfox/android/prefer/impl/prefer/AndroidPrefer.java:59-67 | a second initialize keeps the registered group, and listeners can still be added |
| PreferScenarios.SubscribeThenChange | prefer/src/test/java/com/cookingfox/android/prefer/impl/prefer/SharedPreferencesPreferTest.java:80-96 | a subscribed listener is called once with the Pref's value when its key changes |
| PreferScenarios.SubscribeUnsubscribeThenChange | prefer/src/test/java/com/cookingfox/android/prefer/impl/prefer/SharedPreferencesPreferTest.java:131-150 | after subscribe and unsubscribe, a change of the key calls nobody |
| PreferScenarios.SubscribeBeforeInitialize | prefer/src/test/java/com/cookingfox/android/prefer/impl/prefer/SharedPreferencesPreferTest.java:98-163 | subscribe and unsubscribe on a registry never initialized fail with `NotInitialized` |
| PreferScenarios.SubscribeWithNulls | prefer/src/test/java/com/cookingfox/android/prefer/impl/prefer/SharedPreferencesPreferTest.java:64-78 | a null Pref and a null listener are rejected with their messages |
| PreferScenarios.DisposeForgetsEverything | prefer/src/test/java/com/cookingfox/android/prefer/impl/prefer/SharedPreferencesPreferTest.java:169-198 | dispose forgets the added group and the subscription |
| PreferScenarios.AddGroupTwice | prefer/src/test/java/com/cookingfox/android/prefer/impl/prefer/SharedPreferencesPreferTest.java:302-318 | the first add succeeds, the second fails with `GroupAlreadyAdded`, one group stays and `findGroup` returns it |
| PreferScenarios.EmptyRegistry | prefer/src/test/java/com/cookingfox/android/prefer/impl/prefer/SharedPreferencesPreferTest.java:356-380 | on a fresh registry `findGroup` returns null without failing and `getGroups` is empty |
| PreferScenarios.GroupSubscribeThenChange | prefer/src/main/java/com/cookingfox/android/prefer/impl/prefer/AndroidPrefer.java:211-227 | a group listener is called once with the group's Pref when a key of the group's class changes |
| PreferScenarios.ConstantWithBodySkipsGroup | prefer/src/main/java/com/cookingfox/android/prefer/impl/prefer/AndroidPrefer.java:407-414 | a constant whose run-time class is an anonymous subclass reaches no listener of the group registered under its enum class |

## Left out

- The typed getters and setters (`getBoolean` … `putString`) only forward to the helper: the preference store is not part of this model.
- `getHelper` and `createHelper`, and the helper's own `initializePrefer`/`disposePrefer` calls inside the lifecycle methods, are left out. The helper is not part of this model; the lifecycle methods model only the registry state.
- The factories `newGroup` and `newBoolean` … `newString` only construct objects. `addNewGroup` is `newGroup` followed by `addGroup`, so the scenarios call `AddGroup` on a new group.
- `PreferKeySerializer.deserializeKey` is the `decode` parameter. `Pref.getValue` is `valueOf` and `PrefGroup.findPref` is `findPref`. Their own behaviour is not part of this model.
- Map and set lookups compare by Dafny reference equality. This assumes identity `equals`/`hashCode` on Prefs and groups; an override in those classes (not part of this model) could merge or split entries, and the shadowing lemmas would then read differently. The hash tables become ordered sequences searched linearly, with the same insertion-order iteration.
- Generic type parameters (`Pref<K, V>`, `OnValueChanged<V>`) are erased. A value listener receives a `V` chosen per change event.
- Listener callbacks are recorded as a trace rather than executed. The model does not cover a callback that re-enters the registry during dispatch, or the resulting `ConcurrentModificationException`.
- `handlePrefChanged` catches only `ClassNotFoundException` from the key decoder. Any other exception stops the dispatch part-way and propagates: one from another failure of `deserializeKey`, from `pref.getValue()`, from `group.findPref(key)` or from a listener callback. The model's collaborators are total functions and callbacks cannot fail, so `Dispatch` is always the complete list of calls.
- No thread safety is modelled. The source has none either.
- `AddedListenerNotified` and `AddedGroupListenerNotified` assume that no other registered Pref shares the key (or no other group has the key's run-time class as its key class). Without that assumption, first-match-wins applies, as `ShadowedPrefEntrySkipped` and `ShadowedGroupEntrySkipped` state.
