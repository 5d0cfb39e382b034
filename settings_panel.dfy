/** ctkSettingsPanel's registry as an object: the store it writes to, the
    per-key default/previous/current slots and the registration order are
    fields that registration, change notifications and applySettings()
    update in place. Each method is proved to do what the matching function
    of SettingsRegistry does to the abstract state. */
module SettingsPanels {
  import opened SettingsValues
  import opened SettingsRegistry

  class SettingsPanel {
    var store: map<string, Value>
    var entries: map<string, Entry>
    var keys: seq<string>

    /** The panel's abstract state. */
    function State(): Registry
      reads this
    {
      Registry(store, entries, keys)
    }

    ghost predicate Valid()
      reads this
    {
      Consistent(State())
    }

    /** A panel given a settings store (setSettings) and no property yet. */
    constructor (settings: map<string, Value>)
      ensures Valid() && State() == Empty(settings)
    {
      store := settings;
      entries := map[];
      keys := [];
    }

    /** registerProperty: binds `key` to a property whose live value is
        `live`, and returns the value the property holds afterwards. */
    method RegisterProperty(key: string, live: Value) returns (adopted: Value)
      requires Valid()
      modifies this
      ensures Valid()
      ensures State() == Register(old(State()), key, live)
      ensures adopted == Adopted(old(State()), key, live)
    {
      RegisterConsistent(State(), key, live);
      adopted := if key in store then store[key] else live;
      store := store[key := adopted];
      if key !in entries {
        keys := keys + [key];
      }
      entries := entries[key := Entry(live, adopted, adopted)];
    }

    /** The bound object's change signal: the property registered under
        `key` now holds `v`. Reports whether the key is registered; an
        unregistered key leaves the panel as it was. */
    method NotifyChanged(key: string, v: Value) returns (found: bool)
      requires Valid()
      modifies this
      ensures Valid()
      ensures found <==> key in old(entries)
      ensures State() == Edit(old(State()), key, v)
    {
      EditConsistent(State(), key, v);
      found := key in entries;
      if found {
        entries := entries[key := entries[key].(currentValue := v)];
        store := store[key := v];
      }
    }

    /** applySettings(): one pass over the keys in registration order that
        commits each entry and writes its current value back to the store. */
    method ApplySettings()
      requires Valid()
      modifies this
      ensures Valid()
      ensures State() == Apply(old(State()))
    {
      ghost var r0 := State();
      var i := 0;
      while i < |keys|
        invariant 0 <= i <= |keys|
        invariant keys == r0.keys
        invariant entries.Keys == r0.entries.Keys
        invariant store == r0.store
        invariant forall k :: k in entries ==>
          entries[k] == if k in keys[..i] then Commit(r0.entries[k]) else r0.entries[k]
      {
        var k := keys[i];
        assert k in r0.entries;
        entries := entries[k := Commit(entries[k])];
        store := store[k := entries[k].currentValue];
        assert keys[..i + 1] == keys[..i] + [k];
        i := i + 1;
      }
      assert keys[..i] == keys;
      ApplyPointwise(r0, entries);
    }

    /** changedSettings(): the registered keys whose current value differs
        from their previous value, each once, in registration order. */
    function ChangedSettings(): (changed: seq<string>)
      reads this
      requires Valid()
      ensures forall k :: k in changed <==> k in entries && entries[k].Dirty()
      ensures Subsequence(changed, keys)
      ensures NoDuplicates(changed)
    {
      Changed(State())
    }

    /** defaultPropertyValue(key): invalid for a key never registered. */
    function DefaultPropertyValue(key: string): (v: Option<Value>)
      reads this
      ensures v.None? <==> key !in entries
      ensures v.Some? ==> v.value == entries[key].defaultValue
    {
      if key in entries then Some(entries[key].defaultValue) else None
    }

    /** previousPropertyValue(key): invalid for a key never registered. */
    function PreviousPropertyValue(key: string): (v: Option<Value>)
      reads this
      ensures v.None? <==> key !in entries
      ensures v.Some? ==> v.value == entries[key].previousValue
    {
      if key in entries then Some(entries[key].previousValue) else None
    }

    /** propertyValue(key): invalid for a key never registered. */
    function PropertyValue(key: string): (v: Option<Value>)
      reads this
      ensures v.None? <==> key !in entries
      ensures v.Some? ==> v.value == entries[key].currentValue
    {
      if key in entries then Some(entries[key].currentValue) else None
    }

    /** What the store holds for `key` (QSettings::value): invalid when it
        holds nothing. For a registered key it is the live value. */
    function StoredValue(key: string): (v: Option<Value>)
      reads this
      requires Valid()
      ensures v.None? <==> key !in store
      ensures key in entries ==> v == Some(entries[key].currentValue)
    {
      if key in store then Some(store[key]) else None
    }
  }
}
