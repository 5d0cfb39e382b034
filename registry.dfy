/** The settings registry as values: what registering a property, a live
    edit and a commit do to the three generations of each key and to the
    key/value store that mirrors them. The class SettingsPanel is proved
    against these functions. */
module SettingsRegistry {
  import opened SettingsValues

  /** The three generations of one registered key. */
  datatype Entry = Entry(defaultValue: Value, previousValue: Value, currentValue: Value)
  {
    /** A key is changed when its live value differs from the committed one. */
    predicate Dirty() { currentValue != previousValue }
  }

  /** The store (the QSettings the panel writes to), the registered entries
      and the keys in registration order. */
  datatype Registry = Registry(store: map<string, Value>, entries: map<string, Entry>, keys: seq<string>)

  predicate NoDuplicates(s: seq<string>)
  {
    forall i, j :: 0 <= i < j < |s| ==> s[i] != s[j]
  }

  /** The registry's invariant: the key order lists exactly the registered
      keys, once each, and the store mirrors every live value. */
  ghost predicate Consistent(r: Registry)
  {
    && (forall k :: k in r.entries <==> k in r.keys)
    && NoDuplicates(r.keys)
    && (forall k :: k in r.entries ==> k in r.store && r.store[k] == r.entries[k].currentValue)
  }

  /** The registry right after the panel is given its store. */
  function Empty(store: map<string, Value>): Registry
  {
    Registry(store, map[], [])
  }

  /** `s` is `t` with some elements left out: what remains keeps the order
      it has in `t`. */
  predicate Subsequence(s: seq<string>, t: seq<string>)
    decreases |t|
  {
    if s == [] then true
    else if t == [] then false
    else (s[0] == t[0] && Subsequence(s[1..], t[1..])) || Subsequence(s, t[1..])
  }

  /** Every element of a subsequence occurs in the sequence it was taken from. */
  lemma {:induction false} SubsequenceMembers(s: seq<string>, t: seq<string>)
    requires Subsequence(s, t)
    ensures forall k :: k in s ==> k in t
    decreases |t|
  {
    if s != [] {
      if s[0] == t[0] && Subsequence(s[1..], t[1..]) {
        SubsequenceMembers(s[1..], t[1..]);
        assert s == [s[0]] + s[1..];
        assert t == [t[0]] + t[1..];
      } else {
        SubsequenceMembers(s, t[1..]);
        assert t == [t[0]] + t[1..];
      }
    }
  }

  /** The keys of `keys`, in order, whose entry is dirty. */
  function DirtyKeys(keys: seq<string>, entries: map<string, Entry>): (r: seq<string>)
    ensures forall k :: k in r <==> k in keys && k in entries && entries[k].Dirty()
    ensures Subsequence(r, keys)
    ensures NoDuplicates(keys) ==> NoDuplicates(r)
  {
    if keys == [] then []
    else
      var rest := DirtyKeys(keys[1..], entries);
      assert NoDuplicates(keys) ==> keys[0] !in keys[1..];
      if keys[0] in entries && entries[keys[0]].Dirty() then [keys[0]] + rest else rest
  }

  /** changedSettings(): the registered keys whose current value differs
      from their previous value, in registration order. */
  function Changed(r: Registry): seq<string>
  {
    DirtyKeys(r.keys, r.entries)
  }

  /** The change set is pinned down by its contract: a list of the dirty
      registered keys, each once, in registration order, is the change set. */
  lemma {:induction false} DirtyKeysUnique(keys: seq<string>, entries: map<string, Entry>, s: seq<string>)
    requires NoDuplicates(keys)
    requires Subsequence(s, keys)
    requires forall k :: k in s <==> k in keys && k in entries && entries[k].Dirty()
    ensures s == DirtyKeys(keys, entries)
    decreases |keys|
  {
    if keys != [] {
      var k0, rest := keys[0], keys[1..];
      assert k0 !in rest;
      assert NoDuplicates(rest);
      if k0 in entries && entries[k0].Dirty() {
        assert k0 in s;
        if !(s[0] == k0 && Subsequence(s[1..], rest)) {
          SubsequenceMembers(s, rest);
          assert false;
        }
        SubsequenceMembers(s[1..], rest);
        assert s == [s[0]] + s[1..];
        forall k
          ensures k in s[1..] <==> k in rest && k in entries && entries[k].Dirty()
        {
          if k in rest && k in entries && entries[k].Dirty() {
            assert k in s && k != k0;
          }
        }
        DirtyKeysUnique(rest, entries, s[1..]);
      } else {
        assert Subsequence(s, rest);
        SubsequenceMembers(s, rest);
        DirtyKeysUnique(rest, entries, s);
      }
    }
  }

  /** The value a newly registered property ends up with: the one already
      in the store, if any, else the object's live value. */
  function Adopted(r: Registry, key: string, live: Value): Value
  {
    if key in r.store then r.store[key] else live
  }

  /** registerProperty(key, object, property, signal): binds `key` to a
      property whose live value is `live`. */
  function Register(r: Registry, key: string, live: Value): Registry
  {
    var v := Adopted(r, key, live);
    Registry(
      r.store[key := v],
      r.entries[key := Entry(live, v, v)],
      if key in r.entries then r.keys else r.keys + [key])
  }

  /** The bound object's change signal: the property bound to `key` now
      holds `v`. A key that was never registered is ignored. */
  function Edit(r: Registry, key: string, v: Value): Registry
  {
    if key in r.entries then
      r.(store := r.store[key := v],
         entries := r.entries[key := r.entries[key].(currentValue := v)])
    else r
  }

  /** Committing one entry: its previous value becomes its current value. */
  function Commit(e: Entry): Entry
  {
    e.(previousValue := e.currentValue)
  }

  /** applySettings(): commits every entry and re-persists every live value. */
  function Apply(r: Registry): Registry
  {
    r.(entries := map k | k in r.entries :: Commit(r.entries[k]),
       store := r.store + map k | k in r.entries :: r.entries[k].currentValue)
  }

  // ---------------------------------------------------------------------
  // Registration

  lemma RegisterConsistent(r: Registry, key: string, live: Value)
    requires Consistent(r)
    ensures Consistent(Register(r, key, live))
  {
  }

  /** Registering a key the store does not hold writes the live value to the
      store and makes it the default, previous and current value at once; the
      key is not reported as changed and no other entry is touched. */
  lemma RegisterFresh(r: Registry, key: string, live: Value)
    requires Consistent(r)
    requires key !in r.store
    ensures var r' := Register(r, key, live);
      && r'.store == r.store[key := live]
      && r'.entries[key] == Entry(live, live, live)
      && r'.keys == r.keys + [key]
      && (forall k :: k in r.entries ==> k in r'.entries && r'.entries[k] == r.entries[k])
      && Changed(r') == Changed(r)
      && key !in Changed(r')
  {
    var r' := Register(r, key, live);
    assert key !in r.entries;
    DirtyKeysAppendClean(r.keys, r.entries, r'.entries, key);
  }

  /** Registering a key the store already holds adopts the stored value as
      previous and current value (the bound property is set to it), keeps
      the object's live value as the default and leaves the store as it was. */
  lemma RegisterStored(r: Registry, key: string, live: Value)
    requires key in r.store
    ensures var r' := Register(r, key, live);
      && r'.store == r.store
      && Adopted(r, key, live) == r.store[key]
      && r'.entries[key] == Entry(live, r.store[key], r.store[key])
      && key !in Changed(r')
  {
  }

  /** Appending a clean key to the key order does not change the change set. */
  lemma {:induction false} DirtyKeysAppendClean(keys: seq<string>, entries: map<string, Entry>,
                                               entries': map<string, Entry>, key: string)
    requires key !in keys
    requires key in entries' && !entries'[key].Dirty()
    requires forall k :: k in keys ==> (k in entries <==> k in entries')
    requires forall k :: k in keys && k in entries ==> entries'[k] == entries[k]
    ensures DirtyKeys(keys + [key], entries') == DirtyKeys(keys, entries)
  {
    if keys != [] {
      assert (keys + [key])[1..] == keys[1..] + [key];
      DirtyKeysAppendClean(keys[1..], entries, entries', key);
    }
  }

  /** A key order with no dirty key reports nothing. */
  lemma {:induction false} DirtyKeysClean(keys: seq<string>, entries: map<string, Entry>)
    requires forall k :: k in keys && k in entries ==> !entries[k].Dirty()
    ensures DirtyKeys(keys, entries) == []
  {
    if keys != [] {
      DirtyKeysClean(keys[1..], entries);
    }
  }

  // ---------------------------------------------------------------------
  // Live edits

  lemma EditConsistent(r: Registry, key: string, v: Value)
    requires Consistent(r)
    ensures Consistent(Edit(r, key, v))
  {
  }

  /** A live edit is written through to the store and becomes the current
      value; previous and default stay, and the key is reported as changed
      exactly when the new value differs from the committed one. Every other
      entry is untouched. */
  lemma EditWritesThrough(r: Registry, key: string, v: Value)
    requires Consistent(r)
    requires key in r.entries
    ensures var r' := Edit(r, key, v);
      && r'.store == r.store[key := v]
      && r'.entries[key].currentValue == v
      && r'.entries[key].previousValue == r.entries[key].previousValue
      && r'.entries[key].defaultValue == r.entries[key].defaultValue
      && r'.keys == r.keys
      && (forall k :: k in r.entries && k != key ==> r'.entries[k] == r.entries[k])
      && (key in Changed(r') <==> v != r.entries[key].previousValue)
  {
  }

  /** A key order in which only `key` is dirty reports exactly `[key]`. */
  lemma {:induction false} DirtyKeysSingle(keys: seq<string>, entries: map<string, Entry>, key: string)
    requires NoDuplicates(keys)
    requires key in keys && key in entries && entries[key].Dirty()
    requires forall k :: k in keys && k in entries && k != key ==> !entries[k].Dirty()
    ensures DirtyKeys(keys, entries) == [key]
  {
    if keys[0] == key {
      assert key !in keys[1..];
      DirtyKeysClean(keys[1..], entries);
    } else {
      DirtyKeysSingle(keys[1..], entries, key);
    }
  }

  /** Editing one key of a registry with nothing pending to a value that
      differs from its committed one makes that key the whole change set. */
  lemma EditOnCleanRegistry(r: Registry, key: string, v: Value)
    requires Consistent(r)
    requires Changed(r) == []
    requires key in r.entries
    requires v != r.entries[key].previousValue
    ensures Changed(Edit(r, key, v)) == [key]
  {
    var r' := Edit(r, key, v);
    EditWritesThrough(r, key, v);
    forall k | k in r.keys && k != key
      ensures !r'.entries[k].Dirty()
    {
      assert k !in Changed(r);
    }
    DirtyKeysSingle(r'.keys, r'.entries, key);
  }

  // ---------------------------------------------------------------------
  // Commit

  lemma ApplyConsistent(r: Registry)
    requires Consistent(r)
    ensures Consistent(Apply(r))
  {
  }

  /** After applySettings() every previous value equals the current value,
      defaults and current values are unchanged, the store still holds every
      current value (committing writes nothing new) and no key is changed. */
  lemma ApplyCommits(r: Registry)
    requires Consistent(r)
    ensures var r' := Apply(r);
      && r'.entries.Keys == r.entries.Keys
      && r'.keys == r.keys
      && r'.store == r.store
      && (forall k :: k in r.entries ==>
            && r'.entries[k].previousValue == r.entries[k].currentValue
            && r'.entries[k].currentValue == r.entries[k].currentValue
            && r'.entries[k].defaultValue == r.entries[k].defaultValue)
      && Changed(r') == []
  {
    DirtyKeysClean(Apply(r).keys, Apply(r).entries);
  }

  /** Committing every entry one by one, with the store left as it is, is
      what applySettings() does to the whole registry. */
  lemma ApplyPointwise(r: Registry, entries: map<string, Entry>)
    requires Consistent(r)
    requires entries.Keys == r.entries.Keys
    requires forall k :: k in entries ==> entries[k] == Commit(r.entries[k])
    ensures Apply(r) == Registry(r.store, entries, r.keys)
    ensures Consistent(Apply(r))
  {
  }

  /** On a registry with nothing pending, an edit followed by a commit
      changes that one key and nothing else: its previous and current value
      and its stored value become the edited value. */
  lemma EditThenApplyOnClean(r: Registry, key: string, v: Value)
    requires Consistent(r)
    requires Changed(r) == []
    requires key in r.entries
    ensures Apply(Edit(r, key, v)) ==
      r.(store := r.store[key := v],
         entries := r.entries[key := r.entries[key].(previousValue := v, currentValue := v)])
  {
    var r1 := Edit(r, key, v);
    EditConsistent(r, key, v);
    ApplyCommits(r1);
    forall k | k in r.entries && k != key
      ensures Commit(r1.entries[k]) == r.entries[k]
    {
      assert k !in Changed(r);
    }
    assert Apply(r1).entries == r.entries[key := r.entries[key].(previousValue := v, currentValue := v)];
  }

  /** Applying twice in a row with no edit in between changes nothing the
      second time. */
  lemma ApplyIdempotent(r: Registry)
    requires Consistent(r)
    ensures Apply(Apply(r)) == Apply(r)
  {
    ApplyCommits(r);
    ApplyCommits(Apply(r));
    assert Apply(Apply(r)).entries == Apply(r).entries;
  }

  /** One edit/apply cycle: the just-committed value becomes the previous
      value, the default stays, nothing is pending, and a further edit makes
      the key changed again exactly when it departs from that value. */
  lemma EditApplyCycle(r: Registry, key: string, v: Value, w: Value)
    requires Consistent(r)
    requires key in r.entries
    ensures var r1 := Apply(Edit(r, key, v));
      && r1.entries[key].previousValue == v
      && r1.entries[key].defaultValue == r.entries[key].defaultValue
      && r1.store[key] == v
      && Changed(r1) == []
      && (Changed(Edit(r1, key, w)) == if w != v then [key] else [])
  {
    var r0 := Edit(r, key, v);
    EditConsistent(r, key, v);
    ApplyCommits(r0);
    var r1 := Apply(r0);
    ApplyConsistent(r0);
    if w != v {
      EditOnCleanRegistry(r1, key, w);
    } else {
      EditWritesThrough(r1, key, w);
      DirtyKeysClean(Edit(r1, key, w).keys, Edit(r1, key, w).entries);
    }
  }

  // ---------------------------------------------------------------------
  // Sequences of operations

  /** What happens to the panel: a registration, a live edit or a commit. */
  datatype Op =
    | RegisterOp(key: string, live: Value)
    | EditOp(key: string, value: Value)
    | ApplyOp

  function Step(r: Registry, op: Op): Registry
  {
    match op
    case RegisterOp(key, live) => Register(r, key, live)
    case EditOp(key, v) => Edit(r, key, v)
    case ApplyOp => Apply(r)
  }

  function Run(r: Registry, ops: seq<Op>): Registry
    decreases |ops|
  {
    if ops == [] then r else Run(Step(r, ops[0]), ops[1..])
  }

  /** Every operation keeps the registry's invariant. */
  lemma {:induction false} RunConsistent(r: Registry, ops: seq<Op>)
    requires Consistent(r)
    ensures Consistent(Run(r, ops))
    decreases |ops|
  {
    if ops != [] {
      match ops[0] {
        case RegisterOp(key, live) => RegisterConsistent(r, key, live);
        case EditOp(key, v) => EditConsistent(r, key, v);
        case ApplyOp => ApplyConsistent(r);
      }
      RunConsistent(Step(r, ops[0]), ops[1..]);
    }
  }

  /** The default value of a registered key is fixed at registration: no
      number of edits, commits or registrations of other keys changes it. */
  lemma {:induction false} DefaultFixed(r: Registry, ops: seq<Op>, key: string)
    requires key in r.entries
    requires forall i :: 0 <= i < |ops| ==> !(ops[i].RegisterOp? && ops[i].key == key)
    ensures key in Run(r, ops).entries
    ensures Run(r, ops).entries[key].defaultValue == r.entries[key].defaultValue
    decreases |ops|
  {
    if ops != [] {
      var r' := Step(r, ops[0]);
      assert key in r'.entries && r'.entries[key].defaultValue == r.entries[key].defaultValue;
      DefaultFixed(r', ops[1..], key);
    }
  }

  /** Whatever happened before, a commit leaves nothing pending. */
  lemma {:induction false} RunThenApplyClean(r: Registry, ops: seq<Op>)
    requires Consistent(r)
    ensures Changed(Run(r, ops + [ApplyOp])) == []
    decreases |ops|
  {
    if ops == [] {
      assert Run(r, [ApplyOp]) == Run(Apply(r), []);
      ApplyCommits(r);
    } else {
      assert (ops + [ApplyOp])[0] == ops[0];
      assert (ops + [ApplyOp])[1..] == ops[1..] + [ApplyOp];
      match ops[0] {
        case RegisterOp(key, live) => RegisterConsistent(r, key, live);
        case EditOp(key, v) => EditConsistent(r, key, v);
        case ApplyOp => ApplyConsistent(r);
      }
      RunThenApplyClean(Step(r, ops[0]), ops[1..]);
    }
  }
}
