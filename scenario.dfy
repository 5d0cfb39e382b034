/** The settings panel's test scenario, step by step: a check box, a line
    edit, the complement of a second check box through a boolean mapper, and
    a string-list property are registered on one panel whose store starts
    empty; each is edited and committed, and after every step the store, the
    three generations of the key and the change set are what the scenario
    expects. A bound object's change signal is forwarded to the panel as
    NotifyChanged with the property's new value. */
module PanelScenario {
  import opened SettingsValues
  import opened SettingsRegistry
  import opened SettingsPanels
  import opened BooleanMappers

  /** registerProperty on a panel with nothing pending, for a key the store
      does not hold: the live value is written to the store and becomes the
      key's default, previous and current value, and nothing is pending. */
  method RegisterClean(panel: SettingsPanel, key: string, live: Value)
    requires panel.Valid()
    requires panel.ChangedSettings() == []
    requires key !in panel.store
    modifies panel
    ensures panel.Valid()
    ensures panel.keys == old(panel.keys) + [key]
    ensures panel.store == old(panel.store)[key := live]
    ensures panel.entries == old(panel.entries)[key := Entry(live, live, live)]
    ensures panel.ChangedSettings() == []
  {
    ghost var before := panel.State();
    var adopted := panel.RegisterProperty(key, live);
    RegisterFresh(before, key, live);
    assert adopted == live;
    assert panel.StoredValue(key) == Some(live);
    assert panel.PreviousPropertyValue(key) == Some(live);
    assert panel.DefaultPropertyValue(key) == Some(live);
    assert panel.PropertyValue(key) == Some(live);
  }

  /** One live edit of a registered key followed by applySettings(), on a
      panel with nothing pending: the edit is in the store at once and is
      the only changed key; after the commit it is the previous value too,
      the default is untouched and nothing is pending. */
  method EditAndApply(panel: SettingsPanel, key: string, v: Value)
    requires panel.Valid()
    requires panel.ChangedSettings() == []
    requires key in panel.entries
    requires v != panel.entries[key].previousValue
    modifies panel
    ensures panel.Valid()
    ensures panel.keys == old(panel.keys)
    ensures panel.store == old(panel.store)[key := v]
    ensures panel.entries == old(panel.entries)[key := old(panel.entries[key]).(previousValue := v, currentValue := v)]
    ensures panel.ChangedSettings() == []
  {
    ghost var before := panel.State();
    var found := panel.NotifyChanged(key, v);
    EditWritesThrough(before, key, v);
    EditOnCleanRegistry(before, key, v);
    assert found && panel.StoredValue(key) == Some(v) && panel.PropertyValue(key) == Some(v);
    assert panel.PreviousPropertyValue(key) == Some(before.entries[key].previousValue);
    assert panel.DefaultPropertyValue(key) == Some(before.entries[key].defaultValue);
    assert panel.ChangedSettings() == [key];
    panel.ApplySettings();
    EditThenApplyOnClean(before, key, v);
    ApplyCommits(Edit(before, key, v));
  }

  /** The keys the scenario registers its four properties under. */
  const Key1: string := "key 1"
  const Key2: string := "key 2"
  const KeyComplement: string := "key complement"
  const KeyList: string := "key list"

  /** The four keys are distinct strings. */
  lemma DistinctKeys()
    ensures Key1 != Key2 && Key1 != KeyComplement && Key1 != KeyList
    ensures Key2 != KeyComplement && Key2 != KeyList
    ensures KeyComplement != KeyList
  {
  }

  /** Writing a key twice is writing it once, with the later value. */
  lemma Overwrite<V>(m: map<string, V>, key: string, a: V, b: V)
    ensures m[key := a][key := b] == m[key := b]
  {
  }

  /** "key 1": a check box, registered unchecked, then checked and committed. */
  method CheckBoxSteps(panel: SettingsPanel)
    requires panel.Valid()
    requires panel.ChangedSettings() == []
    requires Key1 !in panel.store
    modifies panel
    ensures panel.Valid()
    ensures panel.keys == old(panel.keys) + [Key1]
    ensures panel.store == old(panel.store)[Key1 := Bool(true)]
    ensures panel.entries == old(panel.entries)[Key1 := Entry(Bool(false), Bool(true), Bool(true))]
    ensures panel.ChangedSettings() == []
  {
    var box := new CheckBox();
    ghost var store0, entries0 := panel.store, panel.entries;
    RegisterClean(panel, Key1, Bool(box.checked));
    box.SetChecked(true);
    EditAndApply(panel, Key1, Bool(box.checked));
    Overwrite(store0, Key1, Bool(false), Bool(true));
    Overwrite(entries0, Key1, Entry(Bool(false), Bool(false), Bool(false)),
              Entry(Bool(false), Bool(true), Bool(true)));
  }

  /** "key 2": a line edit's text, registered as "default", then edited and
      committed twice. */
  method LineEditSteps(panel: SettingsPanel)
    requires panel.Valid()
    requires panel.ChangedSettings() == []
    requires Key2 !in panel.store
    modifies panel
    ensures panel.Valid()
    ensures panel.keys == old(panel.keys) + [Key2]
    ensures panel.store == old(panel.store)[Key2 := Text("second edit")]
    ensures panel.entries == old(panel.entries)[Key2 := Entry(Text("default"), Text("second edit"), Text("second edit"))]
    ensures panel.ChangedSettings() == []
  {
    ghost var store0, entries0 := panel.store, panel.entries;
    RegisterClean(panel, Key2, Text("default"));
    EditAndApply(panel, Key2, Text("first edit"));
    Overwrite(store0, Key2, Text("default"), Text("first edit"));
    Overwrite(entries0, Key2, Entry(Text("default"), Text("default"), Text("default")),
              Entry(Text("default"), Text("first edit"), Text("first edit")));
    EditAndApply(panel, Key2, Text("second edit"));
    Overwrite(store0, Key2, Text("first edit"), Text("second edit"));
    Overwrite(entries0, Key2, Entry(Text("default"), Text("first edit"), Text("first edit")),
              Entry(Text("default"), Text("second edit"), Text("second edit")));
  }

  /** "key complement": the complement of an unchecked check box, through a
      boolean mapper; checking the box makes the complement false. */
  method ComplementSteps(panel: SettingsPanel)
    requires panel.Valid()
    requires panel.ChangedSettings() == []
    requires KeyComplement !in panel.store
    modifies panel
    ensures panel.Valid()
    ensures panel.keys == old(panel.keys) + [KeyComplement]
    ensures panel.store == old(panel.store)[KeyComplement := Bool(false)]
    ensures panel.entries == old(panel.entries)[KeyComplement := Entry(Bool(true), Bool(false), Bool(false))]
    ensures panel.ChangedSettings() == []
  {
    var box := new CheckBox();
    var mapper := new BooleanMapper(box);
    ghost var store0, entries0 := panel.store, panel.entries;
    RegisterClean(panel, KeyComplement, Bool(mapper.ComplementValue()));
    box.SetChecked(true);
    EditAndApply(panel, KeyComplement, Bool(mapper.ComplementValue()));
    Overwrite(store0, KeyComplement, Bool(true), Bool(false));
    Overwrite(entries0, KeyComplement, Entry(Bool(true), Bool(true), Bool(true)),
              Entry(Bool(true), Bool(false), Bool(false)));
  }

  /** "key list": a string list, registered empty, grown to one and two
      items and emptied again, with a commit after each change. */
  method ListSteps(panel: SettingsPanel)
    requires panel.Valid()
    requires panel.ChangedSettings() == []
    requires KeyList !in panel.store
    modifies panel
    ensures panel.Valid()
    ensures panel.keys == old(panel.keys) + [KeyList]
    ensures panel.store == old(panel.store)[KeyList := TextList([])]
    ensures panel.entries == old(panel.entries)[KeyList := Entry(TextList([]), TextList([]), TextList([]))]
    ensures panel.ChangedSettings() == []
  {
    var empty, one, two := TextList([]), TextList(["first item"]), TextList(["first item", "second item"]);
    ghost var store0, entries0 := panel.store, panel.entries;
    RegisterClean(panel, KeyList, empty);
    EditAndApply(panel, KeyList, one);
    Overwrite(store0, KeyList, empty, one);
    Overwrite(entries0, KeyList, Entry(empty, empty, empty), Entry(empty, one, one));
    EditAndApply(panel, KeyList, two);
    Overwrite(store0, KeyList, one, two);
    Overwrite(entries0, KeyList, Entry(empty, one, one), Entry(empty, two, two));
    EditAndApply(panel, KeyList, empty);
    Overwrite(store0, KeyList, two, empty);
    Overwrite(entries0, KeyList, Entry(empty, two, two), Entry(empty, empty, empty));
  }

  /** Four appends to an empty sequence, in order. */
  lemma Appended<T>(s0: seq<T>, s1: seq<T>, s2: seq<T>, s3: seq<T>, s4: seq<T>, a: T, b: T, c: T, d: T)
    requires s0 == [] && s1 == s0 + [a] && s2 == s1 + [b] && s3 == s2 + [c] && s4 == s3 + [d]
    ensures s4 == [a, b, c, d]
  {
  }

  /** Four writes to an empty map, in order. */
  lemma Written<V>(m0: map<string, V>, m1: map<string, V>, m2: map<string, V>, m3: map<string, V>, m4: map<string, V>,
                   a: string, b: string, c: string, d: string, va: V, vb: V, vc: V, vd: V)
    requires m0 == map[] && m1 == m0[a := va] && m2 == m1[b := vb] && m3 == m2[c := vc] && m4 == m3[d := vd]
    ensures m4 == map[a := va, b := vb, c := vc, d := vd]
  {
  }

  /** The whole scenario, in the order the test runs it, on one panel
      whose store was cleared beforehand: each section's preconditions hold
      where it starts, the four keys end up registered in that order with
      the values each section leaves, and at the end nothing is pending. */
  method SettingsPanelTest1() returns (panel: SettingsPanel)
    ensures panel.Valid()
    ensures panel.keys == [Key1, Key2, KeyComplement, KeyList]
    ensures panel.store == map[Key1 := Bool(true), Key2 := Text("second edit"),
                               KeyComplement := Bool(false), KeyList := TextList([])]
    ensures panel.entries == map[Key1 := Entry(Bool(false), Bool(true), Bool(true)),
                                 Key2 := Entry(Text("default"), Text("second edit"), Text("second edit")),
                                 KeyComplement := Entry(Bool(true), Bool(false), Bool(false)),
                                 KeyList := Entry(TextList([]), TextList([]), TextList([]))]
    ensures panel.ChangedSettings() == []
  {
    DistinctKeys();
    panel := new SettingsPanel(map[]);
    DirtyKeysClean([], map[]);
    ghost var r0 := panel.State();
    CheckBoxSteps(panel);
    ghost var r1 := panel.State();
    LineEditSteps(panel);
    ghost var r2 := panel.State();
    ComplementSteps(panel);
    ghost var r3 := panel.State();
    ListSteps(panel);
    ghost var r4 := panel.State();
    Appended(r0.keys, r1.keys, r2.keys, r3.keys, r4.keys, Key1, Key2, KeyComplement, KeyList);
    Written(r0.store, r1.store, r2.store, r3.store, r4.store, Key1, Key2, KeyComplement, KeyList,
            Bool(true), Text("second edit"), Bool(false), TextList([]));
    Written(r0.entries, r1.entries, r2.entries, r3.entries, r4.entries, Key1, Key2, KeyComplement, KeyList,
            Entry(Bool(false), Bool(true), Bool(true)),
            Entry(Text("default"), Text("second edit"), Text("second edit")),
            Entry(Bool(true), Bool(false), Bool(false)),
            Entry(TextList([]), TextList([]), TextList([])));
  }
}
