# CTK settings panel registry, in Dafny

This project models the registry at the heart of CTK's `ctkSettingsPanel`.
The panel binds string keys to live properties of Qt objects (a check box's
`checked`, a line edit's `text`, a string-list property, or the `complement`
that a `ctkBooleanMapper` derives from a check box). For every key it keeps
three generations of the value:

- the **default**: the property's value when the key was registered;
- the **previous** value: the last committed one;
- the **current** value: the live one.

A `QSettings` store mirrors every live edit as it happens.
`changedSettings()` lists the keys whose current value differs from the
previous one. `applySettings()` commits: every previous value becomes the
current value.

The panel's implementation file (`ctkSettingsPanel.cpp`) is not part of this
model. Its behaviour is taken from the assertions of
`Libs/Widgets/Testing/Cpp/ctkSettingsPanelTest1.cpp`. After every
registration, live edit and commit, the test checks the store, the previous
and current values and the change set. It checks the default after most of
these steps, but not after the registration and the edit of "key 1" and of
"key complement". For those two keys the default is first read after a
commit (lines 105 and 204). The model's rule that the default is the live
value at registration is inferred for them, not observed.

Files:

- `values.dfy` (module `SettingsValues`): the value shapes: `Bool`, `Text`,
  `TextList`, compared by value as `QVariant` is. It also holds `Option`,
  which stands for an invalid `QVariant`.
- `registry.dfy` (module `SettingsRegistry`): the registry as a value.
  - `Register`, `Edit` and `Apply` are the three transitions.
  - `Changed` is the change set.
  - `Consistent` is the invariant: the key order lists each registered key
    once, and the store holds every current value.
  - The lemmas state what the test checks after each step, and what holds
    across any sequence of steps (`Run`).
- `settings_panel.dfy` (module `SettingsPanels`): the class `SettingsPanel`.
  - Its fields `store`, `entries` and `keys` are updated in place by
    `RegisterProperty`, `NotifyChanged` and `ApplySettings`.
  - `ApplySettings` is a loop over the keys in registration order.
  - Each method is proved to do to `State()` what the matching function of
    `SettingsRegistry` does.
- `boolean_mapper.dfy` (module `BooleanMappers`): a `CheckBox` and the
  `BooleanMapper` that exposes the complement of its `checked` state.
- `scenario.dfy` (module `PanelScenario`): the test's four sections, run on
  one `SettingsPanel`, with its checks stated as contracts and assertions.

A bound object's change signal becomes an explicit call. For example,
`box->setChecked(true)` followed by the `toggled` signal becomes
`box.SetChecked(true)` and then `panel.NotifyChanged(key, Bool(box.checked))`.

Design choices the test does not settle:

- `changedSettings()` lists keys in registration order. The test never has
  more than one changed key, so it cannot tell this order from another one;
  its four keys are also registered in sorted order. `DirtyKeys` states the
  order as a contract (`Subsequence`), and `DirtyKeysUnique` proves that the
  contract admits exactly one list.
- Registering a key that the store already holds adopts the stored value as
  previous and current value. `RegisterProperty` hands the value back
  to the caller, which stands for setting the bound property to it. The
  object's own value stays the default. The test clears the store first (line 67), so it never reaches
  this case.
- Registering an already registered key replaces its entry and keeps its
  place in the key order.
- A change notification for a key that was never registered leaves the
  panel unchanged, and `NotifyChanged` reports it by returning `false`.

## Model

| member | source | states |
|---|---|---|
| SettingsRegistry.DirtyKeys | Libs/Widgets/Testing/Cpp/ctkSettingsPanelTest1.cpp:86-97 | a key is listed exactly when it is registered and its current value differs from its previous value; the listed keys keep their registration order; no key is listed twice |
| SettingsRegistry.DirtyKeysUnique | Libs/Widgets/Testing/Cpp/ctkSettingsPanelTest1.cpp:86-97 | any list of the dirty registered keys, in registration order, is the change set: the contract fixes the list, including its order |
| SettingsRegistry.RegisterFresh | Libs/Widgets/Testing/Cpp/ctkSettingsPanelTest1.cpp:77-86 | registering a key the store lacks writes the live value to the store; default, previous and current all equal that value; the key is appended to the order; no other entry changes; the change set is unchanged and does not contain the key |
| SettingsRegistry.RegisterStored | Libs/Widgets/Testing/Cpp/ctkSettingsPanelTest1.cpp:77-78 | registering a key the store already holds leaves the store as it is; the stored value becomes previous and current value and is handed back to the property; the live value becomes the default; the key is not changed |
| SettingsRegistry.RegisterConsistent | Libs/Widgets/Testing/Cpp/ctkSettingsPanelTest1.cpp:77-86 | registration keeps the invariant: each registered key is listed once, and the store holds every current value |
| SettingsRegistry.EditWritesThrough | Libs/Widgets/Testing/Cpp/ctkSettingsPanelTest1.cpp:89-97 | a live edit is written to the store at once, which is otherwise unchanged, and becomes the current value; previous and default stay; every other entry stays; the key is changed exactly when the new value differs from the previous one |
| SettingsRegistry.EditConsistent | Libs/Widgets/Testing/Cpp/ctkSettingsPanelTest1.cpp:89-94 | a live edit keeps the invariant, so the store still mirrors every current value |
| SettingsRegistry.EditOnCleanRegistry | Libs/Widgets/Testing/Cpp/ctkSettingsPanelTest1.cpp:125-135 | editing one key while nothing is pending, to a value other than its previous one, makes the change set exactly that key; keys committed earlier are not in it |
| SettingsRegistry.ApplyCommits | Libs/Widgets/Testing/Cpp/ctkSettingsPanelTest1.cpp:99-107 | after a commit every previous value equals the current value; defaults, current values, the key order and the store are unchanged; the change set is empty |
| SettingsRegistry.ApplyConsistent | Libs/Widgets/Testing/Cpp/ctkSettingsPanelTest1.cpp:100-103 | a commit keeps the invariant |
| SettingsRegistry.ApplyPointwise | Libs/Widgets/Testing/Cpp/ctkSettingsPanelTest1.cpp:100-104 | committing every entry one at a time, with the store left as it was, yields the committed registry |
| SettingsRegistry.ApplyIdempotent | Libs/Widgets/Testing/Cpp/ctkSettingsPanelTest1.cpp:99-107 | a second commit with no edit in between changes nothing |
| SettingsRegistry.EditThenApplyOnClean | Libs/Widgets/Testing/Cpp/ctkSettingsPanelTest1.cpp:125-145 | while nothing is pending, an edit followed by a commit changes only that key: its previous value, current value and stored value all become the edited value |
| SettingsRegistry.EditApplyCycle | Libs/Widgets/Testing/Cpp/ctkSettingsPanelTest1.cpp:147-167 | after an edit and a commit, the previous value is the committed value, the default is unchanged and nothing is pending; a further edit makes the key the only changed one exactly when it differs from the committed value |
| SettingsRegistry.RunConsistent | Libs/Widgets/Testing/Cpp/ctkSettingsPanelTest1.cpp:77-107 | any sequence of registrations, edits and commits keeps the invariant |
| SettingsRegistry.DefaultFixed | Libs/Widgets/Testing/Cpp/ctkSettingsPanelTest1.cpp:121-165 | a key's default never changes through any sequence of edits, commits and registrations of other keys |
| SettingsRegistry.RunThenApplyClean | Libs/Widgets/Testing/Cpp/ctkSettingsPanelTest1.cpp:237-244 | whatever came before, a commit leaves the change set empty |
| SettingsRegistry.DirtyKeysAppendClean | Libs/Widgets/Testing/Cpp/ctkSettingsPanelTest1.cpp:113-123 | adding a key whose current value equals its previous value leaves the change set as it was |
| SettingsRegistry.DirtyKeysSingle | Libs/Widgets/Testing/Cpp/ctkSettingsPanelTest1.cpp:196 | when only one key differs from its previous value, the change set is exactly that key |
| SettingsRegistry.DirtyKeysClean | Libs/Widgets/Testing/Cpp/ctkSettingsPanelTest1.cpp:107 | when no key differs from its previous value, the change set is empty |
| SettingsPanels.SettingsPanel.constructor | Libs/Widgets/Testing/Cpp/ctkSettingsPanelTest1.cpp:66-70 | a panel given a store has no registered key, and the store is kept as given |
| SettingsPanels.SettingsPanel.RegisterProperty | Libs/Widgets/Testing/Cpp/ctkSettingsPanelTest1.cpp:77-78 | the new fields are `Register` of the old ones; the invariant is kept; the result is the value the property holds afterwards |
| SettingsPanels.SettingsPanel.NotifyChanged | Libs/Widgets/Testing/Cpp/ctkSettingsPanelTest1.cpp:89 | the new fields are `Edit` of the old ones; the invariant is kept; the result says whether the key is registered |
| SettingsPanels.SettingsPanel.ApplySettings | Libs/Widgets/Testing/Cpp/ctkSettingsPanelTest1.cpp:100 | the loop over the keys leaves the fields equal to `Apply` of the old ones and keeps the invariant |
| SettingsPanels.SettingsPanel.ChangedSettings | Libs/Widgets/Testing/Cpp/ctkSettingsPanelTest1.cpp:86 | lists exactly the registered keys whose current value differs from their previous value, each once, in registration order |
| SettingsPanels.SettingsPanel.DefaultPropertyValue | Libs/Widgets/Testing/Cpp/ctkSettingsPanelTest1.cpp:45-48 | invalid exactly for a key never registered, else the key's default |
| SettingsPanels.SettingsPanel.PreviousPropertyValue | Libs/Widgets/Testing/Cpp/ctkSettingsPanelTest1.cpp:49-52 | invalid exactly for a key never registered, else the key's previous value |
| SettingsPanels.SettingsPanel.PropertyValue | Libs/Widgets/Testing/Cpp/ctkSettingsPanelTest1.cpp:53-56 | invalid exactly for a key never registered, else the key's current value |
| SettingsPanels.SettingsPanel.StoredValue | Libs/Widgets/Testing/Cpp/ctkSettingsPanelTest1.cpp:81-82 | invalid exactly when the store lacks the key; for a registered key it is the key's current value |
| BooleanMappers.CheckBox.constructor | Libs/Widgets/Testing/Cpp/ctkSettingsPanelTest1.cpp:75 | a new check box is unchecked |
| BooleanMappers.CheckBox.SetChecked | Libs/Widgets/Testing/Cpp/ctkSettingsPanelTest1.cpp:89 | the check box is then in the given state |
| BooleanMappers.BooleanMapper.constructor | Libs/Widgets/Testing/Cpp/ctkSettingsPanelTest1.cpp:175 | the mapper wraps the given check box |
| BooleanMappers.BooleanMapper.ComplementValue | Libs/Widgets/Testing/Cpp/ctkSettingsPanelTest1.cpp:180-184 | the complement is always the opposite of the box's checked state, so an unchecked box gives `true` |
| BooleanMappers.BooleanMapper.SetComplement | Libs/Widgets/Testing/Cpp/ctkSettingsPanelTest1.cpp:174-177 | writing the complement puts the negated value into the check box, and reading it back gives the value written |
| BooleanMappers.ComplementRoundTrip | Libs/Widgets/Testing/Cpp/ctkSettingsPanelTest1.cpp:172-206 | complementing and mapping back are inverses, in both orders |
| PanelScenario.RegisterClean | Libs/Widgets/Testing/Cpp/ctkSettingsPanelTest1.cpp:113-123 | on a panel with nothing pending, registering a key the store lacks stores the live value; default, previous and current are all that value; nothing is pending |
| PanelScenario.EditAndApply | Libs/Widgets/Testing/Cpp/ctkSettingsPanelTest1.cpp:125-145 | after the edit and the commit, previous and current both hold the edit, the store holds it, the default stays, nothing is pending and other keys are untouched; between the two, the body asserts what the test checks there: the store and the current value hold the edit, previous and default are unchanged, and the key is the only changed one |
| PanelScenario.CheckBoxSteps | Libs/Widgets/Testing/Cpp/ctkSettingsPanelTest1.cpp:72-107 | "key 1" ends with default `false`, previous and current `true`, `true` in the store, and nothing pending |
| PanelScenario.LineEditSteps | Libs/Widgets/Testing/Cpp/ctkSettingsPanelTest1.cpp:109-167 | "key 2" ends with default "default", previous and current "second edit", "second edit" in the store, and nothing pending |
| PanelScenario.ComplementSteps | Libs/Widgets/Testing/Cpp/ctkSettingsPanelTest1.cpp:169-206 | "key complement" registers as `true`; after the box is checked and the edit committed, it ends with default `true`, previous and current `false`, `false` in the store, and nothing pending |
| PanelScenario.ListSteps | Libs/Widgets/Testing/Cpp/ctkSettingsPanelTest1.cpp:208-288 | "key list" goes from empty to one item, then two items, then empty again, with a commit after each; it ends with all three generations and the store holding the empty list, and nothing pending |
| PanelScenario.SettingsPanelTest1 | Libs/Widgets/Testing/Cpp/ctkSettingsPanelTest1.cpp:62-288 | the four sections run in order on one panel over a cleared store, and each one's preconditions hold where it starts; at the end the keys are registered in the order "key 1", "key 2", "key complement", "key list"; the store and the three generations of each key hold what its section left; nothing is pending |

## Left out

- `resetSettings()` and the per-property options and labels are left out, because the test never uses them.
- A store that fails to persist a value is left out. The store is an ordinary map, and every write succeeds.
- Qt's signal/slot dispatch and property lookup by name are left out. A change notification is an explicit `NotifyChanged` call that carries the new value.
- The `QSettings` INI format, its user scope and its file location are left out. The store is a `map<string, Value>` given to the panel's constructor. The test's `settings.clear()` corresponds to starting from the empty map.
- `QVariant` conversions between value kinds (`toBool`, `toString`, `toStringList` on a different kind) are left out. The model does not check that an edit has the shape the key was registered with: `Edit` stores whatever value it is given, as a `QVariant` would. The scenario only passes values of the registered shape.
- `QLineEdit` and the test's string-list helper object are not modelled as objects. Their new values are passed straight to `NotifyChanged`.
- Of `ctkBooleanMapper`, only the complement property is modelled. `ctkBooleanMapper.h` and its implementation are not among the sources this model is built from.
- The application object, showing the panel and the auto-quit timer (lines 64 and 290-297) are UI plumbing and are left out.
- `Libs/Widgets/ctkConsole_p.h` only declares a console widget and holds no behaviour, so it is left out.
