# Dragonflow northbound object-model framework, in Dafny

This project models the record/object-model framework of Dragonflow's northbound
database layer (`dragonflow/db/model_framework.py`). It covers the following:

- **Set-field tracking.** A record holds a value per declared field (`None` when absent) and
  the set of fields the caller explicitly assigned. Attribute assignment and deletion keep
  that set up to date (`Records.Record`).
- **`update`, the diff-and-merge.** It walks only the fields set on the other record. It copies
  a differing non-`None` value, or clears the field when the other record holds `None`. It
  returns the names of the fields that changed (`Records.Record.Update`, specified by
  `Records.Changed` and `Records.Merged`).
- **The per-class event registry.** It maps each event name to a set of subscriber callbacks,
  with register, unregister and emit. Emit calls every subscriber once and swallows any `Exception`
  a subscriber raises. Any other `BaseException` stops dispatch and escapes (`Events.EventRegistry`).
- **The decoration step `construct_nb_db_model`.** It normalises index keys. It chains each class's
  `get_indexes` (the parent's dict updated with the class's own) and `get_events` (the parent's
  set joined with the class's own) onto its parent's. It synthesises `register_E`,
  `unregister_E` and `emit_E` for every event, and snapshots the field names. A class hierarchy
  is a list of decorated classes, root first, and `table_name` is inherited like any class
  attribute (`Declarations`).
- **The global model registry.** It holds classes by class name and by table name, and
  `get_model` falls back to the legacy table last (`Registry.ModelRegistry`).

Modules: `Wrappers` (Option, Result), `Records`, `Events`, `Declarations`, `Registry`.

The model follows the code in these places:

- Construction keeps, as set fields, only the keyword arguments that are declared fields.
  It raises no error for an undeclared keyword.
- A subclass that declares an index name its parent already has overrides it, as `dict.update`
  does (`Declarations.NearestDeclarationWins`).
- Emit reads the subscriber set of the event. An event that has never been touched has no
  subscribers. The empty entry that Python's `defaultdict` materialises on such a read is not
  observable, so it is not modelled.
- A subclass registered after its parent with an inherited `table_name` takes over that table
  name in the registry (`Registry.RegisterParentThenSubclass`).

## Model

| member | source | states |
|---|---|---|
| Records.Record.constructor | dragonflow/db/model_framework.py:53-55 | The set fields are exactly the supplied keywords that are declared fields. Supplied fields hold the supplied value and the others hold `None`. The set fields are a subset of the field names. |
| Records.Record.FieldIsSet | dragonflow/db/model_framework.py:161-163 | True exactly when the field is in the set-field set. Only a declared field can be set. |
| Records.Filter | dragonflow/db/model_framework.py:156-159 | Keeps exactly the schema names in the kept set, in schema order. Has no duplicates when the schema has none, and is no longer than the schema. |
| Records.Record.SetFieldsInOrder | dragonflow/db/model_framework.py:156-159 | Yields each set field exactly once, and nothing else, in the order the schema iterates the fields. |
| Records.Assign | dragonflow/db/model_framework.py:144-147 | Assigning a declared field marks it set and stores the value. Assigning any other attribute leaves the fields and the set-field set unchanged. No other field's set status changes, and well-formedness is kept. |
| Records.Record.SetAttr | dragonflow/db/model_framework.py:144-147 | The new record state is `Assign` of the old one, and the record stays valid. |
| Records.Delete | dragonflow/db/model_framework.py:149-154 | Deleting a declared field resets it to `None` and unmarks it. Deleting another attribute removes it, keeps every other attribute's value, and leaves the fields and the set-field set unchanged. Deleting a missing attribute raises `AttributeError`. |
| Records.Record.DelAttr | dragonflow/db/model_framework.py:149-154 | The new state is the successful `Delete` of the old one. On error the state is unchanged. |
| Records.Changed | dragonflow/db/model_framework.py:66-88 | The reported fields are exactly those set on `other` whose value on `self` differs. They are always a subset of `other`'s set fields. |
| Records.Merged | dragonflow/db/model_framework.py:77-86 | A reported field with a non-`None` new value holds that value and is set. A reported field whose new value is `None` holds `None` and is unset. Every other field keeps its value and set status, and non-field attributes are untouched. |
| Records.Record.CopyField | dragonflow/db/model_framework.py:80-86 | Reports whether the field's value differs from the new one. A differing non-`None` value is assigned as by `Assign`, a differing `None` deletes the field as by `Delete`, and an equal value changes nothing. |
| Records.Record.Update | dragonflow/db/model_framework.py:66-88 | The loop over `other`'s set fields returns exactly `Changed`, and leaves the record in state `Merged` of the old states. This holds even when `other` is the record itself. |
| Records.MergedOnStep | dragonflow/db/model_framework.py:77-86 | One loop iteration (`setattr` or `delattr` on one field not yet visited) extends the merge by exactly that field. |
| Records.ChangedIsValueDifference | dragonflow/db/model_framework.py:66-88 | A field is reported if and only if `update` changed its value. |
| Records.UpdateIsIdempotent | dragonflow/db/model_framework.py:66-88 | A second `update` from the same record reports nothing and leaves the state as the first left it. |
| Records.UpdateFromEqualState | dragonflow/db/model_framework.py:77-81 | Updating from a record in the same state reports nothing and changes nothing. |
| Records.OnGetAllPost | dragonflow/db/model_framework.py:137-142 | The default hook returns the batch it is given. |
| Events.WithSubscriber | dragonflow/db/model_framework.py:100-104 | Adding a callback makes it a subscriber of that event. No other event's subscribers change. |
| Events.WithoutSubscriber | dragonflow/db/model_framework.py:106-109 | Removing a callback takes it out of that event's subscribers. No other event's subscribers change. |
| Events.RegisterTwiceIsNoOp | dragonflow/db/model_framework.py:100-104 | Registering an already subscribed callback leaves the registry unchanged. |
| Events.UnregisterUndoesRegister | dragonflow/db/model_framework.py:100-109 | Unregistering a freshly registered callback restores every event's subscribers. |
| Events.EventRegistry.constructor | dragonflow/db/model_framework.py:207 | A newly decorated class has no subscribers for any event. |
| Events.EventRegistry.Register | dragonflow/db/model_framework.py:100-104 | Returns the callback and adds it to the event's subscriber set. When it is already there, nothing changes. |
| Events.EventRegistry.Unregister | dragonflow/db/model_framework.py:106-109 | Succeeds exactly when the callback is subscribed, and removes it. Otherwise it raises and leaves the registry unchanged, so a second unregister of the same callback fails. |
| Events.DispatchStep | dragonflow/db/model_framework.py:91-98 | Calling one more pending subscriber, when nothing has escaped, keeps the dispatch state. The called subscribers are exactly those no longer pending, each called once and matching the emit. Only the last call may have escaped. |
| Events.DispatchDone | dragonflow/db/model_framework.py:91-98 | When dispatch ends, the calls satisfy `Emitted`. A subscriber that escaped is fatal, and if none escaped every subscriber was called. |
| Events.EventRegistry.Emit | dragonflow/db/model_framework.py:90-98 | Calls subscribers of the event, each at most once, passing the emitting instance and the arguments. Each call records how it ended. An `Exception` is caught and dispatch goes on. Another `BaseException` stops dispatch and escapes, and only the last call can be that one. When nothing escapes, every subscriber was called exactly once. Nothing escapes when no subscriber is fatal. |
| Declarations.NormalizeTuple | dragonflow/db/model_framework.py:27-39 | A bare name becomes the one-element key. Any other sequence is kept with the same elements in the same order. |
| Declarations.NormalizeTupleAgrees | dragonflow/db/model_framework.py:27-39 | Declaring `'id'` and `('id',)` gives the same key, and normalising a normalised key changes nothing. |
| Declarations.NormalizeIndexes | dragonflow/db/model_framework.py:204 | Keeps the declared index names and normalises each key. |
| Declarations.GetIndexes | dragonflow/db/model_framework.py:209-214 | An index name is present exactly when some class of the hierarchy declares it. |
| Declarations.NearestDeclarationWins | dragonflow/db/model_framework.py:211-214 | An index name maps to the normalised key of the nearest class that declares it, so a subclass overrides its parent. |
| Declarations.IndexesAreInherited | dragonflow/db/model_framework.py:211-214 | Every index name of an ancestor is still present in a descendant. |
| Declarations.SubclassWithoutIndexesInherits | dragonflow/db/model_framework.py:211-214 | A subclass declaring no indexes reports exactly its parent's indexes. |
| Declarations.GetEvents | dragonflow/db/model_framework.py:216-219 | An event is present exactly when some class of the hierarchy declares it. |
| Declarations.EventsAccumulate | dragonflow/db/model_framework.py:216-219 | A subclass's events are its parent's joined with its own. |
| Declarations.FieldNamesOf | dragonflow/db/model_framework.py:231-232 | The field-name snapshot holds exactly the fields of the class and of its ancestors. |
| Declarations.TableNameOf | dragonflow/db/model_framework.py:260 | A class's `table_name` is unset exactly when no class of its hierarchy sets it. Otherwise it is a value that some class of the hierarchy sets. |
| Declarations.NearestTableNameWins | dragonflow/db/model_framework.py:260 | The table name is the one set by the nearest class that sets it. |
| Declarations.SubclassInheritsTableName | dragonflow/db/model_framework.py:260 | A subclass that does not set a table name has its parent's. |
| Declarations.EntryPointName | dragonflow/db/model_framework.py:166-188 | The entry points of event `E` are named `register_E`, `unregister_E` and `emit_E`: the kind's prefix followed by the event name. |
| Declarations.EntryPointNamesAreDistinct | dragonflow/db/model_framework.py:166-188 | Distinct entry points get distinct names, so no `setattr` of one entry point overwrites another. |
| Declarations.EntryPoints | dragonflow/db/model_framework.py:224-226 | There is a register, an unregister and an emit entry point for an event exactly when the class has that event. |
| Declarations.ConstructNbDbModel | dragonflow/db/model_framework.py:191-239 | The decorated class keeps its name. Its table name is the nearest one set in its hierarchy, which is its own when it sets one. It chains indexes and events onto its parent's without losing any. It has entry points exactly for its events, and its field names are those of the hierarchy. |
| Declarations.EveryModelHasIdIndex | dragonflow/db/model_framework.py:245-247 | Every class derived from the root has the `id` index. It is keyed by `('id',)` unless a descendant redeclares it. |
| Registry.ModelRegistry.constructor | dragonflow/db/model_framework.py:241-242 | Both lookup tables start empty, and the legacy table is the given one. |
| Registry.ModelRegistry.RegisterModel | dragonflow/db/model_framework.py:254-264 | Files the class under its class name, and under its table name when it has one, then returns it. Afterwards `get_model` finds it by class name, and by table name unless a class of that name shadows it. |
| Registry.ModelRegistry.GetModel | dragonflow/db/model_framework.py:267-286 | A class is returned unchanged. A name resolves to the first hit among the class-name table, the table-name table and the legacy table, in that order, and raises `KeyError` when none has it. |
| Registry.RegisterParentThenSubclass | dragonflow/db/model_framework.py:254-264 | After registering a parent and then a subclass that inherits the parent's table name, both share that table name, and `get_model` by it returns the subclass. |
| Registry.ModelRegistry.IterModels | dragonflow/db/model_framework.py:289-292 | Yields exactly the classes registered by class name, each found again by `get_model` under its name. |

## Left out

- `to_json` and `from_json` are not modelled. They delegate entirely to a JSON library and to `jsonmodels`' `to_struct`, which are not part of this model.
- The logging inside emit is not modelled. Only the fact that a subscriber's exception is swallowed is.
- `iter_tables` is not modelled. It reads `table_name` of every model without a guard, so a model without one raises there.
- The no-op hooks `on_create_pre`, `on_update_pre` and `on_delete_pre` are not modelled, since they do nothing.
- The contents of the legacy table-to-class mapping are not part of this model. It is a read-only parameter of the registry.
- Subscriber callbacks are opaque ids. Which raise an `Exception` (`raising`) and which raise another `BaseException` (`fatal`) are inputs to `Emit`. What a callback does is not modelled, so a callback that registers or unregisters during emit is not covered.
- Emit visits subscribers in no particular order, as Python iterates a set.
- The Python metaprogramming in `_add_event_funcs` is not modelled: function renaming and `setattr` on the class. Each synthesised entry point stands for `register(E, ·)`, `unregister(E, ·)` or `emit(E, ·)` on the class's registry.
- Field types, defaults and validation, which `jsonmodels` handles, are not modelled. A field that was not supplied holds `None`.
- A class hierarchy is a single chain of decorated classes. Multiple inheritance and mixin resolution order are not modelled.
- `get_model`'s test `type(arg) == type` is modelled as "the argument is a class".
- Records.Record.Update: requires `other`'s set fields to be declared fields of the receiving record. It does not model cross-type updates where `getattr` or `setattr` would reach a non-field attribute.
