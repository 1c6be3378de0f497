/**
 * Model class declarations: index normalisation, and the decoration step
 * that chains each class's indexes and events onto its parent's, adds the
 * per-event register/unregister/emit entry points and snapshots the field
 * names. A class hierarchy is the list of its decorated classes, root first.
 */
module Declarations {
  import opened Wrappers

  /** An index key as declared: a bare field name, or a sequence of field names. */
  datatype IndexSpec = Single(name: string) | Tuple(names: seq<string>)

  /** Turns a bare name into a one-element key and keeps any other sequence as it is. */
  function NormalizeTuple(v: IndexSpec): (r: seq<string>)
    ensures v.Single? ==> r == [v.name]
    ensures v.Tuple? ==> r == v.names
  {
    match v
    case Single(name) => [name]
    case Tuple(names) => names
  }

  /** A bare name and the one-element sequence of it declare the same key, and normalising is idempotent. */
  lemma NormalizeTupleAgrees(name: string, v: IndexSpec)
    ensures NormalizeTuple(Single(name)) == NormalizeTuple(Tuple([name]))
    ensures NormalizeTuple(Tuple(NormalizeTuple(v))) == NormalizeTuple(v)
  {
  }

  /**
   * What one decorated class declares for itself (its undecorated bases'
   * fields included); `tableName` is `None` when the class body does not set
   * `table_name`, in which case the class inherits its parent's.
   */
  datatype Declaration = Declaration(
    className: string,
    tableName: Option<string>,
    fields: set<string>,
    indexes: map<string, IndexSpec>,
    events: set<string>)

  /** The class's own index declarations, each key normalised. */
  function NormalizeIndexes(indexes: map<string, IndexSpec>): (r: map<string, seq<string>>)
    ensures r.Keys == indexes.Keys
    ensures forall k :: k in indexes ==> r[k] == NormalizeTuple(indexes[k])
  {
    map k | k in indexes :: NormalizeTuple(indexes[k])
  }

  /**
   * `get_indexes` of the last class of `chain`: the parent's indexes updated
   * with the class's own.
   */
  function GetIndexes(chain: seq<Declaration>): (r: map<string, seq<string>>)
    ensures forall k :: k in r <==> exists i :: 0 <= i < |chain| && k in chain[i].indexes
    decreases |chain|
  {
    if chain == [] then map[]
    else
      var parent := chain[..|chain| - 1];
      assert forall i :: 0 <= i < |parent| ==> parent[i] == chain[i];
      GetIndexes(parent) + NormalizeIndexes(chain[|chain| - 1].indexes)
  }

  /**
   * An index name maps to the key given by the nearest class declaring it:
   * a subclass's own declaration overrides an inherited one.
   */
  lemma {:induction false} NearestDeclarationWins(chain: seq<Declaration>, i: nat, k: string)
    requires i < |chain| && k in chain[i].indexes
    requires forall j :: i < j < |chain| ==> k !in chain[j].indexes
    ensures k in GetIndexes(chain) && GetIndexes(chain)[k] == NormalizeTuple(chain[i].indexes[k])
    decreases |chain|
  {
    var parent := chain[..|chain| - 1];
    if i < |chain| - 1 {
      assert parent[i] == chain[i];
      NearestDeclarationWins(parent, i, k);
      assert k !in chain[|chain| - 1].indexes;
    }
  }

  /** `get_events` of the last class of `chain`: the parent's events together with its own. */
  function GetEvents(chain: seq<Declaration>): (r: set<string>)
    ensures forall e :: e in r <==> exists i :: 0 <= i < |chain| && e in chain[i].events
    decreases |chain|
  {
    if chain == [] then {}
    else
      var parent := chain[..|chain| - 1];
      assert forall i :: 0 <= i < |parent| ==> parent[i] == chain[i];
      GetEvents(parent) + chain[|chain| - 1].events
  }

  /** The field names of the last class of `chain`: every field of the class and of its ancestors. */
  function FieldNamesOf(chain: seq<Declaration>): (r: set<string>)
    ensures forall f :: f in r <==> exists i :: 0 <= i < |chain| && f in chain[i].fields
    decreases |chain|
  {
    if chain == [] then {}
    else
      var parent := chain[..|chain| - 1];
      assert forall i :: 0 <= i < |parent| ==> parent[i] == chain[i];
      FieldNamesOf(parent) + chain[|chain| - 1].fields
  }

  /**
   * `table_name` of the last class of `chain`: an ordinary class attribute,
   * so the nearest class that sets it supplies it.
   */
  function TableNameOf(chain: seq<Declaration>): (r: Option<string>)
    ensures r.None? <==> forall i :: 0 <= i < |chain| ==> chain[i].tableName.None?
    ensures r.Some? ==> exists i :: 0 <= i < |chain| && chain[i].tableName == r
    decreases |chain|
  {
    if chain == [] then None
    else if chain[|chain| - 1].tableName.Some? then chain[|chain| - 1].tableName
    else
      var parent := chain[..|chain| - 1];
      assert forall i :: 0 <= i < |parent| ==> parent[i] == chain[i];
      TableNameOf(parent)
  }

  /** A class that does not set `table_name` has that of its nearest ancestor setting it. */
  lemma {:induction false} NearestTableNameWins(chain: seq<Declaration>, i: nat)
    requires i < |chain| && chain[i].tableName.Some?
    requires forall j :: i < j < |chain| ==> chain[j].tableName.None?
    ensures TableNameOf(chain) == chain[i].tableName
    decreases |chain|
  {
    var parent := chain[..|chain| - 1];
    if i < |chain| - 1 {
      assert parent[i] == chain[i];
      NearestTableNameWins(parent, i);
    }
  }

  /** A subclass that does not set `table_name` has its parent's. */
  lemma SubclassInheritsTableName(chain: seq<Declaration>, d: Declaration)
    requires d.tableName.None?
    ensures TableNameOf(chain + [d]) == TableNameOf(chain)
  {
    assert (chain + [d])[..|chain|] == chain;
  }

  /** Index names never disappear down the hierarchy. */
  lemma IndexesAreInherited(chain: seq<Declaration>, n: nat)
    requires n <= |chain|
    ensures GetIndexes(chain[..n]).Keys <= GetIndexes(chain).Keys
  {
  }

  /** A subclass declaring no indexes reports exactly its parent's indexes. */
  lemma SubclassWithoutIndexesInherits(chain: seq<Declaration>, d: Declaration)
    requires d.indexes == map[]
    ensures GetIndexes(chain + [d]) == GetIndexes(chain)
  {
  }

  /** Events never disappear down the hierarchy, and a subclass adds its own. */
  lemma EventsAccumulate(chain: seq<Declaration>, d: Declaration)
    ensures GetEvents(chain + [d]) == GetEvents(chain) + d.events
  {
  }

  /** A convenience entry point synthesised for one event. */
  datatype EntryPoint = RegisterEvent(event: string) | UnregisterEvent(event: string) | EmitEvent(event: string)

  /** The attribute name under which an entry point is attached to the class. */
  function EntryPointName(p: EntryPoint): (r: string)
    ensures |r| > |p.event|
    ensures r[|r| - |p.event|..] == p.event
    ensures p.RegisterEvent? ==> "register_" <= r
    ensures p.UnregisterEvent? ==> "unregister_" <= r
    ensures p.EmitEvent? ==> "emit_" <= r
  {
    match p
    case RegisterEvent(e) => "register_" + e
    case UnregisterEvent(e) => "unregister_" + e
    case EmitEvent(e) => "emit_" + e
  }

  /** Distinct entry points are attached under distinct names, so none overwrites another. */
  lemma EntryPointNamesAreDistinct(p: EntryPoint, q: EntryPoint)
    requires EntryPointName(p) == EntryPointName(q)
    ensures p == q
  {
    var n := EntryPointName(p);
    assert n[|n| - |p.event|..] == p.event && n[|n| - |q.event|..] == q.event;
    match p
    case RegisterEvent(_) => assert n[0] == 'r' && n[2] == 'g';
    case UnregisterEvent(_) => assert n[0] == 'u';
    case EmitEvent(_) => assert n[0] == 'e';
  }

  /** The three entry points of every event in `events`. */
  function EntryPoints(events: set<string>): (r: set<EntryPoint>)
    ensures forall p :: p in r <==> p.event in events
  {
    (set e | e in events :: RegisterEvent(e)) +
    (set e | e in events :: UnregisterEvent(e)) +
    (set e | e in events :: EmitEvent(e))
  }

  /** A decorated model class, as the rest of the system sees it. */
  datatype ModelClass = ModelClass(
    name: string,
    tableName: Option<string>,
    fieldNames: set<string>,
    indexes: map<string, seq<string>>,
    events: set<string>,
    entryPoints: set<EntryPoint>)

  /** Decorates the last class of `chain`, whose decorated ancestors precede it. */
  function ConstructNbDbModel(chain: seq<Declaration>): (m: ModelClass)
    requires chain != []
    ensures m.name == chain[|chain| - 1].className && m.tableName == TableNameOf(chain)
    ensures chain[|chain| - 1].tableName.Some? ==> m.tableName == chain[|chain| - 1].tableName
    ensures m.indexes == GetIndexes(chain) && m.events == GetEvents(chain)
    ensures chain[|chain| - 1].indexes.Keys <= m.indexes.Keys
    ensures GetIndexes(chain[..|chain| - 1]).Keys <= m.indexes.Keys
    ensures GetEvents(chain[..|chain| - 1]) <= m.events
    ensures forall p :: p in m.entryPoints <==> p.event in m.events
    ensures m.fieldNames == FieldNamesOf(chain)
  {
    var last := chain[|chain| - 1];
    var events := GetEvents(chain);
    IndexesAreInherited(chain, |chain| - 1);
    ModelClass(last.className, TableNameOf(chain), FieldNamesOf(chain), GetIndexes(chain), events, EntryPoints(events))
  }

  /** The common root of the hierarchy: one field `id`, indexed by itself. */
  const ModelBase: Declaration :=
    Declaration("ModelBase", None, {"id"}, map["id" := Tuple(["id"])], {})

  /** Every class derived from the root has the `id` index, keyed by `id` unless a descendant redeclares it. */
  lemma {:induction false} EveryModelHasIdIndex(chain: seq<Declaration>)
    requires chain != [] && chain[0] == ModelBase
    ensures "id" in GetIndexes(chain)
    ensures (forall j :: 0 < j < |chain| ==> "id" !in chain[j].indexes) ==> GetIndexes(chain)["id"] == ["id"]
  {
    assert "id" in chain[0].indexes;
    if forall j :: 0 < j < |chain| ==> "id" !in chain[j].indexes {
      NearestDeclarationWins(chain, 0, "id");
    }
  }
}
