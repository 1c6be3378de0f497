/**
 * The process-wide model registry: decorated model classes by class name and
 * by table name, with a read-only legacy table consulted last.
 */
module Registry {
  import opened Wrappers
  import opened Declarations

  /** What `get_model` is asked for: a class itself, or a name. */
  datatype ModelKey = ClassRef(cls: ModelClass) | Name(name: string)

  /** The `KeyError` raised when no lookup table knows a name. */
  datatype ModelNotFound = ModelNotFound(key: string)

  class ModelRegistry {
    var byClassName: map<string, ModelClass>
    var byTableName: map<string, ModelClass>
    /** The legacy table-to-class mapping; its contents are given, never changed. */
    const legacy: map<string, ModelClass>

    /** Every entry is filed under the class's own name or table name. */
    ghost predicate Valid()
      reads this
    {
      (forall n :: n in byClassName ==> byClassName[n].name == n) &&
      (forall t :: t in byTableName ==> byTableName[t].tableName == Some(t))
    }

    constructor (legacy: map<string, ModelClass>)
      ensures Valid() && this.legacy == legacy
      ensures byClassName == map[] && byTableName == map[]
    {
      this.legacy := legacy;
      byClassName := map[];
      byTableName := map[];
    }

    /**
     * Files `cls` under its class name, and under its table name when it has
     * one, and returns it; afterwards `get_model` finds it by class name, and
     * by table name unless a class of that name shadows it.
     */
    method RegisterModel(cls: ModelClass) returns (r: ModelClass)
      requires Valid()
      modifies this
      ensures Valid() && r == cls
      ensures byClassName == old(byClassName)[cls.name := cls]
      ensures byTableName == if cls.tableName.Some? then old(byTableName)[cls.tableName.value := cls] else old(byTableName)
      ensures GetModel(Name(cls.name)) == Ok(cls)
      ensures cls.tableName.Some? && cls.tableName.value !in byClassName ==> GetModel(Name(cls.tableName.value)) == Ok(cls)
      ensures cls in IterModels()
    {
      byClassName := byClassName[cls.name := cls];
      if cls.tableName.Some? {
        byTableName := byTableName[cls.tableName.value := cls];
      }
      r := cls;
    }

    /**
     * A class is returned as it is; a name is looked up by class name, then
     * by table name, then in the legacy table, and the first hit wins.
     */
    function GetModel(key: ModelKey): (r: Result<ModelClass, ModelNotFound>)
      reads this
      ensures key.ClassRef? ==> r == Ok(key.cls)
      ensures key.Name? ==> (r.Ok? <==> key.name in byClassName || key.name in byTableName || key.name in legacy)
      ensures key.Name? && key.name in byClassName ==> r == Ok(byClassName[key.name])
      ensures key.Name? && key.name !in byClassName && key.name in byTableName ==> r == Ok(byTableName[key.name])
      ensures key.Name? && key.name !in byClassName && key.name !in byTableName && key.name in legacy ==>
        r == Ok(legacy[key.name])
      ensures r.Err? ==> r.error == ModelNotFound(key.name)
    {
      match key
      case ClassRef(cls) => Ok(cls)
      case Name(name) =>
        if name in byClassName then Ok(byClassName[name])
        else if name in byTableName then Ok(byTableName[name])
        else if name in legacy then Ok(legacy[name])
        else Err(ModelNotFound(name))
    }

    /** Every registered model, each found again by its class name. */
    function IterModels(): (r: set<ModelClass>)
      reads this
      ensures forall m :: m in r <==> exists n :: n in byClassName && byClassName[n] == m
      ensures Valid() ==> forall m :: m in r ==> GetModel(Name(m.name)) == Ok(m)
    {
      set n | n in byClassName :: byClassName[n]
    }
  }

  /**
   * Registering a subclass that inherits its parent's table name after the
   * parent refiles that table name: `get_model` by table name then finds the
   * subclass, not the parent.
   */
  method RegisterParentThenSubclass(reg: ModelRegistry, parent: seq<Declaration>, sub: Declaration)
    returns (p: ModelClass, c: ModelClass)
    requires reg.Valid() && parent != [] && sub.tableName.None?
    requires TableNameOf(parent).Some?
    requires TableNameOf(parent).value !in reg.byClassName
    requires TableNameOf(parent).value != parent[|parent| - 1].className && TableNameOf(parent).value != sub.className
    modifies reg
    ensures reg.Valid()
    ensures p == ConstructNbDbModel(parent) && c == ConstructNbDbModel(parent + [sub])
    ensures c.tableName == p.tableName
    ensures reg.GetModel(Name(p.name)) == Ok(p) || p.name == c.name
    ensures reg.GetModel(Name(p.tableName.value)) == Ok(c)
  {
    SubclassInheritsTableName(parent, sub);
    p := ConstructNbDbModel(parent);
    c := ConstructNbDbModel(parent + [sub]);
    var _ := reg.RegisterModel(p);
    var _ := reg.RegisterModel(c);
  }
}
