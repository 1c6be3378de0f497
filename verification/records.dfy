/**
 * Records of the northbound database object model: a value per declared
 * field, the set of fields that were explicitly assigned, and the diff-and-merge
 * `update` that copies only explicitly set fields from another record.
 */
module Records {
  import opened Wrappers

  /** True when no name occurs twice in `names`. */
  predicate NoDuplicates(names: seq<string>) {
    forall i, j :: 0 <= i < j < |names| ==> names[i] != names[j]
  }

  /** Raised when an attribute that is not there is deleted. */
  datatype AttributeError = AttributeError(name: string)

  /**
   * The observable state of one record: the value of every declared field
   * (`None` when absent), the fields explicitly assigned, and the attributes
   * that are not declared fields.
   */
  datatype RecordState<V> = RecordState(
    values: map<string, Option<V>>,
    setFields: set<string>,
    attrs: map<string, Option<V>>)

  /** A state of a record whose declared field names are `names`. */
  ghost predicate WellFormed<V>(names: set<string>, s: RecordState<V>) {
    s.values.Keys == names && s.setFields <= names && s.attrs.Keys !! names
  }

  /** The state after assigning `v` to attribute `key`. */
  function Assign<V>(names: set<string>, s: RecordState<V>, key: string, v: Option<V>): (r: RecordState<V>)
    ensures key in names ==> key in r.setFields && r.values == s.values[key := v] && r.attrs == s.attrs
    ensures forall f :: f != key ==> (f in r.setFields <==> f in s.setFields)
    ensures key !in names ==> r.setFields == s.setFields && r.values == s.values && r.attrs == s.attrs[key := v]
    ensures WellFormed(names, s) ==> WellFormed(names, r)
  {
    if key in names then
      s.(values := s.values[key := v], setFields := s.setFields + {key})
    else
      s.(attrs := s.attrs[key := v])
  }

  /**
   * The state after deleting attribute `key`: a declared field is reset to
   * `None` and no longer counts as set; any other attribute is removed, and
   * deleting one that does not exist raises.
   */
  function Delete<V>(names: set<string>, s: RecordState<V>, key: string): (r: Result<RecordState<V>, AttributeError>)
    ensures key in names ==> r.Ok? && r.value.values == s.values[key := None] && r.value.attrs == s.attrs
    ensures key in names ==> r.value.setFields == s.setFields - {key}
    ensures key !in names ==> (r.Ok? <==> key in s.attrs)
    ensures key !in names && r.Ok? ==> r.value.setFields == s.setFields && r.value.values == s.values
    ensures key !in names && r.Ok? ==> r.value.attrs == s.attrs - {key}
    ensures r.Err? ==> r.error == AttributeError(key)
    ensures WellFormed(names, s) && r.Ok? ==> WellFormed(names, r.value)
  {
    if key in names then
      Ok(s.(values := s.values[key := None], setFields := s.setFields - {key}))
    else if key in s.attrs then
      Ok(s.(attrs := s.attrs - {key}))
    else
      Err(AttributeError(key))
  }

  /** The fields among `keys` whose value on `s` differs from their value on `o`. */
  function ChangedOn<V(==)>(s: RecordState<V>, o: RecordState<V>, keys: set<string>): set<string> {
    set k | k in keys && k in s.values && k in o.values && s.values[k] != o.values[k]
  }

  /**
   * `s` after copying from `o` every field of `keys` whose value differs:
   * a non-`None` value is assigned (and the field becomes set), a `None`
   * clears the field (and it becomes unset).
   */
  function MergedOn<V(==)>(s: RecordState<V>, o: RecordState<V>, keys: set<string>): RecordState<V> {
    var changed := ChangedOn(s, o, keys);
    RecordState(
      map k | k in s.values :: if k in changed then o.values[k] else s.values[k],
      (s.setFields - (set k | k in changed && o.values[k].None?)) + (set k | k in changed && o.values[k].Some?),
      s.attrs)
  }

  /** The fields `update` reports: those set on `o` whose value differs on `s`. */
  function Changed<V(==)>(s: RecordState<V>, o: RecordState<V>): (r: set<string>)
    ensures r <= o.setFields
    ensures forall k :: k in r <==> k in o.setFields && k in s.values && k in o.values && s.values[k] != o.values[k]
  {
    ChangedOn(s, o, o.setFields)
  }

  /** The state of `s` after `s.update(o)`. */
  function Merged<V(==)>(s: RecordState<V>, o: RecordState<V>): (r: RecordState<V>)
    ensures r.values.Keys == s.values.Keys && r.attrs == s.attrs
    ensures forall k :: k in s.values && k !in Changed(s, o) ==>
      r.values[k] == s.values[k] && (k in r.setFields <==> k in s.setFields)
    ensures forall k :: k in Changed(s, o) && o.values[k].Some? ==>
      r.values[k] == o.values[k] && k in r.setFields
    ensures forall k :: k in Changed(s, o) && o.values[k].None? ==>
      r.values[k].None? && k !in r.setFields
    ensures forall names :: WellFormed(names, s) ==> WellFormed(names, r)
  {
    MergedOn(s, o, o.setFields)
  }

  /** One iteration of the update loop extends the merge by one more field. */
  lemma {:induction false} MergedOnStep<V>(names: set<string>, s: RecordState<V>, o: RecordState<V>, keys: set<string>, k: string)
    requires WellFormed(names, s) && k in names && k in o.values && k !in keys
    ensures MergedOn(s, o, keys).values[k] == s.values[k]
    ensures ChangedOn(s, o, keys + {k}) == if s.values[k] != o.values[k] then ChangedOn(s, o, keys) + {k} else ChangedOn(s, o, keys)
    ensures s.values[k] == o.values[k] ==> MergedOn(s, o, keys + {k}) == MergedOn(s, o, keys)
    ensures s.values[k] != o.values[k] && o.values[k].Some? ==>
      MergedOn(s, o, keys + {k}) == Assign(names, MergedOn(s, o, keys), k, o.values[k])
    ensures s.values[k] != o.values[k] && o.values[k].None? ==>
      Ok(MergedOn(s, o, keys + {k})) == Delete(names, MergedOn(s, o, keys), k)
  {
    var before, after := MergedOn(s, o, keys), MergedOn(s, o, keys + {k});
    if s.values[k] == o.values[k] {
      assert ChangedOn(s, o, keys + {k}) == ChangedOn(s, o, keys);
    } else {
      assert ChangedOn(s, o, keys + {k}) == ChangedOn(s, o, keys) + {k};
      if o.values[k].Some? {
        assert after.values == before.values[k := o.values[k]];
        assert after.setFields == before.setFields + {k};
      } else {
        assert after.values == before.values[k := None];
        assert after.setFields == before.setFields - {k};
      }
    }
  }

  /**
   * Every reported field really changed value on the receiving record, and
   * every field whose value changed is reported.
   */
  lemma ChangedIsValueDifference<V>(s: RecordState<V>, o: RecordState<V>, k: string)
    requires k in s.values && (k in o.setFields ==> k in o.values)
    ensures k in Changed(s, o) <==> Merged(s, o).values[k] != s.values[k]
  {
  }

  /** A second `update` from the same record reports nothing and changes nothing. */
  lemma UpdateIsIdempotent<V>(s: RecordState<V>, o: RecordState<V>)
    requires o.setFields <= s.values.Keys && o.setFields <= o.values.Keys
    ensures Changed(Merged(s, o), o) == {}
    ensures Merged(Merged(s, o), o) == Merged(s, o)
  {
  }

  /** Updating a record from a record in the same state reports and changes nothing. */
  lemma UpdateFromEqualState<V>(s: RecordState<V>)
    ensures Changed(s, s) == {}
    ensures Merged(s, s) == s
  {
  }

  /** `r` is `s` with some elements left out: its elements occur in `s` in the same order. */
  predicate IsSubsequence(r: seq<string>, s: seq<string>)
    decreases |s|
  {
    r == [] || (s != [] && if r[0] == s[0] then IsSubsequence(r[1..], s[1..]) else IsSubsequence(r, s[1..]))
  }

  /** The declared fields of `schema` that are in `keep`, in schema order. */
  function Filter(schema: seq<string>, keep: set<string>): (r: seq<string>)
    ensures forall f :: f in r <==> f in schema && f in keep
    ensures IsSubsequence(r, schema)
    ensures NoDuplicates(schema) ==> NoDuplicates(r)
    ensures |r| <= |schema|
  {
    if schema == [] then []
    else if schema[0] in keep then [schema[0]] + Filter(schema[1..], keep)
    else Filter(schema[1..], keep)
  }

  /** Extending a prefix of `names` by one adds exactly the next name. */
  lemma PrefixGrows(names: seq<string>, i: nat)
    requires i < |names|
    ensures forall k :: k in names[..i + 1] <==> k in names[..i] || k == names[i]
  {
    assert names[..i + 1] == names[..i] + [names[i]];
  }

  /** The hook run on a batch of freshly read records; by default it keeps the batch. */
  function OnGetAllPost<T>(instances: seq<T>): (r: seq<T>)
    ensures r == instances
  {
    instances
  }

  /** A record instance whose declared fields are `schema`. */
  class Record<V(==)> {
    /** The declared field names, in the order the schema iterates them. */
    const schema: seq<string>
    var values: map<string, Option<V>>
    var setFields: set<string>
    var attrs: map<string, Option<V>>

    /** The declared field names as a set. */
    function FieldNames(): set<string> {
      set f | f in schema
    }

    function State(): RecordState<V>
      reads this
    {
      RecordState(values, setFields, attrs)
    }

    ghost predicate Valid()
      reads this
    {
      NoDuplicates(schema) && WellFormed(FieldNames(), State())
    }

    /**
     * Construction from keyword arguments: the supplied declared fields take
     * the supplied values and are the set fields; other declared fields are
     * `None`; keywords that are not declared fields are ignored.
     */
    constructor (schema: seq<string>, kwargs: map<string, Option<V>>)
      requires NoDuplicates(schema)
      ensures this.schema == schema && Valid()
      ensures setFields == kwargs.Keys * FieldNames()
      ensures forall f :: f in FieldNames() ==> values[f] == if f in kwargs then kwargs[f] else None
      ensures attrs == map[]
    {
      this.schema := schema;
      var names := set f | f in schema;
      values := map f | f in names :: if f in kwargs then kwargs[f] else None;
      setFields := kwargs.Keys * names;
      attrs := map[];
    }

    /** Whether field `name` was explicitly set on this record. */
    function FieldIsSet(name: string): (r: bool)
      reads this
      requires Valid()
      ensures r ==> name in FieldNames()
      ensures r <==> name in State().setFields
    {
      name in setFields
    }

    /** The names of the set fields, each once, in schema order. */
    function SetFieldsInOrder(): (r: seq<string>)
      reads this
      requires Valid()
      ensures NoDuplicates(r)
      ensures forall f :: f in r <==> f in setFields
      ensures IsSubsequence(r, schema)
    {
      Filter(schema, setFields)
    }

    /** Attribute assignment; assigning a declared field marks it set. */
    method SetAttr(key: string, v: Option<V>)
      requires Valid()
      modifies this
      ensures Valid()
      ensures State() == Assign(FieldNames(), old(State()), key, v)
    {
      if key in FieldNames() {
        values := values[key := v];
        setFields := setFields + {key};
      } else {
        attrs := attrs[key := v];
      }
    }

    /**
     * Attribute deletion; deleting a declared field assigns it `None` and then
     * unmarks it, deleting a missing non-field attribute raises.
     */
    method DelAttr(key: string) returns (r: Result<(), AttributeError>)
      requires Valid()
      modifies this
      ensures Valid()
      ensures r.Ok? <==> Delete(FieldNames(), old(State()), key).Ok?
      ensures r.Ok? ==> Ok(State()) == Delete(FieldNames(), old(State()), key)
      ensures r.Err? ==> State() == old(State()) && r.error == AttributeError(key)
    {
      if key in FieldNames() {
        SetAttr(key, None);
        setFields := setFields - {key};
        assert setFields == old(setFields) - {key};
        r := Ok(());
      } else if key in attrs {
        attrs := attrs - {key};
        r := Ok(());
      } else {
        r := Err(AttributeError(key));
      }
    }

    /**
     * One pass of `update`'s loop body: when field `key` differs from
     * `newValue`, assigns it (a non-`None` value) or deletes it (`None`), and
     * says whether it differed.
     */
    method CopyField(key: string, newValue: Option<V>) returns (differs: bool)
      requires Valid() && key in FieldNames()
      modifies this
      ensures Valid()
      ensures differs <==> old(values[key]) != newValue
      ensures !differs ==> State() == old(State())
      ensures differs && newValue.Some? ==> State() == Assign(FieldNames(), old(State()), key, newValue)
      ensures differs && newValue.None? ==> Ok(State()) == Delete(FieldNames(), old(State()), key)
    {
      differs := values[key] != newValue;
      if differs {
        if newValue.Some? {
          SetAttr(key, newValue);
        } else {
          var _ := DelAttr(key);
        }
      }
    }

    /**
     * Copies into this record every field explicitly set on `other` whose
     * value differs, and returns the names of those fields.
     */
    method Update(other: Record<V>) returns (changed: set<string>)
      requires Valid() && other.Valid()
      requires other.setFields <= FieldNames()
      modifies this
      ensures Valid()
      ensures changed == Changed(old(State()), old(other.State()))
      ensures State() == Merged(old(State()), old(other.State()))
    {
      ghost var s0, o0 := State(), other.State();
      ghost var done: set<string> := {};
      var keys := other.SetFieldsInOrder();
      changed := {};
      var i := 0;
      while i < |keys|
        invariant 0 <= i <= |keys|
        invariant Valid()
        invariant forall k :: k in done <==> k in keys[..i]
        invariant other != this ==> other.values == o0.values
        invariant other == this ==> s0 == o0
        invariant State() == MergedOn(s0, o0, done)
        invariant changed == ChangedOn(s0, o0, done)
      {
        var key := keys[i];
        assert key !in done;
        MergedOnStep(FieldNames(), s0, o0, done, key);
        assert other.values[key] == o0.values[key];
        var differs := CopyField(key, other.values[key]);
        if differs {
          changed := changed + {key};
        }
        PrefixGrows(keys, i);
        done := done + {key};
        i := i + 1;
      }
      assert done == o0.setFields;
    }
  }
}
