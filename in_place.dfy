/** `add_no_additional_properties` as the Python code runs it: on mutable
    dict and list objects, dicts updated in place and returned. A schema is
    a tree of `Dict` and `List` objects; each one's ghost `model` is the
    JSON value it stands for, and the methods are proved to leave every
    object they are called on holding `Hardening.Harden` (or the list
    visit) of what it held before. */
module InPlace {
  import J = JsonValue
  import H = Hardening

  /** A value held in a schema: a scalar, or a reference to a dict or a
      list object. */
  datatype Value =
    | Null
    | Bool(b: bool)
    | Int(i: int)
    | Real(r: real)
    | Str(s: string)
    | ListRef(l: List)
    | DictRef(d: Dict)

  datatype Entry = Entry(key: string, value: Value)

  /** The object a value refers to, if any. */
  function Target(v: Value): set<object> {
    match v
    case ListRef(l) => {l}
    case DictRef(d) => {d}
    case _ => {}
  }

  /** Every object a value owns: the object it refers to and everything
      below it. */
  ghost function Footprint(v: Value): set<object>
    reads Target(v)
  {
    match v
    case ListRef(l) => l.repr
    case DictRef(d) => d.repr
    case _ => {}
  }

  ghost predicate ValueValid(v: Value)
    reads Target(v), Footprint(v)
    decreases Footprint(v), 1
  {
    match v
    case ListRef(l) => l.Valid()
    case DictRef(d) => d.Valid()
    case _ => true
  }

  /** Values owned by `owner`, each valid, no two sharing an object: the
      values of one dict or the elements of one list form a tree. */
  ghost predicate AllValid(vs: seq<Value>, owner: set<object>)
    reads owner
    decreases owner, 2
  {
    && (forall n :: 0 <= n < |vs| ==>
          && Target(vs[n]) <= owner
          && Footprint(vs[n]) <= owner
          && Target(vs[n]) <= Footprint(vs[n])
          && ValueValid(vs[n]))
    && (forall n, m :: 0 <= n < m < |vs| ==> Footprint(vs[n]) !! Footprint(vs[m]))
  }

  /** Entries with distinct keys, owned by `owner` as a tree, standing
      member by member for the JSON fields `fs`. */
  ghost predicate EntriesModel(es: seq<Entry>, fs: seq<J.Field>, owner: set<object>)
    reads owner
    decreases owner, 3
  {
    && |es| == |fs|
    && (forall i, k :: 0 <= i < k < |es| ==> es[i].key != es[k].key)
    && AllValid(Values(es), owner)
    && (forall i :: 0 <= i < |es| ==> es[i].key == fs[i].key && ToJson(es[i].value) == fs[i].value)
  }

  /** Elements owned by `owner` as a tree, standing one by one for the
      JSON values `js`. */
  ghost predicate ItemsModel(vs: seq<Value>, js: seq<J.Json>, owner: set<object>)
    reads owner
    decreases owner, 3
  {
    && |vs| == |js|
    && AllValid(vs, owner)
    && (forall k :: 0 <= k < |vs| ==> ToJson(vs[k]) == js[k])
  }

  /** The JSON value a value stands for. */
  ghost function ToJson(v: Value): J.Json
    reads Target(v)
  {
    match v
    case Null => J.Null
    case Bool(b) => J.Bool(b)
    case Int(i) => J.Int(i)
    case Real(r) => J.Real(r)
    case Str(s) => J.Str(s)
    case ListRef(l) => J.Arr(l.model)
    case DictRef(d) => J.Obj(d.model)
  }

  /** `d.values()`. */
  function Values(es: seq<Entry>): (vs: seq<Value>)
    ensures |vs| == |es|
    ensures forall i :: 0 <= i < |es| ==> vs[i] == es[i].value
  {
    if es == [] then [] else [es[0].value] + Values(es[1..])
  }

  /** `d.get(key)`. */
  function Get(es: seq<Entry>, key: string): (r: J.Option<Value>)
    ensures r.Some? <==> exists i :: 0 <= i < |es| && es[i].key == key
  {
    if es == [] then J.None
    else if es[0].key == key then J.Some(es[0].value)
    else Get(es[1..], key)
  }

  /** The guard `schema.get("type") == "object"` and
      `"additionalProperties" not in schema`. */
  predicate Open(es: seq<Entry>) {
    Get(es, H.TypeKey) == J.Some(Str(H.ObjectType)) && Get(es, H.AdditionalProperties).None?
  }

  /** A Python dict in a schema: its entries in insertion order. */
  class Dict {
    var entries: seq<Entry>
    /** The JSON object this dict stands for. */
    ghost var model: seq<J.Field>
    /** This dict and every object below it. */
    ghost var repr: set<object>

    /** The dict stands for `model` and owns everything below it. */
    ghost predicate Valid()
      reads this, repr
      decreases repr, 0
    {
      this in repr && EntriesModel(entries, model, repr - {this})
    }

    /** A new empty dict `{}`. */
    constructor()
      ensures Valid() && entries == [] && model == [] && repr == {this}
    {
      entries := [];
      model := [];
      repr := {this};
    }

    /** `d[key] = value` for a key the dict does not hold yet: the entry
        goes last, and the value's objects join the dict's tree. */
    method Add(key: string, value: Value)
      requires Valid() && ValueValid(value) && Get(entries, key).None?
      requires Footprint(value) !! repr
      modifies this
      ensures Valid()
      ensures entries == old(entries) + [Entry(key, value)]
      ensures model == old(model) + [J.Field(key, ToJson(value))]
      ensures repr == old(repr) + Footprint(value)
    {
      EntriesModelAdd(entries, model, repr - {this}, key, value);
      entries := entries + [Entry(key, value)];
      model := model + [J.Field(key, ToJson(value))];
      repr := repr + Footprint(value);
      assert repr - {this} == old(repr) - {this} + Footprint(value);
    }

    /** The body of `add_no_additional_properties` for a dict: the guard
        and the update, then the loop over the items. The dict keeps its
        entries, values included (the same objects, updated in place), and
        may only gain one at the end. */
    method Harden()
      requires Valid()
      modifies repr
      ensures Valid() && repr == old(repr)
      ensures J.Obj(model) == H.Harden(J.Obj(old(model)))
      ensures |entries| >= |old(entries)| && entries[..|old(entries)|] == old(entries)
      decreases repr, 1
    {
      ghost var m := model;
      assert H.Harden(J.Obj(m)) == J.Obj(H.VisitMembers(H.Close(m)));
      CloseIfOpen();
      assert entries[..|old(entries)|] == old(entries);
      VisitValues();
    }

    /** The guard and the update: `"additionalProperties": false` is
        appended exactly when the dict declares `"type": "object"` and has
        no such key. */
    method CloseIfOpen()
      requires Valid()
      modifies this
      ensures Valid() && repr == old(repr)
      ensures model == H.Close(old(model))
      ensures entries == if H.NeedsClosing(old(model))
                         then old(entries) + [Entry(H.AdditionalProperties, Bool(false))]
                         else old(entries)
    {
      OpenAgrees(entries, model);
      if Open(entries) {
        EntriesModelAdd(entries, model, repr - {this}, H.AdditionalProperties, Bool(false));
        assert repr - {this} + Footprint(Bool(false)) == repr - {this};
        entries := entries + [Entry(H.AdditionalProperties, Bool(false))];
        model := model + [H.ClosingFlag];
      }
    }

    /** The loop over `schema.items()`: each value is visited in turn, the
        keys and the values' identities stay as they are. */
    method VisitValues()
      requires Valid()
      modifies repr
      ensures Valid() && repr == old(repr) && entries == old(entries)
      ensures model == H.VisitMembers(old(model))
      decreases repr, 0
    {
      var es := entries;
      var vs := Values(es);
      var i := 0;
      while i < |es|
        invariant 0 <= i <= |es|
        invariant entries == es && model == old(model) && repr == old(repr) && this in repr
        invariant AllValid(vs, repr - {this})
        invariant forall k :: 0 <= k < i ==> ToJson(vs[k]) == H.VisitValue(model[k].value)
        invariant forall k :: i <= k < |es| ==> ToJson(vs[k]) == model[k].value
      {
        VisitOne(vs, repr - {this}, i);
        i := i + 1;
      }
      H.VisitMembersShape(model);
      model := H.VisitMembers(model);
    }
  }

  /** A Python list in a schema. */
  class List {
    var items: seq<Value>
    /** The JSON array this list stands for. */
    ghost var model: seq<J.Json>
    /** This list and every object below it. */
    ghost var repr: set<object>

    /** The list stands for `model` and owns everything below it. */
    ghost predicate Valid()
      reads this, repr
      decreases repr, 0
    {
      this in repr && ItemsModel(items, model, repr - {this})
    }

    /** A new empty list `[]`. */
    constructor()
      ensures Valid() && items == [] && model == [] && repr == {this}
    {
      items := [];
      model := [];
      repr := {this};
    }

    /** `l.append(value)`: the value's objects join the list's tree. */
    method Append(value: Value)
      requires Valid() && ValueValid(value) && Footprint(value) !! repr
      modifies this
      ensures Valid()
      ensures items == old(items) + [value]
      ensures model == old(model) + [ToJson(value)]
      ensures repr == old(repr) + Footprint(value)
    {
      AllValidAdd(items, repr - {this}, value);
      items := items + [value];
      model := model + [ToJson(value)];
      repr := repr + Footprint(value);
      assert repr - {this} == old(repr) - {this} + Footprint(value);
    }

    /** The inner loop over the elements of a list value: every dict
        element is transformed in place; the list itself, and any element
        that is not a dict, is left as it is. */
    method VisitElements()
      requires Valid()
      modifies repr
      ensures Valid() && repr == old(repr) && items == old(items)
      ensures J.Arr(model) == H.VisitValue(J.Arr(old(model)))
      decreases repr, 0
    {
      var k := 0;
      while k < |items|
        invariant 0 <= k <= |items|
        invariant items == old(items) && model == old(model) && repr == old(repr) && this in repr
        invariant AllValid(items, repr - {this})
        invariant forall n :: 0 <= n < k ==> ToJson(items[n]) == H.Harden(model[n])
        invariant forall n :: k <= n < |items| ==> ToJson(items[n]) == model[n]
      {
        if items[k].DictRef? {
          VisitOne(items, repr - {this}, k);
        }
        k := k + 1;
      }
      H.VisitElementsShape(model);
      model := H.VisitElements(model);
    }
  }

  /** Visits the value at position `k` of a tree of values: that value
      alone changes, and the sequence stays a valid tree. */
  method VisitOne(vs: seq<Value>, ghost owner: set<object>, k: nat)
    requires k < |vs| && AllValid(vs, owner)
    modifies Footprint(vs[k])
    ensures AllValid(vs, owner)
    ensures ToJson(vs[k]) == H.VisitValue(old(ToJson(vs[k])))
    ensures forall n :: 0 <= n < |vs| && n != k ==> ToJson(vs[n]) == old(ToJson(vs[n]))
    decreases Footprint(vs[k]), 4
  {
    VisitValue(vs[k]);
    forall n | 0 <= n < |vs| && n != k
      ensures Footprint(vs[n]) == old(Footprint(vs[n])) && ValueValid(vs[n]) && ToJson(vs[n]) == old(ToJson(vs[n]))
    {
      assert old(Footprint(vs[n])) !! old(Footprint(vs[k]));
    }
  }

  /** `d.get(key)` on the entries agrees with the lookup on the model. */
  lemma {:induction false} GetAgrees(es: seq<Entry>, fs: seq<J.Field>, key: string)
    requires |es| == |fs|
    requires forall i :: 0 <= i < |es| ==> es[i].key == fs[i].key && ToJson(es[i].value) == fs[i].value
    ensures J.Lookup(fs, key) == match Get(es, key) case Some(v) => J.Some(ToJson(v)) case None => J.None
    decreases |es|
  {
    if es != [] {
      GetAgrees(es[1..], fs[1..], key);
    }
  }

  /** The guard decided on the dict agrees with the guard decided on the
      JSON object it stands for. */
  lemma OpenAgrees(es: seq<Entry>, fs: seq<J.Field>)
    requires |es| == |fs|
    requires forall i :: 0 <= i < |es| ==> es[i].key == fs[i].key && ToJson(es[i].value) == fs[i].value
    ensures Open(es) <==> H.NeedsClosing(fs)
  {
    GetAgrees(es, fs, H.TypeKey);
    GetAgrees(es, fs, H.AdditionalProperties);
  }

  /** A valid value owning none of the objects of a tree of values can
      join it; the tree then owns the value's objects too. */
  lemma AllValidAdd(vs: seq<Value>, owner: set<object>, v: Value)
    requires AllValid(vs, owner) && ValueValid(v) && Footprint(v) !! owner
    ensures Target(v) <= Footprint(v)
    ensures AllValid(vs + [v], owner + Footprint(v))
  {
  }

  /** Adding an entry under a new key with a valid value owning none of the
      dict's objects keeps the keys distinct and the entries a tree,
      standing for the fields with the new member appended. */
  lemma EntriesModelAdd(es: seq<Entry>, fs: seq<J.Field>, owner: set<object>, key: string, v: Value)
    requires EntriesModel(es, fs, owner) && Get(es, key).None?
    requires ValueValid(v) && Footprint(v) !! owner
    ensures EntriesModel(es + [Entry(key, v)], fs + [J.Field(key, ToJson(v))], owner + Footprint(v))
  {
    var e := Entry(key, v);
    var es', fs' := es + [e], fs + [J.Field(key, ToJson(v))];
    assert Values(es') == Values(es) + [v];
    AllValidAdd(Values(es), owner, v);
    forall i | 0 <= i < |es|
      ensures es[i].key != key
    {
    }
    forall i | 0 <= i < |es'|
      ensures es'[i].key == fs'[i].key && ToJson(es'[i].value) == fs'[i].value
    {
    }
  }

  /** The body of the loop over `schema.items()` for one value: a dict is
      transformed, the dict elements of a list are transformed, anything
      else is left alone. */
  method VisitValue(v: Value)
    requires ValueValid(v)
    modifies Footprint(v)
    ensures ValueValid(v) && Footprint(v) == old(Footprint(v))
    ensures ToJson(v) == H.VisitValue(old(ToJson(v)))
    decreases Footprint(v), 3
  {
    if v.DictRef? {
      var _ := AddNoAdditionalProperties(v);
    } else if v.ListRef? {
      v.l.VisitElements();
    }
  }

  /** `add_no_additional_properties(schema)`: a dict is updated in place,
      anything else is left alone, and the same value is returned. */
  method AddNoAdditionalProperties(schema: Value) returns (r: Value)
    requires ValueValid(schema)
    modifies Footprint(schema)
    ensures r == schema
    ensures ValueValid(schema) && Footprint(schema) == old(Footprint(schema))
    ensures !schema.DictRef? ==> unchanged(Footprint(schema))
    ensures ToJson(schema) == H.Harden(old(ToJson(schema)))
    decreases Footprint(schema), 2
  {
    if schema.DictRef? {
      schema.d.Harden();
    }
    r := schema;
  }

  /** `{"type": "object"}`. */
  const ObjectSchema: J.Json := J.Obj([J.Field("type", J.Str("object"))])

  /** The pydantic-shaped schema of `Example`, as JSON. */
  const ExampleInput: J.Json := J.Obj([
    J.Field("type", J.Str("object")),
    J.Field("properties", J.Obj([J.Field("p", ObjectSchema)])),
    J.Field("anyOf", J.Arr([ObjectSchema]))])

  /** What the transform makes of it: the root, the nested model and the
      list's dict are closed; "properties" has no "type" and gets nothing. */
  const ExampleOutput: J.Json := J.Obj([
    J.Field("type", J.Str("object")),
    J.Field("properties", J.Obj([
      J.Field("p", J.Obj([J.Field("type", J.Str("object")), H.ClosingFlag]))])),
    J.Field("anyOf", J.Arr([J.Obj([J.Field("type", J.Str("object")), H.ClosingFlag])])),
    H.ClosingFlag])

  lemma ExampleHardened()
    ensures H.Harden(ExampleInput) == ExampleOutput
  {
    var closedObject := J.Obj([J.Field("type", J.Str("object")), H.ClosingFlag]);
    assert H.Harden(ObjectSchema) == closedObject;
    var props := [J.Field("p", ObjectSchema)];
    assert H.Close(props) == props;
    assert H.VisitMembers(props) == [J.Field("p", closedObject)];
    assert H.VisitValue(J.Obj(props)) == ExampleOutput.fields[1].value;
    assert H.VisitElements([ObjectSchema]) == [closedObject];
    assert H.VisitValue(J.Arr([ObjectSchema])) == ExampleOutput.fields[2].value;
    H.VisitMembersShape(H.Close(ExampleInput.fields));
  }

  /** A new dict `{"type": "object"}`. */
  method NewObjectSchema() returns (d: Dict)
    ensures d.Valid() && fresh(d.repr) && J.Obj(d.model) == ObjectSchema
  {
    d := new Dict();
    d.Add("type", Str("object"));
  }

  /** A new dict `{"p": {"type": "object"}}`. */
  method NewProperties() returns (d: Dict)
    ensures d.Valid() && fresh(d.repr) && d.model == [J.Field("p", ObjectSchema)]
  {
    var leaf := NewObjectSchema();
    d := new Dict();
    d.Add("p", DictRef(leaf));
  }

  /** A new list `[{"type": "object"}]`. */
  method NewAnyOf() returns (l: List)
    ensures l.Valid() && fresh(l.repr) && l.model == [ObjectSchema]
  {
    var option := NewObjectSchema();
    l := new List();
    l.Append(DictRef(option));
  }

  /** A new dict `{"type": "object", "properties": {"p": {"type": "object"}}}`. */
  method NewTypedRoot() returns (root: Dict)
    ensures root.Valid() && fresh(root.repr)
    ensures root.model == ExampleInput.fields[..2]
  {
    var props := NewProperties();
    root := new Dict();
    root.Add("type", Str("object"));
    assert root.entries == [Entry("type", Str("object"))];
    root.Add("properties", DictRef(props));
    assert root.repr == {root} + props.repr;
  }

  /** Builds that schema from new dicts and a new list, the way pydantic's
      output is made of Python objects. */
  method NewExampleSchema() returns (root: Dict)
    ensures root.Valid() && fresh(root.repr) && J.Obj(root.model) == ExampleInput
  {
    root := NewTypedRoot();
    var anyOf := NewAnyOf();
    assert Get(root.entries, "anyOf").None? by {
      GetAgrees(root.entries, root.model, "anyOf");
    }
    root.Add("anyOf", ListRef(anyOf));
    assert root.model == ExampleInput.fields;
  }

  /** Calls the function on that schema: the same dict comes back, closed
      where the traversal reaches a dict typed "object". */
  method Example() returns (root: Dict, schema: Value)
    ensures schema == DictRef(root) && ValueValid(schema)
    ensures ToJson(schema) == ExampleOutput
  {
    root := NewExampleSchema();
    schema := AddNoAdditionalProperties(DictRef(root));
    ExampleHardened();
  }
}
