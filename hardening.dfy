/** The schema-hardening transform `add_no_additional_properties`, stated on
    immutable JSON values. Each function follows one part of the Python
    function: `Harden` is the function itself, `VisitMembers` its loop over
    `schema.items()`, `VisitValue` the body of that loop for one value and
    `VisitElements` the inner loop over the elements of a list value. */
module Hardening {
  import opened JsonValue

  const TypeKey: string := "type"
  const ObjectType: string := "object"
  const AdditionalProperties: string := "additionalProperties"

  /** The member that the transform adds to an object. */
  const ClosingFlag: Field := Field(AdditionalProperties, Bool(false))

  /** The guard of the update: the object declares `"type": "object"` and
      has no `"additionalProperties"` member yet. A "type" that is a list
      such as ["object", "null"] does not compare equal to "object". */
  predicate NeedsClosing(fs: seq<Field>) {
    Lookup(fs, TypeKey) == Some(Str(ObjectType)) && !HasKey(fs, AdditionalProperties)
  }

  /** The object after the update of the guard, before the loop: the new
      key goes last, as a Python dict appends a new key. */
  function Close(fs: seq<Field>): (r: seq<Field>) {
    if NeedsClosing(fs) then fs + [ClosingFlag] else fs
  }

  /** A measure that shrinks along every recursive call of the transform;
      an object weighs more than the flag that `Close` may add to it. */
  function Size(j: Json): (n: nat)
    ensures n >= 1
    decreases j, 1
  {
    match j
    case Arr(items) => 1 + SizeItems(items)
    case Obj(fs) => 3 + SizeFields(fs)
    case _ => 1
  }

  function SizeFields(fs: seq<Field>): nat
    decreases fs, 0
  {
    if fs == [] then 0 else 1 + Size(fs[0].value) + SizeFields(fs[1..])
  }

  function SizeItems(items: seq<Json>): nat
    decreases items, 0
  {
    if items == [] then 0 else Size(items[0]) + SizeItems(items[1..])
  }

  lemma {:induction false} SizeFieldsAppend(fs: seq<Field>, f: Field)
    ensures SizeFields(fs + [f]) == SizeFields(fs) + 1 + Size(f.value)
    decreases |fs|
  {
    if fs != [] {
      assert (fs + [f])[1..] == fs[1..] + [f];
      SizeFieldsAppend(fs[1..], f);
    }
  }

  /** `add_no_additional_properties(schema)`: a non-dict comes back as it
      is; a dict is closed by the guard and then each of its values is
      visited. */
  function Harden(j: Json): (r: Json)
    decreases Size(j), 0
  {
    match j
    case Obj(fs) =>
      SizeFieldsAppend(fs, ClosingFlag);
      Obj(VisitMembers(Close(fs)))
    case _ => j
  }

  /** The loop over `schema.items()`: every value is visited, keys and
      their order stay as they are. */
  function VisitMembers(fs: seq<Field>): (r: seq<Field>)
    decreases SizeFields(fs), 2
  {
    if fs == [] then []
    else [Field(fs[0].key, VisitValue(fs[0].value))] + VisitMembers(fs[1..])
  }

  /** The body of that loop for one value: a dict is transformed, the dict
      elements of a list are transformed, anything else is left alone. */
  function VisitValue(v: Json): (r: Json)
    decreases Size(v), 1
  {
    match v
    case Obj(_) => Harden(v)
    case Arr(items) => Arr(VisitElements(items))
    case _ => v
  }

  /** The loop over the elements of a list value: only dict elements are
      transformed; a list nested in the list is not entered. */
  function VisitElements(items: seq<Json>): (r: seq<Json>)
    decreases SizeItems(items), 2
  {
    if items == [] then []
    else [if items[0].Obj? then Harden(items[0]) else items[0]] + VisitElements(items[1..])
  }

  /** The loop over `schema.items()` keeps every key in place and visits
      the value beside it. */
  lemma {:induction false} VisitMembersShape(fs: seq<Field>)
    ensures |VisitMembers(fs)| == |fs|
    ensures forall i :: 0 <= i < |fs| ==> VisitMembers(fs)[i] == Field(fs[i].key, VisitValue(fs[i].value))
    decreases |fs|
  {
    if fs != [] {
      VisitMembersShape(fs[1..]);
    }
  }

  /** The loop over a list keeps its length and transforms each element
      (an element that is not a dict comes back as it is). */
  lemma {:induction false} VisitElementsShape(items: seq<Json>)
    ensures |VisitElements(items)| == |items|
    ensures forall k :: 0 <= k < |items| ==> VisitElements(items)[k] == Harden(items[k])
    decreases |items|
  {
    if items != [] {
      VisitElementsShape(items[1..]);
    }
  }

  /** What the transform does to one dict: every old member keeps its key
      and position and has its value visited; the only member that can be
      added is `"additionalProperties": false`, last, and exactly when the
      guard holds. */
  lemma HardenObject(fs: seq<Field>)
    ensures Harden(Obj(fs)).Obj?
    ensures |Harden(Obj(fs)).fields| == if NeedsClosing(fs) then |fs| + 1 else |fs|
    ensures forall i :: 0 <= i < |fs| ==>
              Harden(Obj(fs)).fields[i] == Field(fs[i].key, VisitValue(fs[i].value))
    ensures NeedsClosing(fs) ==> Harden(Obj(fs)).fields[|fs|] == ClosingFlag
  {
    VisitMembersShape(Close(fs));
  }

  /** Visiting keeps the kind of a value, and a string stays the same
      string: `d.get("type") == "object"` is decided alike before and after. */
  lemma VisitValueKind(v: Json)
    ensures VisitValue(v).Obj? == v.Obj? && VisitValue(v).Arr? == v.Arr?
    ensures IsScalar(v) ==> VisitValue(v) == v
  {
  }

  /** Looking a key up in the visited members finds the visited value. */
  lemma {:induction false} LookupVisited(fs: seq<Field>, key: string)
    ensures Lookup(VisitMembers(fs), key)
         == if HasKey(fs, key) then Some(VisitValue(Lookup(fs, key).value)) else None
    decreases |fs|
  {
    if fs != [] {
      LookupVisited(fs[1..], key);
    }
  }

  /** The loop over `schema.items()` changes no key. */
  lemma {:induction false} KeysVisited(fs: seq<Field>)
    ensures Keys(VisitMembers(fs)) == Keys(fs)
    decreases |fs|
  {
    if fs != [] {
      KeysVisited(fs[1..]);
    }
  }
}
