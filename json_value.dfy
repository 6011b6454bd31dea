/** JSON values as a JSON-schema dictionary holds them once it has been
    built: objects keep their members in insertion order, the way a Python
    dict does, and a node of a document is addressed by a path of positions. */
module JsonValue {

  datatype Option<T> = None | Some(value: T)

  datatype Json =
    | Null
    | Bool(b: bool)
    | Int(i: int)
    | Real(r: real)
    | Str(s: string)
    | Arr(items: seq<Json>)
    | Obj(fields: seq<Field>)

  /** One member of an object; `fields` lists them in insertion order. */
  datatype Field = Field(key: string, value: Json)

  /** Null, booleans, numbers and strings: the leaves of a document. */
  predicate IsScalar(j: Json) {
    !j.Arr? && !j.Obj?
  }

  /** The keys of an object, in insertion order. */
  function Keys(fs: seq<Field>): (ks: seq<string>)
    ensures |ks| == |fs|
    ensures forall i :: 0 <= i < |fs| ==> ks[i] == fs[i].key
  {
    if fs == [] then [] else [fs[0].key] + Keys(fs[1..])
  }

  /** `key in d` for a dict d. */
  predicate HasKey(fs: seq<Field>, key: string) {
    key in Keys(fs)
  }

  /** `d.get(key)`: the value of the first member with that key. */
  function Lookup(fs: seq<Field>, key: string): (r: Option<Json>)
    ensures r.Some? <==> HasKey(fs, key)
  {
    if fs == [] then None
    else if fs[0].key == key then Some(fs[0].value)
    else Lookup(fs[1..], key)
  }

  /** A dict never holds the same key twice. */
  predicate DistinctKeys(fs: seq<Field>) {
    forall i, k :: 0 <= i < k < |fs| ==> fs[i].key != fs[k].key
  }

  /** One step down a document: the member at a position of an object, or
      the element at a position of an array. */
  datatype Step = Member(index: nat) | Element(index: nat)

  /** The node reached from `j` along `p`, if there is one. */
  function At(j: Json, p: seq<Step>): Option<Json>
    decreases |p|
  {
    if p == [] then Some(j)
    else match p[0]
      case Member(i) =>
        if j.Obj? && i < |j.fields| then At(j.fields[i].value, p[1..]) else None
      case Element(k) =>
        if j.Arr? && k < |j.items| then At(j.items[k], p[1..]) else None
  }

  /** Every object anywhere in the document has distinct keys, as every
      Python dict has. */
  ghost predicate WellFormed(j: Json) {
    forall p :: At(j, p).Some? && At(j, p).value.Obj? ==> DistinctKeys(At(j, p).value.fields)
  }

  /** `Lookup` finds the first member with the key. */
  lemma {:induction false} LookupFirst(fs: seq<Field>, key: string, i: nat)
    requires i < |fs| && fs[i].key == key
    requires forall k :: 0 <= k < i ==> fs[k].key != key
    ensures Lookup(fs, key) == Some(fs[i].value)
    decreases i
  {
    if i > 0 {
      LookupFirst(fs[1..], key, i - 1);
    }
  }

  /** Appending a member changes a lookup only when the key was missing. */
  lemma {:induction false} LookupAppend(fs: seq<Field>, f: Field, key: string)
    ensures Lookup(fs + [f], key)
         == if HasKey(fs, key) then Lookup(fs, key)
            else if f.key == key then Some(f.value)
            else None
    decreases |fs|
  {
    if fs != [] {
      assert (fs + [f])[1..] == fs[1..] + [f];
      LookupAppend(fs[1..], f, key);
    }
  }

  lemma KeysAppend(fs: seq<Field>, f: Field)
    ensures Keys(fs + [f]) == Keys(fs) + [f.key]
  {
  }
}
