/** What `add_no_additional_properties` promises, proved of the transform
    `Hardening.Harden`: which objects get the new member, that existing
    members are kept, which nodes the traversal reaches, that nothing else
    changes, and that a second application changes nothing. */
module HardeningLaws {
  import opened JsonValue
  import opened Hardening

  // ---------------------------------------------------------------------
  // The root object

  /** An object declaring `"type": "object"` has an "additionalProperties"
      member afterwards; when it had none, the new one is `false`. */
  lemma ClosesObjectTypedRoot(fs: seq<Field>)
    requires Lookup(fs, TypeKey) == Some(Str(ObjectType))
    ensures Harden(Obj(fs)).Obj?
    ensures HasKey(Harden(Obj(fs)).fields, AdditionalProperties)
    ensures !HasKey(fs, AdditionalProperties) ==>
              Lookup(Harden(Obj(fs)).fields, AdditionalProperties) == Some(Bool(false))
  {
    LookupVisited(Close(fs), AdditionalProperties);
    if !HasKey(fs, AdditionalProperties) {
      LookupAppend(fs, ClosingFlag, AdditionalProperties);
    }
  }

  /** An "additionalProperties" member that is already there is never
      replaced by `false`: its value is only visited like any other value,
      so a boolean, number, string or null stays exactly as it was, and the
      object gets no new member. */
  lemma KeepsExistingAdditionalProperties(fs: seq<Field>)
    requires HasKey(fs, AdditionalProperties)
    ensures Harden(Obj(fs)).Obj?
    ensures Keys(Harden(Obj(fs)).fields) == Keys(fs)
    ensures Lookup(Harden(Obj(fs)).fields, AdditionalProperties)
         == Some(VisitValue(Lookup(fs, AdditionalProperties).value))
    ensures IsScalar(Lookup(fs, AdditionalProperties).value) ==>
              Lookup(Harden(Obj(fs)).fields, AdditionalProperties) == Lookup(fs, AdditionalProperties)
  {
    HardenObject(fs);
    LookupVisited(fs, AdditionalProperties);
    VisitValueKind(Lookup(fs, AdditionalProperties).value);
  }

  /** An object whose "type" is missing, another string such as "array",
      or a list such as ["object", "null"] gets no new member; its values
      are still visited. */
  lemma OtherTypesNotClosed(fs: seq<Field>)
    requires Lookup(fs, TypeKey) != Some(Str(ObjectType))
    ensures Harden(Obj(fs)).Obj? && |Harden(Obj(fs)).fields| == |fs|
    ensures Keys(Harden(Obj(fs)).fields) == Keys(fs)
    ensures forall i :: 0 <= i < |fs| ==>
              Harden(Obj(fs)).fields[i].value == VisitValue(fs[i].value)
  {
    assert Close(fs) == fs;
    assert Harden(Obj(fs)) == Obj(VisitMembers(fs));
    VisitMembersShape(fs);
    KeysVisited(fs);
  }

  // ---------------------------------------------------------------------
  // The whole document, node by node

  /** The transform as it applies to a node: `underKey` says that the node
      is the value of a dict member, where a list is entered one level;
      the root and the elements of a list are transformed only if they are
      dicts. */
  function HardenAt(x: Json, underKey: bool): (r: Json) {
    if underKey then VisitValue(x) else Harden(x)
  }

  /** One member step below a transformed node: an old member holds its
      visited value, and a position past the old members is the flag. */
  lemma HardenedMember(x: Json, underKey: bool, i: nat)
    requires HardenAt(x, underKey).Obj? && i < |HardenAt(x, underKey).fields|
    ensures x.Obj?
    ensures i < |x.fields| ==> HardenAt(x, underKey).fields[i].value == HardenAt(x.fields[i].value, true)
    ensures i >= |x.fields| ==>
              NeedsClosing(x.fields) && i == |x.fields| && HardenAt(x, underKey).fields[i] == ClosingFlag
  {
    VisitValueKind(x);
    HardenObject(x.fields);
  }

  /** One element step below a transformed node: only under a member is a
      list entered, and then its element is transformed. */
  lemma HardenedElement(x: Json, underKey: bool, k: nat)
    requires HardenAt(x, underKey).Arr? && k < |HardenAt(x, underKey).items|
    ensures x.Arr? && k < |x.items|
    ensures HardenAt(x, underKey).items[k] == if underKey then HardenAt(x.items[k], false) else x.items[k]
  {
    VisitValueKind(x);
    if underKey {
      VisitElementsShape(x.items);
    }
  }

  /** The traversal reaches the node at `p`: it goes down dict members
      freely, but into a list only from a dict member, so never into the
      elements of a top-level list and never into a list inside a list. */
  predicate Reaches(p: seq<Step>, underKey: bool)
    decreases |p|
  {
    p == [] ||
    match p[0]
    case Member(_) => Reaches(p[1..], true)
    case Element(_) => underKey && Reaches(p[1..], false)
  }

  /** A node is kept with its kind: an object keeps its keys in order and
      may only gain "additionalProperties" as its last key when it had
      none, a list keeps its length, and a scalar is unchanged. */
  predicate Extends(a: Json, b: Json) {
    match a
    case Obj(fs) =>
      b.Obj? &&
      (Keys(b.fields) == Keys(fs) ||
       (!HasKey(fs, AdditionalProperties) && Keys(b.fields) == Keys(fs) + [AdditionalProperties]))
    case Arr(items) => b.Arr? && |b.items| == |items|
    case _ => b == a
  }

  /** Every node the traversal does not reach comes back unchanged, with
      everything below it: the dicts inside a list nested in a list, and
      the elements of a top-level list. */
  lemma {:induction false} UnreachedUnchanged(x: Json, p: seq<Step>, underKey: bool)
    requires !Reaches(p, underKey)
    ensures At(HardenAt(x, underKey), p) == At(x, p)
    decreases |p|
  {
    match p[0]
    case Member(i) =>
      if x.Obj? {
        HardenObject(x.fields);
        if i < |x.fields| {
          UnreachedUnchanged(x.fields[i].value, p[1..], true);
        }
      }
    case Element(k) =>
      if underKey && x.Arr? {
        VisitElementsShape(x.items);
        if k < |x.items| {
          UnreachedUnchanged(x.items[k], p[1..], false);
        }
      } else if x.Obj? {
        HardenObject(x.fields);
      }
  }

  /** Every object the traversal reaches that declares `"type": "object"`
      has an "additionalProperties" member afterwards. */
  lemma {:induction false} ReachedObjectsClosed(x: Json, p: seq<Step>, underKey: bool, gs: seq<Field>)
    requires Reaches(p, underKey)
    requires At(HardenAt(x, underKey), p) == Some(Obj(gs))
    requires Lookup(gs, TypeKey) == Some(Str(ObjectType))
    ensures HasKey(gs, AdditionalProperties)
    decreases |p|
  {
    if p == [] {
      RootClosed(x, underKey, gs);
    } else {
      match p[0]
      case Member(i) =>
        HardenedMember(x, underKey, i);
        if i < |x.fields| {
          ReachedObjectsClosed(x.fields[i].value, p[1..], true, gs);
        }
      case Element(k) =>
        HardenedElement(x, underKey, k);
        ReachedObjectsClosed(x.items[k], p[1..], false, gs);
    }
  }

  /** The root case of `ReachedObjectsClosed`. */
  lemma RootClosed(x: Json, underKey: bool, gs: seq<Field>)
    requires HardenAt(x, underKey) == Obj(gs)
    requires Lookup(gs, TypeKey) == Some(Str(ObjectType))
    ensures HasKey(gs, AdditionalProperties)
  {
    VisitValueKind(x);
    var fs := x.fields;
    assert gs == VisitMembers(Close(fs));
    LookupVisited(Close(fs), TypeKey);
    LookupVisited(Close(fs), AdditionalProperties);
    LookupAppend(fs, ClosingFlag, TypeKey);
    LookupAppend(fs, ClosingFlag, AdditionalProperties);
    VisitValueKind(Lookup(Close(fs), TypeKey).value);
  }

  /** Nothing is removed: every node of the input is still there, at the
      same path and of the same kind; objects keep their keys in order,
      lists their length, scalars their value. */
  lemma {:induction false} NodesPersist(x: Json, p: seq<Step>, underKey: bool)
    requires At(x, p).Some?
    ensures At(HardenAt(x, underKey), p).Some?
    ensures Extends(At(x, p).value, At(HardenAt(x, underKey), p).value)
    decreases |p|
  {
    if p == [] {
      RootPersists(x, underKey);
    } else {
      VisitValueKind(x);
      match p[0]
      case Member(i) =>
        HardenObject(x.fields);
        NodesPersist(x.fields[i].value, p[1..], true);
      case Element(k) =>
        if underKey {
          VisitElementsShape(x.items);
          NodesPersist(x.items[k], p[1..], false);
        }
    }
  }

  /** The root case of `NodesPersist`. */
  lemma RootPersists(x: Json, underKey: bool)
    ensures Extends(x, HardenAt(x, underKey))
  {
    if x.Obj? {
      assert HardenAt(x, underKey) == Harden(x);
      HardenedKeys(x.fields);
    } else if x.Arr? && underKey {
      VisitElementsShape(x.items);
    }
  }

  /** The keys of a transformed object: the old ones, in order, and the
      flag's key last when the guard held. */
  lemma HardenedKeys(fs: seq<Field>)
    ensures Harden(Obj(fs)).Obj?
    ensures Keys(Harden(Obj(fs)).fields)
         == if NeedsClosing(fs) then Keys(fs) + [AdditionalProperties] else Keys(fs)
  {
    assert Harden(Obj(fs)) == Obj(VisitMembers(Close(fs)));
    KeysVisited(Close(fs));
    if NeedsClosing(fs) {
      KeysAppend(fs, ClosingFlag);
    }
  }

  /** The only nodes the output has that the input lacks are
      `"additionalProperties": false` members, appended last to a reached
      object that declared `"type": "object"` without that key. */
  lemma {:induction false} NewNodesAreClosingFlags(x: Json, p: seq<Step>, underKey: bool)
    requires At(x, p).None? && At(HardenAt(x, underKey), p).Some?
    ensures At(HardenAt(x, underKey), p).value == Bool(false)
    ensures Reaches(p, underKey)
    ensures |p| > 0 && p[|p| - 1].Member?
    ensures At(x, p[..|p| - 1]).Some? && At(x, p[..|p| - 1]).value.Obj?
    ensures NeedsClosing(At(x, p[..|p| - 1]).value.fields)
    ensures p[|p| - 1].index == |At(x, p[..|p| - 1]).value.fields|
    decreases |p|
  {
    var q := p[1..];
    match p[0]
    case Member(i) =>
      HardenedMember(x, underKey, i);
      if i < |x.fields| {
        NewNodesAreClosingFlags(x.fields[i].value, q, true);
        PrefixStep(p);
      } else {
        assert q == [] by {
          assert At(HardenAt(x, underKey), p) == At(Bool(false), q);
        }
        assert p[..|p| - 1] == [];
      }
    case Element(k) =>
      HardenedElement(x, underKey, k);
      assert underKey;
      NewNodesAreClosingFlags(x.items[k], q, false);
      PrefixStep(p);
  }

  /** Dropping the last step commutes with dropping the first. */
  lemma PrefixStep(p: seq<Step>)
    requires |p| >= 2
    ensures p[..|p| - 1][0] == p[0]
    ensures p[..|p| - 1][1..] == p[1..][..|p| - 2]
  {
  }

  // ---------------------------------------------------------------------
  // Once without duplication

  /** Every object the traversal reaches from a node is closed: it does
      not declare `"type": "object"` without "additionalProperties". */
  ghost predicate ClosedFrom(x: Json, underKey: bool) {
    forall p :: Reaches(p, underKey) && At(x, p).Some? && At(x, p).value.Obj? ==>
      !NeedsClosing(At(x, p).value.fields)
  }

  /** A whole schema is closed. */
  ghost predicate Closed(j: Json) {
    ClosedFrom(j, false)
  }

  lemma HardenedIsClosed(x: Json, underKey: bool)
    ensures ClosedFrom(HardenAt(x, underKey), underKey)
  {
    forall p | Reaches(p, underKey) && At(HardenAt(x, underKey), p).Some? &&
               At(HardenAt(x, underKey), p).value.Obj?
      ensures !NeedsClosing(At(HardenAt(x, underKey), p).value.fields)
    {
      var gs := At(HardenAt(x, underKey), p).value.fields;
      if Lookup(gs, TypeKey) == Some(Str(ObjectType)) {
        ReachedObjectsClosed(x, p, underKey, gs);
      }
    }
  }

  /** A closed node is left exactly as it is. */
  lemma {:induction false} ClosedIsFixedPoint(x: Json, underKey: bool)
    requires ClosedFrom(x, underKey)
    ensures HardenAt(x, underKey) == x
    decreases x
  {
    match x
    case Obj(fs) =>
      assert At(x, []) == Some(x);
      HardenObject(fs);
      forall i | 0 <= i < |fs|
        ensures VisitValue(fs[i].value) == fs[i].value
      {
        forall p | Reaches(p, true) && At(fs[i].value, p).Some? && At(fs[i].value, p).value.Obj?
          ensures !NeedsClosing(At(fs[i].value, p).value.fields)
        {
          var mp := [Member(i)] + p;
          assert mp[1..] == p;
          assert Reaches(mp, underKey);
          assert At(x, mp) == At(fs[i].value, p);
        }
        ClosedIsFixedPoint(fs[i].value, true);
      }
      assert Harden(x).fields == fs;
    case Arr(items) =>
      if underKey {
        VisitElementsShape(items);
        forall k | 0 <= k < |items|
          ensures Harden(items[k]) == items[k]
        {
          forall p | Reaches(p, false) && At(items[k], p).Some? && At(items[k], p).value.Obj?
            ensures !NeedsClosing(At(items[k], p).value.fields)
          {
            var ep := [Element(k)] + p;
            assert ep[1..] == p;
            assert Reaches(ep, true);
            assert At(x, ep) == At(items[k], p);
          }
          ClosedIsFixedPoint(items[k], false);
        }
        assert VisitElements(items) == items;
      }
    case _ =>
  }

  /** Applying the transform to its own output returns that output. */
  lemma Idempotent(j: Json)
    ensures Harden(Harden(j)) == Harden(j)
  {
    HardenedIsClosed(j, false);
    ClosedIsFixedPoint(Harden(j), false);
  }

  /** The schemas the transform leaves alone are exactly the closed ones. */
  lemma FixedPointsAreClosed(j: Json)
    ensures Harden(j) == j <==> Closed(j)
  {
    HardenedIsClosed(j, false);
    if Closed(j) {
      ClosedIsFixedPoint(j, false);
    }
  }

  /** No object ever gets a key twice. */
  lemma PreservesWellFormed(j: Json)
    requires WellFormed(j)
    ensures WellFormed(Harden(j))
  {
    forall p | At(Harden(j), p).Some? && At(Harden(j), p).value.Obj?
      ensures DistinctKeys(At(Harden(j), p).value.fields)
    {
      var gs := At(Harden(j), p).value.fields;
      if At(j, p).Some? {
        NodesPersist(j, p, false);
        var fs := At(j, p).value.fields;
        assert DistinctKeys(fs);
        forall a, b | 0 <= a < b < |gs| ensures gs[a].key != gs[b].key {
          assert Keys(gs)[a] == gs[a].key && Keys(gs)[b] == gs[b].key;
          if b == |fs| {
            assert Keys(fs)[a] == fs[a].key;
          } else {
            assert Keys(fs)[a] == fs[a].key && Keys(fs)[b] == fs[b].key;
          }
        }
      } else {
        NewNodesAreClosingFlags(j, p, false);
      }
    }
  }
}
