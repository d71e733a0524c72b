/** The attribute store, `PrivacyControllingConcept`: a thing carries named
    privacy attributes, each attribute carries a list of accepted values, and
    a check passes when any offered value is accepted. Attributes and values
    live in the concept's one collection. A missing attribute passes every
    check (fail-open). */
module PrivacyControlling {
  import opened Seqs
  import opened Errors
  import opened Docs

  datatype PrivDoc =
      /** `PrivacyAttributeDoc`: the attribute `attributeName` of `thing` */
    | Attribute(id: Id, thing: Id, attributeName: string)
      /** `AtrributeValueDoc`: `value` is accepted by the attribute with id `privacyAttribute` */
    | AttrValue(id: Id, privacyAttribute: Id, value: string)

  function IdOf(d: PrivDoc): Id {
    d.id
  }

  /** The record as the store sees it. */
  function View(d: PrivDoc): Doc {
    match d
    case Attribute(id, thing, name) =>
      map["_id" := IdV(id), "thing" := IdV(thing), "attributeName" := StrV(name)]
    case AttrValue(id, attr, value) =>
      map["_id" := IdV(id), "privacyAttribute" := IdV(attr), "value" := StrV(value)]
  }

  lemma ViewHasId()
    ensures HasIdField(View, IdOf)
  {
  }

  // The records each query of the concept is meant to select.

  /** The attributes `name` of `thing`. */
  function AttributeOf(thing: Id, name: string): PrivDoc -> bool {
    (d: PrivDoc) => d.Attribute? && d.thing == thing && d.attributeName == name
  }

  /** Every attribute of `thing`. */
  function AttributesOf(thing: Id): PrivDoc -> bool {
    (d: PrivDoc) => d.Attribute? && d.thing == thing
  }

  /** The accepted values of the attribute with id `attr`. */
  function ValueOf(attr: Id): PrivDoc -> bool {
    (d: PrivDoc) => d.AttrValue? && d.privacyAttribute == attr
  }

  predicate IsValue(d: PrivDoc) {
    d.AttrValue?
  }

  // The queries as the concept writes them.

  function AttrQuery(thing: Id, name: string): Query {
    map["thing" := IdV(thing), "attributeName" := StrV(name)]
  }

  function ThingQuery(thing: Id): Query {
    map["thing" := IdV(thing)]
  }

  function ValuesQuery(attr: Id): Query {
    map["privacyAttribute" := IdV(attr)]
  }

  lemma AttrQueryMeans(thing: Id, name: string)
    ensures forall d :: Matching(View, AttrQuery(thing, name))(d) == AttributeOf(thing, name)(d)
  {
    forall d ensures Matching(View, AttrQuery(thing, name))(d) == AttributeOf(thing, name)(d) {
      MatchesTwo(View(d), "thing", IdV(thing), "attributeName", StrV(name));
    }
  }

  lemma ThingQueryMeans(thing: Id)
    ensures forall d :: Matching(View, ThingQuery(thing))(d) == AttributesOf(thing)(d)
  {
    forall d ensures Matching(View, ThingQuery(thing))(d) == AttributesOf(thing)(d) {
      MatchesOne(View(d), "thing", IdV(thing));
    }
  }

  lemma ValuesQueryMeans(attr: Id)
    ensures forall d :: Matching(View, ValuesQuery(attr))(d) == ValueOf(attr)(d)
  {
    forall d ensures Matching(View, ValuesQuery(attr))(d) == ValueOf(attr)(d) {
      MatchesOne(View(d), "privacyAttribute", IdV(attr));
    }
  }

  /** The first attribute `name` of `thing` in the store, if any. */
  function FindAttribute(docs: seq<PrivDoc>, thing: Id, name: string): (r: Option<PrivDoc>)
    ensures r.None? <==> forall d :: d in docs ==> !AttributeOf(thing, name)(d)
    ensures r.Some? ==> r.value in docs && r.value.Attribute? &&
                        r.value.thing == thing && r.value.attributeName == name
  {
    var i := Find(docs, AttributeOf(thing, name));
    if i == |docs| then None else Some(docs[i])
  }

  /** `readOne({ thing, attributeName })` finds exactly `FindAttribute`. */
  lemma ReadAttribute(docs: seq<PrivDoc>, thing: Id, name: string)
    ensures ReadOne(docs, View, AttrQuery(thing, name)) == FindAttribute(docs, thing, name)
  {
    AttrQueryMeans(thing, name);
    FindExt(docs, Matching(View, AttrQuery(thing, name)), AttributeOf(thing, name));
  }

  /** `readMany({ privacyAttribute })` selects exactly the values of the attribute. */
  lemma ReadValues(docs: seq<PrivDoc>, attr: Id)
    ensures ReadMany(docs, View, ValuesQuery(attr)) == Filter(docs, ValueOf(attr))
  {
    ValuesQueryMeans(attr);
    FilterExt(docs, Matching(View, ValuesQuery(attr)), ValueOf(attr));
  }

  /** The values the attribute with id `attr` accepts. */
  function AcceptedValues(docs: seq<PrivDoc>, attr: Id): set<string> {
    set d | d in docs && ValueOf(attr)(d) :: d.value
  }

  /** Some offered value is accepted by the attribute with id `attr`. */
  predicate Satisfied(docs: seq<PrivDoc>, attr: Id, values: seq<string>) {
    exists v :: v in values && v in AcceptedValues(docs, attr)
  }

  /** What `anyValueSatisfies` reports: `true` when the attribute does not
      exist, otherwise whether some offered value is accepted. */
  datatype Check = Absent | Checked(satisfies: bool)

  /** The verdict of a check of `values` against attribute `name` of `thing`. */
  function Verdict(docs: seq<PrivDoc>, thing: Id, name: string, values: seq<string>): Check {
    match FindAttribute(docs, thing, name)
    case None => Absent
    case Some(a) => Checked(Satisfied(docs, a.id, values))
  }

  /** A check passes when the attribute is missing or satisfied. */
  predicate Passes(c: Check) {
    c.Absent? || c.satisfies
  }

  /** Some value among the first `i` records of `cur` equals an offered value. */
  ghost predicate HitBefore(cur: seq<PrivDoc>, values: seq<string>, i: nat) {
    exists a, b :: 0 <= a < i && a < |cur| && 0 <= b < |values| && cur[a].AttrValue? && values[b] == cur[a].value
  }

  /** Record `d` is a value equal to one of the first `j` offered values. */
  ghost predicate HitUpTo(d: PrivDoc, values: seq<string>, j: nat) {
    d.AttrValue? && exists b :: 0 <= b < j && b < |values| && values[b] == d.value
  }

  /** One outer iteration of the loops of `anyValueSatisfies`. */
  lemma HitStep(cur: seq<PrivDoc>, values: seq<string>, i: nat)
    requires i < |cur|
    ensures HitBefore(cur, values, i + 1) <==>
            HitBefore(cur, values, i) || HitUpTo(cur[i], values, |values|)
  {
    if HitBefore(cur, values, i + 1) {
      var a, b :| 0 <= a < i + 1 && a < |cur| && 0 <= b < |values| && cur[a].AttrValue? && values[b] == cur[a].value;
      if a < i {
        assert HitBefore(cur, values, i);
      }
    }
  }

  /** Once all records are scanned, a hit is exactly `Satisfied`. */
  lemma HitDone(docs: seq<PrivDoc>, attr: Id, values: seq<string>, cur: seq<PrivDoc>)
    requires cur == Filter(docs, ValueOf(attr))
    ensures HitBefore(cur, values, |cur|) <==> Satisfied(docs, attr, values)
  {
    if HitBefore(cur, values, |cur|) {
      var a, b :| 0 <= a < |cur| && 0 <= b < |values| && cur[a].AttrValue? && values[b] == cur[a].value;
      assert cur[a] in cur;
      assert values[b] in values && values[b] in AcceptedValues(docs, attr);
    }
    if Satisfied(docs, attr, values) {
      var v :| v in values && v in AcceptedValues(docs, attr);
      var d :| d in docs && ValueOf(attr)(d) && d.value == v;
      var a :| 0 <= a < |cur| && cur[a] == d;
      var b :| 0 <= b < |values| && values[b] == v;
      assert HitBefore(cur, values, |cur|);
    }
  }

  /** An empty list of offered values never satisfies an existing attribute. */
  lemma NoValuesUnsatisfied(docs: seq<PrivDoc>, thing: Id, name: string)
    requires FindAttribute(docs, thing, name).Some?
    ensures Verdict(docs, thing, name, []) == Checked(false)
  {
  }

  /** A check fails exactly when the attribute exists and accepts none of the
      offered values: a value satisfies it iff it was assigned to it. */
  lemma VerdictMeans(docs: seq<PrivDoc>, thing: Id, name: string, values: seq<string>)
    ensures !Passes(Verdict(docs, thing, name, values)) <==>
            FindAttribute(docs, thing, name).Some? &&
            forall d :: d in docs && ValueOf(FindAttribute(docs, thing, name).value.id)(d) ==> d.value !in values
  {
    var f := FindAttribute(docs, thing, name);
    if f.Some? {
      var a := f.value;
      if Satisfied(docs, a.id, values) {
        var v :| v in values && v in AcceptedValues(docs, a.id);
        var d :| d in docs && ValueOf(a.id)(d) && d.value == v;
      }
    }
  }

  /** Appending a record leaves the attribute a check uses in place, unless
      none existed and the record is one. */
  lemma FindAttributeAppend(docs: seq<PrivDoc>, x: PrivDoc, thing: Id, name: string)
    ensures FindAttribute(docs + [x], thing, name) ==
            if FindAttribute(docs, thing, name).None? && AttributeOf(thing, name)(x) then Some(x)
            else FindAttribute(docs, thing, name)
  {
    FindAppend(docs, x, AttributeOf(thing, name));
  }

  /** A check that is satisfied stays satisfied when records are appended. */
  lemma SatisfiedAppend(docs: seq<PrivDoc>, x: PrivDoc, thing: Id, name: string, values: seq<string>)
    requires Verdict(docs, thing, name, values) == Checked(true)
    ensures Verdict(docs + [x], thing, name, values) == Checked(true)
  {
    FindAttributeAppend(docs, x, thing, name);
    var a := FindAttribute(docs, thing, name).value;
    var v :| v in values && v in AcceptedValues(docs, a.id);
    var d :| d in docs && ValueOf(a.id)(d) && d.value == v;
    assert d in docs + [x];
    assert v in AcceptedValues(docs + [x], a.id);
  }

  /** Assigning an offered value to the attribute a check uses makes that check pass. */
  lemma AssignedValueSatisfies(docs: seq<PrivDoc>, thing: Id, name: string, id: Id, value: string, values: seq<string>)
    requires FindAttribute(docs, thing, name).Some? && value in values
    ensures var a := FindAttribute(docs, thing, name).value;
            Verdict(docs + [AttrValue(id, a.id, value)], thing, name, values) == Checked(true)
  {
    var a := FindAttribute(docs, thing, name).value;
    var v := AttrValue(id, a.id, value);
    var s := docs + [v];
    assert Find(s, AttributeOf(thing, name)) == Find(docs, AttributeOf(thing, name)) by {
      FindAppend(docs, v, AttributeOf(thing, name));
    }
    assert v in s && ValueOf(a.id)(v);
    assert value in AcceptedValues(s, a.id);
  }

  /** Deleting the only attribute `name` of `thing` makes every later check of
      it pass, whatever values are offered, even though its accepted values
      stay in the store. */
  lemma DeletedAttributeFailsOpen(docs: seq<PrivDoc>, thing: Id, name: string, values: seq<string>)
    requires |Filter(docs, AttributeOf(thing, name))| == 1
    ensures Verdict(RemoveFirst(docs, AttributeOf(thing, name)), thing, name, values) == Absent
    ensures Filter(RemoveFirst(docs, AttributeOf(thing, name)), IsValue) == Filter(docs, IsValue)
  {
    var p := AttributeOf(thing, name);
    var rest := RemoveFirst(docs, p);
    FilterRemoveFirst(docs, p);
    FindFilter(rest, p);
    FilterRemoveFirstOther(docs, p, IsValue);
  }

  /** With two attributes of the same name, deleting one leaves the other in
      force: checks then use the second attribute and its own values. */
  lemma DuplicateSurvivesDelete(docs: seq<PrivDoc>, thing: Id, name: string)
    requires |Filter(docs, AttributeOf(thing, name))| >= 2
    ensures FindAttribute(RemoveFirst(docs, AttributeOf(thing, name)), thing, name)
            == Some(Filter(docs, AttributeOf(thing, name))[1])
  {
    var p := AttributeOf(thing, name);
    var rest := RemoveFirst(docs, p);
    FilterRemoveFirst(docs, p);
    FindFilter(rest, p);
  }

  class PrivacyControllingConcept {
    /** The collection holding both `privacyAttributes` and `attributeValues`. */
    var docs: seq<PrivDoc>
    /** The id the next `createOne` hands out. */
    var nextId: nat

    ghost predicate Valid()
      reads this
    {
      FreshIds(docs, IdOf, nextId)
    }

    constructor ()
      ensures Valid() && docs == [] && nextId == 0
    {
      docs, nextId := [], 0;
    }

    /** Appends the attribute `attributeName` of `thing`, even when one of that
        name exists, and returns the stored record. */
    method CreateAttribute(thing: Id, attributeName: string) returns (attribute: Option<PrivDoc>)
      requires Valid()
      modifies this
      ensures Valid()
      ensures var a := Attribute(old(nextId), thing, attributeName);
              attribute == Some(a) && docs == old(docs) + [a] && nextId == old(nextId) + 1
    {
      var a := Attribute(nextId, thing, attributeName);
      ViewHasId();
      ReadNew(docs, a, View, IdOf, nextId);
      var id := nextId;
      docs, nextId := docs + [a], nextId + 1;
      attribute := ReadOne(docs, View, IdQuery(id));
    }

    /** Fails with NotFound when `thing` has no attribute `attributeName`;
        otherwise appends `value` as accepted by its first such attribute. */
    method AssignAttribute(thing: Id, attributeName: string, value: string) returns (r: Outcome)
      requires Valid()
      modifies this
      ensures Valid()
      ensures FindAttribute(old(docs), thing, attributeName).None? ==>
                r == Fail(NotFound) && docs == old(docs) && nextId == old(nextId)
      ensures FindAttribute(old(docs), thing, attributeName).Some? ==>
                var a := FindAttribute(old(docs), thing, attributeName).value;
                r == Pass && docs == old(docs) + [AttrValue(old(nextId), a.id, value)] &&
                nextId == old(nextId) + 1
    {
      var attribute := ReadOne(docs, View, AttrQuery(thing, attributeName));
      ReadAttribute(docs, thing, attributeName);
      if attribute.None? {
        return Fail(NotFound);
      }
      var v := AttrValue(nextId, attribute.value.id, value);
      FreshIdsAppend(docs, v, IdOf, nextId);
      docs, nextId := docs + [v], nextId + 1;
      r := Pass;
    }

    /** Absent when `thing` has no attribute `attributeName`; otherwise whether
        any of `values` is accepted by its first such attribute. */
    method AnyValueSatisfies(thing: Id, attributeName: string, values: seq<string>) returns (r: Check)
      ensures r == Verdict(docs, thing, attributeName, values)
    {
      var attribute := ReadOne(docs, View, AttrQuery(thing, attributeName));
      ReadAttribute(docs, thing, attributeName);
      if attribute.None? {
        return Absent;
      }
      var found := ScanValues(attribute.value.id, values);
      r := Checked(found);
    }

    /** Fails with `Unsatisfied(attributeName, values)` exactly when `thing` has
        an attribute `attributeName` that accepts none of `values`. */
    method AssertAnyValueSatisfies(thing: Id, attributeName: string, values: seq<string>) returns (r: Outcome)
      ensures Passes(Verdict(docs, thing, attributeName, values)) ==> r == Pass
      ensures !Passes(Verdict(docs, thing, attributeName, values)) ==>
                r == Fail(Unsatisfied(attributeName, values))
    {
      var attribute := ReadOne(docs, View, AttrQuery(thing, attributeName));
      ReadAttribute(docs, thing, attributeName);
      if attribute.None? {
        return Pass;
      }
      var found := ScanValues(attribute.value.id, values);
      if !found {
        return Fail(Unsatisfied(attributeName, values));
      }
      r := Pass;
    }

    /** The nested loops shared by `anyValueSatisfies` and
        `assertAnyValueSatisfies`: whether some accepted value of the
        attribute with id `oid` is among `values`. */
    method ScanValues(oid: Id, values: seq<string>) returns (found: bool)
      ensures found == Satisfied(docs, oid, values)
    {
      var curAttributeValues := ReadMany(docs, View, ValuesQuery(oid));
      ReadValues(docs, oid);
      found := false;
      for i := 0 to |curAttributeValues|
        invariant found == HitBefore(curAttributeValues, values, i)
      {
        HitStep(curAttributeValues, values, i);
        for j := 0 to |values|
          invariant found == (HitBefore(curAttributeValues, values, i) || HitUpTo(curAttributeValues[i], values, j))
        {
          if values[j] == curAttributeValues[i].value {
            found := true;
          }
        }
      }
      HitDone(docs, oid, values, curAttributeValues);
    }

    /** Removes the first attribute `attributeName` of `thing`, if any; its
        accepted values stay. */
    method DeleteAttribute(thing: Id, attributeName: string)
      requires Valid()
      modifies this
      ensures Valid() && nextId == old(nextId)
      ensures docs == RemoveFirst(old(docs), AttributeOf(thing, attributeName))
      ensures Filter(docs, IsValue) == Filter(old(docs), IsValue)
    {
      AttrQueryMeans(thing, attributeName);
      RemoveFirstExt(docs, Matching(View, AttrQuery(thing, attributeName)), AttributeOf(thing, attributeName));
      FreshIdsRemoveFirst(docs, AttributeOf(thing, attributeName), IdOf, nextId);
      FilterRemoveFirstOther(docs, AttributeOf(thing, attributeName), IsValue);
      docs := DeleteOne(docs, View, AttrQuery(thing, attributeName));
    }

    /** Every attribute of `thing`, in store order; never a value record. */
    function GetAttributes(thing: Id): (r: seq<PrivDoc>)
      reads this
      ensures r == Filter(docs, AttributesOf(thing))
      ensures forall d :: d in r ==> d.Attribute?
    {
      ThingQueryMeans(thing);
      FilterExt(docs, Matching(View, ThingQuery(thing)), AttributesOf(thing));
      ReadMany(docs, View, ThingQuery(thing))
    }

    /** NotFound when `thing` has no attribute `attributeName`; otherwise the
        value records of its first such attribute. */
    function GetAttributeValues(thing: Id, attributeName: string): (r: Result<seq<PrivDoc>>)
      reads this
      ensures FindAttribute(docs, thing, attributeName).None? ==> r == Err(NotFound)
      ensures FindAttribute(docs, thing, attributeName).Some? ==>
                r == Ok(Filter(docs, ValueOf(FindAttribute(docs, thing, attributeName).value.id)))
    {
      ReadAttribute(docs, thing, attributeName);
      var attribute := ReadOne(docs, View, AttrQuery(thing, attributeName));
      if attribute.None? then Err(NotFound)
      else
        ReadValues(docs, attribute.value.id);
        Ok(ReadMany(docs, View, ValuesQuery(attribute.value.id)))
    }
  }
}
