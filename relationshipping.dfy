/** The relation registry, `RelationshippingConcept`: an owner defines named
    relation types and attaches targets to them as membership edges. Both
    kinds of record live in the concept's one collection. */
module Relationshipping {
  import opened Seqs
  import opened Errors
  import opened Docs

  datatype RelDoc =
      /** `RelationshipDoc`: the relation type `relationName` defined by `user` */
    | RelationType(id: Id, user: Id, relationName: string)
      /** `RelatedUsersDoc`: `target` holds the relation type whose id is `relationship` */
    | Membership(id: Id, relationship: Id, target: Id)

  function IdOf(d: RelDoc): Id {
    d.id
  }

  /** The record as the store sees it. */
  function View(d: RelDoc): Doc {
    match d
    case RelationType(id, user, name) =>
      map["_id" := IdV(id), "user" := IdV(user), "relationName" := StrV(name)]
    case Membership(id, rel, target) =>
      map["_id" := IdV(id), "relationship" := IdV(rel), "target" := IdV(target)]
  }

  lemma ViewHasId()
    ensures HasIdField(View, IdOf)
  {
  }

  // The records each query of the concept is meant to select.

  /** The relation types defined by `owner`. */
  function OwnedBy(owner: Id): RelDoc -> bool {
    (d: RelDoc) => d.RelationType? && d.user == owner
  }

  /** The relation type `name` of `owner`. */
  function Named(owner: Id, name: string): RelDoc -> bool {
    (d: RelDoc) => d.RelationType? && d.user == owner && d.relationName == name
  }

  /** The memberships of the relation type with id `rel`. */
  function MemberOf(rel: Id): RelDoc -> bool {
    (d: RelDoc) => d.Membership? && d.relationship == rel
  }

  /** The memberships of the relation type with id `rel` for `target`. */
  function Edge(rel: Id, target: Id): RelDoc -> bool {
    (d: RelDoc) => d.Membership? && d.relationship == rel && d.target == target
  }

  predicate IsMembership(d: RelDoc) {
    d.Membership?
  }

  // The queries as the concept writes them.

  function UserQuery(owner: Id): Query {
    map["user" := IdV(owner)]
  }

  function NameQuery(owner: Id, name: string): Query {
    map["user" := IdV(owner), "relationName" := StrV(name)]
  }

  function RelationshipQuery(rel: Id): Query {
    map["relationship" := IdV(rel)]
  }

  function EdgeQuery(rel: Id, target: Id): Query {
    map["relationship" := IdV(rel), "target" := IdV(target)]
  }

  lemma UserQueryMeans(owner: Id)
    ensures forall d :: Matching(View, UserQuery(owner))(d) == OwnedBy(owner)(d)
  {
    forall d ensures Matching(View, UserQuery(owner))(d) == OwnedBy(owner)(d) {
      MatchesOne(View(d), "user", IdV(owner));
    }
  }

  lemma NameQueryMeans(owner: Id, name: string)
    ensures forall d :: Matching(View, NameQuery(owner, name))(d) == Named(owner, name)(d)
  {
    forall d ensures Matching(View, NameQuery(owner, name))(d) == Named(owner, name)(d) {
      MatchesTwo(View(d), "user", IdV(owner), "relationName", StrV(name));
    }
  }

  lemma RelationshipQueryMeans(rel: Id)
    ensures forall d :: Matching(View, RelationshipQuery(rel))(d) == MemberOf(rel)(d)
  {
    forall d ensures Matching(View, RelationshipQuery(rel))(d) == MemberOf(rel)(d) {
      MatchesOne(View(d), "relationship", IdV(rel));
    }
  }

  lemma EdgeQueryMeans(rel: Id, target: Id)
    ensures forall d :: Matching(View, EdgeQuery(rel, target))(d) == Edge(rel, target)(d)
  {
    forall d ensures Matching(View, EdgeQuery(rel, target))(d) == Edge(rel, target)(d) {
      MatchesTwo(View(d), "relationship", IdV(rel), "target", IdV(target));
    }
  }

  /** The first relation type `name` of `owner` in the store, if any. */
  function FindType(docs: seq<RelDoc>, owner: Id, name: string): (r: Option<RelDoc>)
    ensures r.None? <==> forall d :: d in docs ==> !Named(owner, name)(d)
    ensures r.Some? ==> r.value in docs && r.value.RelationType? &&
                        r.value.user == owner && r.value.relationName == name
  {
    var i := Find(docs, Named(owner, name));
    if i == |docs| then None else Some(docs[i])
  }

  /** `readOne({ user, relationName })` finds exactly `FindType`. */
  lemma ReadType(docs: seq<RelDoc>, owner: Id, name: string)
    ensures ReadOne(docs, View, NameQuery(owner, name)) == FindType(docs, owner, name)
  {
    NameQueryMeans(owner, name);
    FindExt(docs, Matching(View, NameQuery(owner, name)), Named(owner, name));
  }

  /** Two different records never define the same name for the same owner. */
  predicate DistinctTypes(a: RelDoc, b: RelDoc) {
    !(a.RelationType? && b.RelationType? && a.user == b.user && a.relationName == b.relationName)
  }

  /** The concept's invariant: fresh ids, and no two relation types share an (owner, name) pair. */
  ghost predicate Invariant(docs: seq<RelDoc>, next: nat) {
    FreshIds(docs, IdOf, next) && Pairwise(docs, DistinctTypes)
  }

  lemma InvariantAppend(docs: seq<RelDoc>, next: nat, x: RelDoc)
    requires Invariant(docs, next) && x.id == next
    requires forall y :: y in docs ==> DistinctTypes(y, x)
    ensures Invariant(docs + [x], next + 1)
  {
    FreshIdsAppend(docs, x, IdOf, next);
    PairwiseAppend(docs, x, DistinctTypes);
  }

  lemma InvariantRemoveFirst(docs: seq<RelDoc>, next: nat, p: RelDoc -> bool)
    requires Invariant(docs, next)
    ensures Invariant(RemoveFirst(docs, p), next)
  {
    FreshIdsRemoveFirst(docs, p, IdOf, next);
    PairwiseRemoveFirst(docs, p, DistinctTypes);
  }

  /** Under the invariant an owner has at most one relation type of each name. */
  lemma {:induction false} AtMostOneType(docs: seq<RelDoc>, owner: Id, name: string)
    requires Pairwise(docs, DistinctTypes)
    ensures |Filter(docs, Named(owner, name))| <= 1
  {
    if docs != [] {
      PairwiseTail(docs, DistinctTypes);
      AtMostOneType(docs[1..], owner, name);
      if Named(owner, name)(docs[0]) {
        forall y | y in docs[1..] ensures !Named(owner, name)(y) {
          assert DistinctTypes(docs[0], y);
        }
        FilterNone(docs[1..], Named(owner, name));
      }
    }
  }

  /** Deleting relation type (owner, name) leaves no such type: afterwards
      `relate`, `unrelate` and `getRelatedUsers` with that name fail with NotFound. */
  lemma DeletedTypeGone(docs: seq<RelDoc>, owner: Id, name: string)
    requires Pairwise(docs, DistinctTypes)
    ensures FindType(RemoveFirst(docs, Named(owner, name)), owner, name).None?
  {
    var p := Named(owner, name);
    var rest := RemoveFirst(docs, p);
    FilterRemoveFirst(docs, p);
    AtMostOneType(docs, owner, name);
    FindFilter(rest, p);
  }

  /** Deleting a relation type does not cascade: every membership row stays. */
  lemma DeleteKeepsMemberships(docs: seq<RelDoc>, owner: Id, name: string)
    ensures Filter(RemoveFirst(docs, Named(owner, name)), IsMembership) == Filter(docs, IsMembership)
  {
    FilterRemoveFirstOther(docs, Named(owner, name), IsMembership);
  }

  /** Relating the same target twice and unrelating once leaves one more edge than before. */
  lemma RelateTwiceUnrelateOnce(docs: seq<RelDoc>, rel: Id, target: Id, a: Id, b: Id)
    ensures var e := Edge(rel, target);
            |Filter(RemoveFirst(docs + [Membership(a, rel, target)] + [Membership(b, rel, target)], e), e)|
            == |Filter(docs, e)| + 1
  {
    var e := Edge(rel, target);
    var twice := docs + [Membership(a, rel, target)] + [Membership(b, rel, target)];
    FilterAppend(docs, Membership(a, rel, target), e);
    FilterAppend(docs + [Membership(a, rel, target)], Membership(b, rel, target), e);
    FilterRemoveFirst(twice, e);
  }

  /** Relation type `t` has a membership for `target`. */
  function Linked(docs: seq<RelDoc>, owner: Id, target: Id): RelDoc -> bool {
    (d: RelDoc) => d.RelationType? && d.user == owner && exists m :: m in docs && Edge(d.id, target)(m)
  }

  /** The relation types of `owner` that link to `target`, in store order:
      what `getRelationship` is meant to return. */
  function SharedRelations(docs: seq<RelDoc>, owner: Id, target: Id): (r: seq<RelDoc>)
    ensures forall t :: t in r <==>
      t in docs && t.RelationType? && t.user == owner && exists m :: m in docs && Edge(t.id, target)(m)
  {
    Filter(docs, Linked(docs, owner, target))
  }

  /** The membership lookup of the loop in `getRelationship` decides `Linked`. */
  lemma CheckRelationMeans(docs: seq<RelDoc>, owner: Id, target: Id, t: RelDoc)
    requires t.RelationType? && t.user == owner
    ensures ReadOne(docs, View, EdgeQuery(t.id, target)).Some? <==> Linked(docs, owner, target)(t)
  {
    EdgeQueryMeans(t.id, target);
  }

  /** `readMany({ user })` selects exactly the relation types of `owner`. */
  lemma ReadOwned(docs: seq<RelDoc>, owner: Id)
    ensures ReadMany(docs, View, UserQuery(owner)) == Filter(docs, OwnedBy(owner))
  {
    UserQueryMeans(owner);
    FilterExt(docs, Matching(View, UserQuery(owner)), OwnedBy(owner));
  }

  /** After the last iteration the loop in `getRelationship` has collected `SharedRelations`. */
  lemma LinkDone(docs: seq<RelDoc>, owner: Id, target: Id, owned: seq<RelDoc>)
    requires owned == Filter(docs, OwnedBy(owner))
    ensures Filter(owned[..|owned|], Linked(docs, owner, target)) == SharedRelations(docs, owner, target)
  {
    assert owned[..|owned|] == owned;
    FilterFilter(docs, OwnedBy(owner), Linked(docs, owner, target));
  }

  /** One iteration of the loop in `getRelationship`: the membership lookup
      decides whether the `i`-th relation type of the owner is collected. */
  lemma LinkStep(docs: seq<RelDoc>, owner: Id, target: Id, owned: seq<RelDoc>, i: nat)
    requires owned == Filter(docs, OwnedBy(owner)) && i < |owned|
    ensures var found := ReadOne(docs, View, EdgeQuery(owned[i].id, target)).Some?;
            Filter(owned[..i + 1], Linked(docs, owner, target))
            == Filter(owned[..i], Linked(docs, owner, target)) + (if found then [owned[i]] else [])
  {
    assert OwnedBy(owner)(owned[i]);
    CheckRelationMeans(docs, owner, target, owned[i]);
    PrefixStep(owned, i, Linked(docs, owner, target));
  }

  /** After `relate`, the relation type links its owner to the target. */
  lemma RelatedAfterRelate(docs: seq<RelDoc>, t: RelDoc, id: Id, target: Id)
    requires t in docs && t.RelationType?
    ensures t in SharedRelations(docs + [Membership(id, t.id, target)], t.user, target)
  {
    var m := Membership(id, t.id, target);
    assert m in docs + [m] && Edge(t.id, target)(m);
  }

  /** Removing the only edge of a relation type for a target unlinks them. */
  lemma UnrelatedAfterLastEdge(docs: seq<RelDoc>, t: RelDoc, target: Id)
    requires t in docs && t.RelationType?
    requires |Filter(docs, Edge(t.id, target))| == 1
    ensures t !in SharedRelations(RemoveFirst(docs, Edge(t.id, target)), t.user, target)
  {
    var e := Edge(t.id, target);
    var rest := RemoveFirst(docs, e);
    FilterRemoveFirst(docs, e);
    assert Filter(rest, e) == [];
  }

  /** Under the invariant, the linked relation types carry pairwise different
      names: a name is reported once, however many edges hold it. */
  lemma SharedNamesDistinct(docs: seq<RelDoc>, owner: Id, target: Id)
    requires Pairwise(docs, DistinctTypes)
    ensures var r := SharedRelations(docs, owner, target);
            forall i, j :: 0 <= i < j < |r| ==> r[i].relationName != r[j].relationName
  {
    var r := SharedRelations(docs, owner, target);
    PairwiseFilter(docs, Linked(docs, owner, target), DistinctTypes);
    forall i, j | 0 <= i < j < |r| ensures r[i].relationName != r[j].relationName {
      assert DistinctTypes(r[i], r[j]);
    }
  }

  /** The names of a sequence of relation types, in order:
      `relations.map(x => x.relationName)`. */
  function RelationNames(rs: seq<RelDoc>): (r: seq<string>)
    requires forall d :: d in rs ==> d.RelationType?
    ensures |r| == |rs|
    ensures forall k :: 0 <= k < |rs| ==> r[k] == rs[k].relationName
  {
    if rs == [] then [] else [rs[0].relationName] + RelationNames(rs[1..])
  }

  /** The name of every linked relation type is among the names reported. */
  lemma SharedNameListed(docs: seq<RelDoc>, owner: Id, target: Id, t: RelDoc)
    requires t in SharedRelations(docs, owner, target)
    ensures t.relationName in RelationNames(SharedRelations(docs, owner, target))
  {
    var r := SharedRelations(docs, owner, target);
    var k :| 0 <= k < |r| && r[k] == t;
    assert RelationNames(r)[k] == t.relationName;
  }

  /** JavaScript's `b == null` for a boolean `b`: a boolean is never `null`. */
  predicate BooleanIsNull(b: bool) {
    false
  }

  class RelationshippingConcept {
    /** The collection holding both `relationTypes` and `relatedUsers`. */
    var docs: seq<RelDoc>
    /** The id the next `createOne` hands out. */
    var nextId: nat

    ghost predicate Valid()
      reads this
    {
      Invariant(docs, nextId)
    }

    constructor ()
      ensures Valid() && docs == [] && nextId == 0
    {
      docs, nextId := [], 0;
    }

    /** Fails with NotAllowed when `user` already has a relation type
        `relationName`; otherwise appends it and returns the stored record. */
    method CreateRelationship(user: Id, relationName: string) returns (r: Result<Option<RelDoc>>)
      requires Valid()
      modifies this
      ensures Valid()
      ensures FindType(old(docs), user, relationName).Some? ==>
                r == Err(NotAllowed) && docs == old(docs) && nextId == old(nextId)
      ensures FindType(old(docs), user, relationName).None? ==>
                var t := RelationType(old(nextId), user, relationName);
                r == Ok(Some(t)) && docs == old(docs) + [t] && nextId == old(nextId) + 1
    {
      var nameCheck := ReadMany(docs, View, NameQuery(user, relationName));
      ReadType(docs, user, relationName);
      if !(|nameCheck| == 0) {
        return Err(NotAllowed);
      }
      var t := RelationType(nextId, user, relationName);
      InvariantAppend(docs, nextId, t);
      ViewHasId();
      ReadNew(docs, t, View, IdOf, nextId);
      var id := nextId;
      docs, nextId := docs + [t], nextId + 1;
      r := Ok(ReadOne(docs, View, IdQuery(id)));
    }

    /** Fails with NotFound when `creator` has no relation type `relationName`;
        otherwise appends a membership of `target` in it, even if one exists. */
    method Relate(creator: Id, target: Id, relationName: string) returns (r: Outcome)
      requires Valid()
      modifies this
      ensures Valid()
      ensures FindType(old(docs), creator, relationName).None? ==>
                r == Fail(NotFound) && docs == old(docs) && nextId == old(nextId)
      ensures FindType(old(docs), creator, relationName).Some? ==>
                var t := FindType(old(docs), creator, relationName).value;
                r == Pass && docs == old(docs) + [Membership(old(nextId), t.id, target)] &&
                nextId == old(nextId) + 1
    {
      var relation := ReadOne(docs, View, NameQuery(creator, relationName));
      ReadType(docs, creator, relationName);
      if relation.None? {
        return Fail(NotFound);
      }
      var m := Membership(nextId, relation.value.id, target);
      InvariantAppend(docs, nextId, m);
      docs, nextId := docs + [m], nextId + 1;
      r := Pass;
    }

    /** Fails with NotFound when `creator` has no relation type `relationName`;
        otherwise removes the first membership of `target` in it, if any. */
    method Unrelate(creator: Id, target: Id, relationName: string) returns (r: Outcome)
      requires Valid()
      modifies this
      ensures Valid() && nextId == old(nextId)
      ensures FindType(old(docs), creator, relationName).None? ==>
                r == Fail(NotFound) && docs == old(docs)
      ensures FindType(old(docs), creator, relationName).Some? ==>
                var t := FindType(old(docs), creator, relationName).value;
                r == Pass && docs == RemoveFirst(old(docs), Edge(t.id, target))
    {
      var relation := ReadOne(docs, View, NameQuery(creator, relationName));
      ReadType(docs, creator, relationName);
      if relation.None? {
        return Fail(NotFound);
      }
      var relationship := relation.value.id;
      EdgeQueryMeans(relationship, target);
      RemoveFirstExt(docs, Matching(View, EdgeQuery(relationship, target)), Edge(relationship, target));
      InvariantRemoveFirst(docs, nextId, Edge(relationship, target));
      docs := DeleteOne(docs, View, EdgeQuery(relationship, target));
      r := Pass;
    }

    /** Removes the relation type (user, relationName), if any, and none of its memberships. */
    method DeleteRelationship(user: Id, relationName: string)
      requires Valid()
      modifies this
      ensures Valid() && nextId == old(nextId)
      ensures docs == RemoveFirst(old(docs), Named(user, relationName))
      ensures FindType(docs, user, relationName).None?
      ensures Filter(docs, IsMembership) == Filter(old(docs), IsMembership)
    {
      NameQueryMeans(user, relationName);
      RemoveFirstExt(docs, Matching(View, NameQuery(user, relationName)), Named(user, relationName));
      InvariantRemoveFirst(docs, nextId, Named(user, relationName));
      DeletedTypeGone(docs, user, relationName);
      DeleteKeepsMemberships(docs, user, relationName);
      docs := DeleteOne(docs, View, NameQuery(user, relationName));
    }

    /** `getRelationship` as written: the guard `!checkRelation == null` compares
        a boolean with `null` and never holds, so nothing is ever collected. */
    method GetRelationship(creator: Id, target: Id) returns (relations: seq<RelDoc>)
      ensures relations == []
    {
      var userRelations := ReadMany(docs, View, UserQuery(creator));
      var sharedRelations: seq<RelDoc> := [];
      for i := 0 to |userRelations|
        invariant sharedRelations == []
      {
        var curRelation := userRelations[i];
        var checkRelation := ReadOne(docs, View, EdgeQuery(curRelation.id, target));
        if BooleanIsNull(checkRelation.None?) {
          sharedRelations := sharedRelations + [curRelation];
        }
      }
      relations := sharedRelations;
    }

    /** `getRelationship` with the evident guard `checkRelation != null`: the
        relation types of `creator` that have a membership for `target`. */
    method GetRelationshipIntended(creator: Id, target: Id) returns (relations: seq<RelDoc>)
      ensures relations == SharedRelations(docs, creator, target)
    {
      var userRelations := ReadMany(docs, View, UserQuery(creator));
      ReadOwned(docs, creator);
      var sharedRelations: seq<RelDoc> := [];
      for i := 0 to |userRelations|
        invariant sharedRelations == Filter(userRelations[..i], Linked(docs, creator, target))
      {
        var curRelation := userRelations[i];
        var checkRelation := ReadOne(docs, View, EdgeQuery(curRelation.id, target));
        LinkStep(docs, creator, target, userRelations, i);
        if checkRelation.Some? {
          sharedRelations := sharedRelations + [curRelation];
        }
      }
      LinkDone(docs, creator, target, userRelations);
      relations := sharedRelations;
    }

    /** Exactly the relation types defined by `creator`, in store order. */
    function GetRelationships(creator: Id): (r: seq<RelDoc>)
      reads this
      ensures r == Filter(docs, OwnedBy(creator))
    {
      ReadOwned(docs, creator);
      ReadMany(docs, View, UserQuery(creator))
    }

    /** NotFound for an undefined relation type; otherwise every membership
        row of that type, duplicates included, in store order. */
    function GetRelatedUsers(creator: Id, relationName: string): (r: Result<seq<RelDoc>>)
      reads this
      ensures FindType(docs, creator, relationName).None? ==> r == Err(NotFound)
      ensures FindType(docs, creator, relationName).Some? ==>
                r == Ok(Filter(docs, MemberOf(FindType(docs, creator, relationName).value.id)))
    {
      ReadType(docs, creator, relationName);
      var relation := ReadOne(docs, View, NameQuery(creator, relationName));
      if relation.None? then Err(NotFound)
      else
        RelationshipQueryMeans(relation.value.id);
        FilterExt(docs, Matching(View, RelationshipQuery(relation.value.id)), MemberOf(relation.value.id));
        Ok(ReadMany(docs, View, RelationshipQuery(relation.value.id)))
    }
  }
}
