/** The document collections every concept is built on (`DocCollection` of
    `framework/doc`). A collection is the sequence of its documents in
    insertion order. Every concept keeps documents of a typed record kind and
    supplies a `view` that shows a record as MongoDB sees it: a map from field
    names to values. A query is such a map too; a document matches when it
    HAS every field the query names, with an equal value. A query on a field
    the document lacks therefore never matches. */
module Docs {
  import opened Seqs
  import opened Errors

  /** An `ObjectId`. */
  type Id = nat

  datatype Value = IdV(id: Id) | StrV(str: string) | BoolV(b: bool)

  type Doc = map<string, Value>

  type Query = map<string, Value>

  predicate Matches(d: Doc, q: Query) {
    forall k :: k in q ==> k in d && d[k] == q[k]
  }

  /** The predicate "the document's view matches `q`". */
  function Matching<T>(view: T -> Doc, q: Query): T -> bool {
    x => Matches(view(x), q)
  }

  /** A one-field query matches exactly the documents having that field with that value. */
  lemma MatchesOne(d: Doc, k: string, v: Value)
    ensures Matches(d, map[k := v]) <==> k in d && d[k] == v
  {
    assert k in map[k := v];
  }

  /** A two-field query is the conjunction of its fields. */
  lemma MatchesTwo(d: Doc, k1: string, v1: Value, k2: string, v2: Value)
    requires k1 != k2
    ensures Matches(d, map[k1 := v1, k2 := v2]) <==> k1 in d && d[k1] == v1 && k2 in d && d[k2] == v2
  {
    var q := map[k1 := v1, k2 := v2];
    assert k1 in q && k2 in q && q[k1] == v1 && q[k2] == v2;
  }

  /** The empty query matches every document. */
  lemma MatchesEmpty(d: Doc)
    ensures Matches(d, map[])
  {
  }

  /** `readMany(q)`: every matching document, in store order. */
  function ReadMany<T(!new)>(s: seq<T>, view: T -> Doc, q: Query): (r: seq<T>)
    ensures forall x :: x in r <==> x in s && Matches(view(x), q)
  {
    Filter(s, Matching(view, q))
  }

  /** `readOne(q)`: the first matching document, or none (`null`). */
  function ReadOne<T(!new)>(s: seq<T>, view: T -> Doc, q: Query): (r: Option<T>)
    ensures r.None? <==> ReadMany(s, view, q) == []
    ensures r.None? <==> forall x :: x in s ==> !Matches(view(x), q)
    ensures r.Some? ==> r.value == ReadMany(s, view, q)[0]
  {
    FindFilter(s, Matching(view, q));
    var i := Find(s, Matching(view, q));
    if i == |s| then None else Some(s[i])
  }

  /** `deleteOne(q)`: the collection without its first matching document. */
  function DeleteOne<T(!new)>(s: seq<T>, view: T -> Doc, q: Query): (r: seq<T>)
    ensures ReadOne(s, view, q).None? ==> r == s
    ensures ReadOne(s, view, q).Some? ==> |r| == |s| - 1 && multiset(r) == multiset(s) - multiset{ReadOne(s, view, q).value}
  {
    RemoveFirstMultiset(s, Matching(view, q));
    RemoveFirst(s, Matching(view, q))
  }

  /** `id(a) < id(b)`. */
  function IdBefore<T>(id: T -> Id): (T, T) -> bool {
    (a, b) => id(a) < id(b)
  }

  /** The ids of a collection strictly increase in store order and are all
      below the next id to be handed out: ids are fresh and unique. */
  ghost predicate FreshIds<T>(s: seq<T>, id: T -> Id, next: nat) {
    Pairwise(s, IdBefore(id)) && forall x :: x in s ==> id(x) < next
  }

  /** `createOne` appends a document with the next id and keeps ids fresh. */
  lemma FreshIdsAppend<T>(s: seq<T>, x: T, id: T -> Id, next: nat)
    requires FreshIds(s, id, next) && id(x) == next
    ensures FreshIds(s + [x], id, next + 1)
  {
    PairwiseAppend(s, x, IdBefore(id));
  }

  /** Removing any one document keeps ids fresh. */
  lemma FreshIdsRemoveFirst<T>(s: seq<T>, p: T -> bool, id: T -> Id, next: nat)
    requires FreshIds(s, id, next)
    ensures FreshIds(RemoveFirst(s, p), id, next)
  {
    PairwiseRemoveFirst(s, p, IdBefore(id));
    RemoveFirstSubset(s, p);
  }

  /** A filtered collection keeps its ids increasing. */
  lemma FreshIdsFilter<T(!new)>(s: seq<T>, p: T -> bool, id: T -> Id, next: nat)
    requires FreshIds(s, id, next)
    ensures FreshIds(Filter(s, p), id, next)
  {
    PairwiseFilter(s, p, IdBefore(id));
  }

  /** With fresh ids, the first document whose id is that of `s[k]` is `s[k]` itself. */
  lemma FindById<T>(s: seq<T>, id: T -> Id, next: nat, p: T -> bool, k: nat)
    requires FreshIds(s, id, next) && k < |s|
    requires forall x :: x in s ==> (p(x) <==> id(x) == id(s[k]))
    ensures Find(s, p) == k
  {
  }

  /** The view shows a record's id as its `_id` field. */
  ghost predicate HasIdField<T(!new)>(view: T -> Doc, id: T -> Id) {
    forall x :: "_id" in view(x) && view(x)["_id"] == IdV(id(x))
  }

  /** The query `{ _id }`. */
  function IdQuery(i: Id): Query {
    map["_id" := IdV(i)]
  }

  /** With fresh ids, `readOne({ _id })` and `deleteOne({ _id })` on the id of
      `s[k]` find and remove exactly `s[k]`. */
  lemma ById<T(!new)>(s: seq<T>, view: T -> Doc, id: T -> Id, next: nat, k: nat)
    requires HasIdField(view, id) && FreshIds(s, id, next) && k < |s|
    ensures ReadOne(s, view, IdQuery(id(s[k]))) == Some(s[k])
    ensures DeleteOne(s, view, IdQuery(id(s[k]))) == s[..k] + s[k + 1..]
  {
    var p := Matching(view, IdQuery(id(s[k])));
    forall x | x in s ensures p(x) <==> id(x) == id(s[k]) {
      MatchesOne(view(x), "_id", IdV(id(s[k])));
    }
    FindById(s, id, next, p, k);
    RemoveFirstSlices(s, p);
  }

  /** `readOne({ _id })` right after `createOne` returns the new document. */
  lemma ReadNew<T(!new)>(s: seq<T>, x: T, view: T -> Doc, id: T -> Id, next: nat)
    requires HasIdField(view, id) && FreshIds(s, id, next) && id(x) == next
    ensures FreshIds(s + [x], id, next + 1)
    ensures ReadOne(s + [x], view, IdQuery(next)) == Some(x)
  {
    FreshIdsAppend(s, x, id, next);
    ById(s + [x], view, id, next + 1, |s|);
  }

  /** Reading the first match of `q` and then deleting by its `_id`, as
      `deleteInvite` and `removeColab` do, removes exactly the first record
      satisfying `p`, the predicate `q` stands for; fresh ids are kept. */
  lemma DeleteFoundById<T(!new)>(s: seq<T>, view: T -> Doc, id: T -> Id, next: nat, q: Query, p: T -> bool)
    requires HasIdField(view, id) && FreshIds(s, id, next)
    requires forall x :: Matching(view, q)(x) == p(x)
    ensures ReadOne(s, view, q).Some? <==> exists x :: x in s && p(x)
    ensures ReadOne(s, view, q).Some? ==>
              DeleteOne(s, view, IdQuery(id(ReadOne(s, view, q).value))) == RemoveFirst(s, p)
    ensures FreshIds(RemoveFirst(s, p), id, next)
  {
    FindExt(s, Matching(view, q), p);
    FindExists(s, p);
    FreshIdsRemoveFirst(s, p, id, next);
    var k := Find(s, p);
    if k < |s| {
      ById(s, view, id, next, k);
      RemoveFirstSlices(s, p);
    }
  }
}
