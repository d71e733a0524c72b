/** The collaborator registry, `CollaboratingConcept`: which users
    collaborate on which objects. */
module Collaborating {
  import opened Seqs
  import opened Errors
  import opened Docs

  /** `CollaborateDoc`: `user` collaborates on `object`. */
  datatype Colab = Colab(id: Id, user: Id, obj: Id)

  function IdOf(d: Colab): Id {
    d.id
  }

  /** The record as the store sees it. */
  function View(d: Colab): Doc {
    map["_id" := IdV(d.id), "object" := IdV(d.obj), "user" := IdV(d.user)]
  }

  lemma ViewHasId()
    ensures HasIdField(View, IdOf)
  {
  }

  /** The collaborations of `user` on `object`. */
  function ColabFor(user: Id, obj: Id): Colab -> bool {
    (d: Colab) => d.user == user && d.obj == obj
  }

  /** The collaborations on `object`. */
  function OnObject(obj: Id): Colab -> bool {
    (d: Colab) => d.obj == obj
  }

  function ColabQuery(user: Id, obj: Id): Query {
    map["user" := IdV(user), "object" := IdV(obj)]
  }

  /** The filter `checkColab` and `assertColab` write: the user under the
      misspelt key `reciever`, which no record has. */
  function RecieverQuery(user: Id, obj: Id): Query {
    map["reciever" := IdV(user), "object" := IdV(obj)]
  }

  function ObjectQuery(obj: Id): Query {
    map["object" := IdV(obj)]
  }

  lemma ColabQueryMeans(user: Id, obj: Id)
    ensures forall d :: Matching(View, ColabQuery(user, obj))(d) == ColabFor(user, obj)(d)
  {
    forall d ensures Matching(View, ColabQuery(user, obj))(d) == ColabFor(user, obj)(d) {
      MatchesTwo(View(d), "user", IdV(user), "object", IdV(obj));
    }
  }

  /** The `reciever` filter matches no record, whatever the collection holds. */
  lemma RecieverQueryMatchesNothing(docs: seq<Colab>, user: Id, obj: Id)
    ensures ReadOne(docs, View, RecieverQuery(user, obj)).None?
  {
    forall d | d in docs ensures !Matches(View(d), RecieverQuery(user, obj)) {
      MatchesTwo(View(d), "reciever", IdV(user), "object", IdV(obj));
    }
  }

  /** `user` collaborates on `object`. */
  predicate IsColab(docs: seq<Colab>, user: Id, obj: Id) {
    exists d :: d in docs && d.user == user && d.obj == obj
  }

  /** `readOne({ user, object })` finds a record exactly when `user` collaborates on `object`. */
  lemma ReadColab(docs: seq<Colab>, user: Id, obj: Id)
    ensures ReadOne(docs, View, ColabQuery(user, obj)).Some? <==> IsColab(docs, user, obj)
  {
    ColabQueryMeans(user, obj);
    var d := ReadOne(docs, View, ColabQuery(user, obj));
    if IsColab(docs, user, obj) {
      var x :| x in docs && x.user == user && x.obj == obj;
      assert Matches(View(x), ColabQuery(user, obj));
    }
  }

  /** Adding a collaborator makes them one; removing one collaboration of a
      user who was added twice leaves them a collaborator. */
  lemma AddTwiceRemoveOnce(docs: seq<Colab>, a: Id, b: Id, user: Id, obj: Id)
    ensures IsColab(docs + [Colab(a, user, obj)], user, obj)
    ensures IsColab(RemoveFirst(docs + [Colab(a, user, obj)] + [Colab(b, user, obj)], ColabFor(user, obj)), user, obj)
  {
    var p := ColabFor(user, obj);
    var s := docs + [Colab(a, user, obj)] + [Colab(b, user, obj)];
    assert Colab(a, user, obj) in docs + [Colab(a, user, obj)];
    FilterAppend(docs, Colab(a, user, obj), p);
    FilterAppend(docs + [Colab(a, user, obj)], Colab(b, user, obj), p);
    FilterRemoveFirst(s, p);
    var rest := Filter(RemoveFirst(s, p), p);
    assert rest[|rest| - 1] in rest;
  }

  class CollaboratingConcept {
    /** The `collaborations` collection. */
    var docs: seq<Colab>
    /** The id the next `createOne` hands out. */
    var nextId: nat

    ghost predicate Valid()
      reads this
    {
      FreshIds(docs, IdOf, nextId)
    }

    constructor ()
      ensures Valid() && docs == [] && nextId == 0
    {
      docs, nextId := [], 0;
    }

    /** Stores `user` as a collaborator on `object`, even if they are one, and returns the record. */
    method AddColab(user: Id, obj: Id) returns (colab: Option<Colab>)
      requires Valid()
      modifies this
      ensures Valid()
      ensures var d := Colab(old(nextId), user, obj);
              colab == Some(d) && docs == old(docs) + [d] && nextId == old(nextId) + 1
    {
      var d := Colab(nextId, user, obj);
      ViewHasId();
      ReadNew(docs, d, View, IdOf, nextId);
      var id := nextId;
      docs, nextId := docs + [d], nextId + 1;
      colab := ReadOne(docs, View, IdQuery(id));
    }

    /** NotFound when `user` does not collaborate on `object`; otherwise removes
        the first such record, by its id. */
    method RemoveColab(user: Id, obj: Id) returns (r: Outcome)
      requires Valid()
      modifies this
      ensures Valid() && nextId == old(nextId)
      ensures !IsColab(old(docs), user, obj) ==> r == Fail(NotFound) && docs == old(docs)
      ensures IsColab(old(docs), user, obj) ==>
                r == Pass && docs == RemoveFirst(old(docs), ColabFor(user, obj))
    {
      var colab := ReadOne(docs, View, ColabQuery(user, obj));
      ColabQueryMeans(user, obj);
      ViewHasId();
      DeleteFoundById(docs, View, IdOf, nextId, ColabQuery(user, obj), ColabFor(user, obj));
      if colab.None? {
        return Fail(NotFound);
      }
      docs := DeleteOne(docs, View, IdQuery(colab.value.id));
      r := Pass;
    }

    /** `checkColab` as written: the `reciever` filter never matches, so the
        answer is always false. */
    method CheckColab(user: Id, obj: Id) returns (r: bool)
      ensures !r
    {
      var colab := ReadOne(docs, View, RecieverQuery(user, obj));
      RecieverQueryMatchesNothing(docs, user, obj);
      if colab.None? {
        return false;
      }
      r := true;
    }

    /** `checkColab` filtering on `user`: whether `user` collaborates on `object`. */
    method CheckColabIntended(user: Id, obj: Id) returns (r: bool)
      ensures r <==> IsColab(docs, user, obj)
    {
      var colab := ReadOne(docs, View, ColabQuery(user, obj));
      ReadColab(docs, user, obj);
      if colab.None? {
        return false;
      }
      r := true;
    }

    /** `assertColab` as written: always fails with NotAllowed. */
    method AssertColab(user: Id, obj: Id) returns (r: Outcome)
      ensures r == Fail(NotAllowed)
    {
      var colab := ReadOne(docs, View, RecieverQuery(user, obj));
      RecieverQueryMatchesNothing(docs, user, obj);
      if colab.None? {
        return Fail(NotAllowed);
      }
      r := Pass;
    }

    /** `assertColab` filtering on `user`: passes exactly for a collaborator. */
    method AssertColabIntended(user: Id, obj: Id) returns (r: Outcome)
      ensures IsColab(docs, user, obj) ==> r == Pass
      ensures !IsColab(docs, user, obj) ==> r == Fail(NotAllowed)
    {
      var colab := ReadOne(docs, View, ColabQuery(user, obj));
      ReadColab(docs, user, obj);
      if colab.None? {
        return Fail(NotAllowed);
      }
      r := Pass;
    }

    /** The collaborations on `object`, in store order. */
    function GetColabs(obj: Id): (r: seq<Colab>)
      reads this
      ensures r == Filter(docs, OnObject(obj))
    {
      forall d ensures Matching(View, ObjectQuery(obj))(d) == OnObject(obj)(d) {
        MatchesOne(View(d), "object", IdV(obj));
      }
      FilterExt(docs, Matching(View, ObjectQuery(obj)), OnObject(obj));
      ReadMany(docs, View, ObjectQuery(obj))
    }
  }
}
