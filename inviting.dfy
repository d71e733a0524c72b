/** The invitation ledger, `InvitingConcept`: a user holds invitations to
    things; an invitation is consumed by deleting it. */
module Inviting {
  import opened Seqs
  import opened Errors
  import opened Docs

  /** `InviteDoc`: `user` is invited to `thing`. */
  datatype Invite = Invite(id: Id, user: Id, thing: Id)

  function IdOf(d: Invite): Id {
    d.id
  }

  /** The record as the store sees it. */
  function View(d: Invite): Doc {
    map["_id" := IdV(d.id), "user" := IdV(d.user), "thing" := IdV(d.thing)]
  }

  lemma ViewHasId()
    ensures HasIdField(View, IdOf)
  {
  }

  /** The invitations held by `user`. */
  function HeldBy(user: Id): Invite -> bool {
    (d: Invite) => d.user == user
  }

  /** The invitations of `user` to `thing`. */
  function InviteFor(user: Id, thing: Id): Invite -> bool {
    (d: Invite) => d.user == user && d.thing == thing
  }

  function UserQuery(user: Id): Query {
    map["user" := IdV(user)]
  }

  function InviteQuery(user: Id, thing: Id): Query {
    map["user" := IdV(user), "thing" := IdV(thing)]
  }

  /** `readMany({ user })` selects exactly the invitations of `user`. */
  lemma ReadHeld(docs: seq<Invite>, user: Id)
    ensures ReadMany(docs, View, UserQuery(user)) == Filter(docs, HeldBy(user))
  {
    forall d ensures Matching(View, UserQuery(user))(d) == HeldBy(user)(d) {
      MatchesOne(View(d), "user", IdV(user));
    }
    FilterExt(docs, Matching(View, UserQuery(user)), HeldBy(user));
  }

  lemma InviteQueryMeans(user: Id, thing: Id)
    ensures forall d :: Matching(View, InviteQuery(user, thing))(d) == InviteFor(user, thing)(d)
  {
    forall d ensures Matching(View, InviteQuery(user, thing))(d) == InviteFor(user, thing)(d) {
      MatchesTwo(View(d), "user", IdV(user), "thing", IdV(thing));
    }
  }

  /** `user` holds at least one invitation to `thing`. */
  predicate HasInvite(docs: seq<Invite>, user: Id, thing: Id) {
    exists d :: d in docs && d.user == user && d.thing == thing
  }

  /** The invitations of `user`, newest first: `readMany` sorted by `_id`
      descending. With increasing ids in store order this is the store order
      reversed. */
  function NewestFirst(docs: seq<Invite>, user: Id): seq<Invite> {
    Reverse(Filter(docs, HeldBy(user)))
  }

  /** Under fresh ids, `NewestFirst` lists exactly the invitations of `user`,
      with strictly decreasing ids. */
  lemma NewestFirstSorted(docs: seq<Invite>, next: nat, user: Id)
    requires FreshIds(docs, IdOf, next)
    ensures var r := NewestFirst(docs, user);
            (forall d :: d in r <==> d in docs && d.user == user) &&
            forall i, j :: 0 <= i < j < |r| ==> r[i].id > r[j].id
  {
    var f := Filter(docs, HeldBy(user));
    var r := Reverse(f);
    FreshIdsFilter(docs, HeldBy(user), IdOf, next);
    ReverseMembers(f);
    forall i, j | 0 <= i < j < |r| ensures r[i].id > r[j].id {
      assert IdBefore(IdOf)(f[|f| - 1 - j], f[|f| - 1 - i]);
    }
  }

  /** Inviting a user twice to a thing and consuming one invitation leaves the
      user invited. */
  lemma InviteTwiceDeleteOnce(docs: seq<Invite>, a: Id, b: Id, user: Id, thing: Id)
    ensures HasInvite(RemoveFirst(docs + [Invite(a, user, thing)] + [Invite(b, user, thing)], InviteFor(user, thing)), user, thing)
  {
    var p := InviteFor(user, thing);
    var s := docs + [Invite(a, user, thing)] + [Invite(b, user, thing)];
    FilterAppend(docs, Invite(a, user, thing), p);
    FilterAppend(docs + [Invite(a, user, thing)], Invite(b, user, thing), p);
    FilterRemoveFirst(s, p);
    var rest := Filter(RemoveFirst(s, p), p);
    assert rest[|rest| - 1] in rest;
  }

  /** Consuming an invitation removes one invitation and only that one. */
  lemma DeleteConsumesOne(docs: seq<Invite>, user: Id, thing: Id)
    requires HasInvite(docs, user, thing)
    ensures var p := InviteFor(user, thing);
            |Filter(RemoveFirst(docs, p), p)| == |Filter(docs, p)| - 1
  {
    var p := InviteFor(user, thing);
    var d :| d in docs && d.user == user && d.thing == thing;
    assert d in Filter(docs, p);
    FilterRemoveFirst(docs, p);
  }

  /** `deleteInvite` looks the invitation up by (user, thing) and deletes it by
      `_id`; with fresh ids that removes exactly the first invitation of `user`
      to `thing`. */
  lemma ConsumeInvite(docs: seq<Invite>, next: nat, user: Id, thing: Id)
    requires FreshIds(docs, IdOf, next)
    ensures var found := ReadOne(docs, View, InviteQuery(user, thing));
            (found.Some? <==> HasInvite(docs, user, thing)) &&
            (found.Some? ==>
               DeleteOne(docs, View, IdQuery(found.value.id)) == RemoveFirst(docs, InviteFor(user, thing)) &&
               FreshIds(RemoveFirst(docs, InviteFor(user, thing)), IdOf, next))
  {
    InviteQueryMeans(user, thing);
    ViewHasId();
    DeleteFoundById(docs, View, IdOf, next, InviteQuery(user, thing), InviteFor(user, thing));
  }

  class InvitingConcept {
    /** The `invites` collection. */
    var docs: seq<Invite>
    /** The id the next `createOne` hands out. */
    var nextId: nat

    ghost predicate Valid()
      reads this
    {
      FreshIds(docs, IdOf, nextId)
    }

    constructor ()
      ensures Valid() && docs == [] && nextId == 0
    {
      docs, nextId := [], 0;
    }

    /** Stores a new invitation of `user` to `thing`, even if one exists, and returns it. */
    method InviteUser(user: Id, thing: Id) returns (invite: Option<Invite>)
      requires Valid()
      modifies this
      ensures Valid()
      ensures var d := Invite(old(nextId), user, thing);
              invite == Some(d) && docs == old(docs) + [d] && nextId == old(nextId) + 1
    {
      var d := Invite(nextId, user, thing);
      ViewHasId();
      ReadNew(docs, d, View, IdOf, nextId);
      var id := nextId;
      docs, nextId := docs + [d], nextId + 1;
      invite := ReadOne(docs, View, IdQuery(id));
    }

    /** NotFound when `user` holds no invitation to `thing`; otherwise removes
        the first such invitation, by its id. */
    method DeleteInvite(user: Id, thing: Id) returns (r: Outcome)
      requires Valid()
      modifies this
      ensures Valid() && nextId == old(nextId)
      ensures !HasInvite(old(docs), user, thing) ==> r == Fail(NotFound) && docs == old(docs)
      ensures HasInvite(old(docs), user, thing) ==>
                r == Pass && docs == RemoveFirst(old(docs), InviteFor(user, thing))
    {
      var invite := ReadOne(docs, View, InviteQuery(user, thing));
      ConsumeInvite(docs, nextId, user, thing);
      if invite.None? {
        return Fail(NotFound);
      }
      docs := DeleteOne(docs, View, IdQuery(invite.value.id));
      r := Pass;
    }

    /** The invitations of `user`, newest first. */
    function CheckInvites(user: Id): (r: seq<Invite>)
      reads this
      requires Valid()
      ensures forall d :: d in r <==> d in docs && d.user == user
      ensures forall i, j :: 0 <= i < j < |r| ==> r[i].id > r[j].id
    {
      ReadHeld(docs, user);
      NewestFirstSorted(docs, nextId, user);
      Reverse(ReadMany(docs, View, UserQuery(user)))
    }

    /** Pass when `user` holds an invitation to `thing`, NotFound otherwise. */
    method UserHasInvite(user: Id, thing: Id) returns (r: Outcome)
      requires Valid()
      ensures HasInvite(docs, user, thing) ==> r == Pass
      ensures !HasInvite(docs, user, thing) ==> r == Fail(NotFound)
    {
      var invites := CheckInvites(user);
      var found := false;
      for i := 0 to |invites|
        invariant found <==> exists k :: 0 <= k < i && invites[k].thing == thing
      {
        if thing == invites[i].thing {
          found := true;
        }
      }
      if !found {
        return Fail(NotFound);
      }
      r := Pass;
    }
  }
}
