/** The reply store, `ReplyingConcept`: replies (text or image) and the links
    that attach a reply to an object. Replies and links live in the
    concept's one collection. */
module Replying {
  import opened Seqs
  import opened Errors
  import opened Docs

  datatype ReplyDoc =
      /** `ReplyDoc`: a reply with its content */
    | Reply(id: Id, content: string, isImage: bool)
      /** `ObjectRepliesDoc`: the reply with id `reply` is attached to `obj` */
    | ObjectReply(id: Id, obj: Id, reply: Id)

  function IdOf(d: ReplyDoc): Id {
    d.id
  }

  /** The record as the store sees it. */
  function View(d: ReplyDoc): Doc {
    match d
    case Reply(id, content, isImage) =>
      map["_id" := IdV(id), "content" := StrV(content), "isImage" := BoolV(isImage)]
    case ObjectReply(id, obj, reply) =>
      map["_id" := IdV(id), "object" := IdV(obj), "reply" := IdV(reply)]
  }

  lemma ViewHasId()
    ensures HasIdField(View, IdOf)
  {
  }

  // The records each query of the concept is meant to select.

  /** The record with id `i`, whatever its kind. */
  function HasId(i: Id): ReplyDoc -> bool {
    (d: ReplyDoc) => d.id == i
  }

  /** The links that attach the reply with id `reply` to anything. */
  function LinkTo(reply: Id): ReplyDoc -> bool {
    (d: ReplyDoc) => d.ObjectReply? && d.reply == reply
  }

  /** The links that attach the reply with id `reply` to `obj`. */
  function Link(obj: Id, reply: Id): ReplyDoc -> bool {
    (d: ReplyDoc) => d.ObjectReply? && d.obj == obj && d.reply == reply
  }

  /** The links of `obj`. */
  function LinksOf(obj: Id): ReplyDoc -> bool {
    (d: ReplyDoc) => d.ObjectReply? && d.obj == obj
  }

  predicate IsReply(d: ReplyDoc) {
    d.Reply?
  }

  // The queries as the concept writes them.

  /** The filter `deleteReply` writes: `{ reply }`, a field only links have. */
  function ReplyFieldQuery(reply: Id): Query {
    map["reply" := IdV(reply)]
  }

  function LinkQuery(obj: Id, reply: Id): Query {
    map["object" := IdV(obj), "reply" := IdV(reply)]
  }

  function ObjectQuery(obj: Id): Query {
    map["object" := IdV(obj)]
  }

  /** The filter `getReplyByID` writes: `{ id }`, a field no record has. */
  function IdFieldQuery(i: Id): Query {
    map["id" := IdV(i)]
  }

  lemma IdQueryMeans(i: Id)
    ensures forall d :: Matching(View, IdQuery(i))(d) == HasId(i)(d)
  {
    forall d ensures Matching(View, IdQuery(i))(d) == HasId(i)(d) {
      MatchesOne(View(d), "_id", IdV(i));
    }
  }

  lemma ReplyFieldQueryMeans(reply: Id)
    ensures forall d :: Matching(View, ReplyFieldQuery(reply))(d) == LinkTo(reply)(d)
  {
    forall d ensures Matching(View, ReplyFieldQuery(reply))(d) == LinkTo(reply)(d) {
      MatchesOne(View(d), "reply", IdV(reply));
    }
  }

  lemma LinkQueryMeans(obj: Id, reply: Id)
    ensures forall d :: Matching(View, LinkQuery(obj, reply))(d) == Link(obj, reply)(d)
  {
    forall d ensures Matching(View, LinkQuery(obj, reply))(d) == Link(obj, reply)(d) {
      MatchesTwo(View(d), "object", IdV(obj), "reply", IdV(reply));
    }
  }

  /** The `{ id }` filter of `getReplyByID` matches no record. */
  lemma IdFieldQueryMatchesNothing(docs: seq<ReplyDoc>, i: Id)
    ensures ReadOne(docs, View, IdFieldQuery(i)).None?
  {
    forall d | d in docs ensures !Matches(View(d), IdFieldQuery(i)) {
      MatchesOne(View(d), "id", IdV(i));
    }
  }

  /** Some record, of either kind, has id `i`. */
  predicate IdTaken(docs: seq<ReplyDoc>, i: Id) {
    exists d :: d in docs && d.id == i
  }

  /** `readOne({ _id })` finds the record with that id, whatever its kind. */
  lemma ReadById(docs: seq<ReplyDoc>, i: Id)
    ensures ReadOne(docs, View, IdQuery(i)).Some? <==> IdTaken(docs, i)
    ensures ReadOne(docs, View, IdQuery(i)).Some? ==> ReadOne(docs, View, IdQuery(i)).value.id == i
  {
    IdQueryMeans(i);
    FindExt(docs, Matching(View, IdQuery(i)), HasId(i));
    FindExists(docs, HasId(i));
  }

  /** The reply ids of a sequence of links, in order: `reply.map(x => x.reply)`. */
  function ReplyIds(links: seq<ReplyDoc>): (r: seq<Id>)
    requires forall d :: d in links ==> d.ObjectReply?
    ensures |r| == |links|
    ensures forall k :: 0 <= k < |links| ==> r[k] == links[k].reply
  {
    if links == [] then [] else [links[0].reply] + ReplyIds(links[1..])
  }

  /** The replies attached to `obj`, in attachment order, one entry per link. */
  function RepliesOf(docs: seq<ReplyDoc>, obj: Id): seq<Id> {
    ReplyIds(Filter(docs, LinksOf(obj)))
  }

  /** `deleteReply` as written removes a link that uses the reply, never the
      reply itself: the reply records stay exactly as they were. */
  lemma DeleteReplyKeepsReplies(docs: seq<ReplyDoc>, reply: Id)
    ensures Filter(RemoveFirst(docs, LinkTo(reply)), IsReply) == Filter(docs, IsReply)
  {
    FilterRemoveFirstOther(docs, LinkTo(reply), IsReply);
  }

  /** With fresh ids, removing the record with the id of reply `docs[k]`
      removes that reply and nothing else. */
  lemma DeleteByIdRemovesReply(docs: seq<ReplyDoc>, next: nat, k: nat)
    requires FreshIds(docs, IdOf, next) && k < |docs| && docs[k].Reply?
    ensures RemoveFirst(docs, HasId(docs[k].id)) == docs[..k] + docs[k + 1..]
  {
    IdQueryMeans(docs[k].id);
    ViewHasId();
    ById(docs, View, IdOf, next, k);
    RemoveFirstExt(docs, Matching(View, IdQuery(docs[k].id)), HasId(docs[k].id));
  }

  /** Attaching a reply to an object lists it last among that object's replies. */
  lemma AssignedReplyListed(docs: seq<ReplyDoc>, id: Id, obj: Id, reply: Id)
    ensures RepliesOf(docs + [ObjectReply(id, obj, reply)], obj) == RepliesOf(docs, obj) + [reply]
  {
    FilterAppend(docs, ObjectReply(id, obj, reply), LinksOf(obj));
  }

  /** Detaching a reply from an object removes one occurrence from that
      object's reply list. */
  lemma RemovedReplyUnlisted(docs: seq<ReplyDoc>, obj: Id, reply: Id)
    requires reply in RepliesOf(docs, obj)
    ensures |RepliesOf(RemoveFirst(docs, Link(obj, reply)), obj)| == |RepliesOf(docs, obj)| - 1
  {
    var links := Filter(docs, LinksOf(obj));
    var k :| 0 <= k < |links| && RepliesOf(docs, obj)[k] == reply;
    assert links[k] in links;
    FilterRemoveFirstInner(docs, Link(obj, reply), LinksOf(obj));
    FindExists(links, Link(obj, reply));
  }

  class ReplyingConcept {
    /** The collection holding both `replies` and `objectReplies`. */
    var docs: seq<ReplyDoc>
    /** The id the next `createOne` hands out. */
    var nextId: nat

    ghost predicate Valid()
      reads this
    {
      FreshIds(docs, IdOf, nextId)
    }

    constructor ()
      ensures Valid() && docs == [] && nextId == 0
    {
      docs, nextId := [], 0;
    }

    /** Stores a reply and returns its id. The source defaults `isImage` to
        false; here every caller passes it. */
    method CreateReply(content: string, isImage: bool) returns (replyId: Id)
      requires Valid()
      modifies this
      ensures Valid()
      ensures replyId == old(nextId) && docs == old(docs) + [Reply(replyId, content, isImage)]
      ensures nextId == old(nextId) + 1
    {
      var d := Reply(nextId, content, isImage);
      FreshIdsAppend(docs, d, IdOf, nextId);
      replyId := nextId;
      docs, nextId := docs + [d], nextId + 1;
    }

    /** `deleteReply` as written: the filter `{ reply }` names a field only
        links have, so it removes the first link that uses the reply and
        leaves the reply itself in place. */
    method DeleteReply(reply: Id)
      requires Valid()
      modifies this
      ensures Valid() && nextId == old(nextId)
      ensures docs == RemoveFirst(old(docs), LinkTo(reply))
      ensures Filter(docs, IsReply) == Filter(old(docs), IsReply)
    {
      ReplyFieldQueryMeans(reply);
      RemoveFirstExt(docs, Matching(View, ReplyFieldQuery(reply)), LinkTo(reply));
      FreshIdsRemoveFirst(docs, LinkTo(reply), IdOf, nextId);
      DeleteReplyKeepsReplies(docs, reply);
      docs := DeleteOne(docs, View, ReplyFieldQuery(reply));
    }

    /** `deleteReply` filtering on `_id`: removes the record with id `reply`. */
    method DeleteReplyIntended(reply: Id)
      requires Valid()
      modifies this
      ensures Valid() && nextId == old(nextId)
      ensures docs == RemoveFirst(old(docs), HasId(reply))
    {
      IdQueryMeans(reply);
      RemoveFirstExt(docs, Matching(View, IdQuery(reply)), HasId(reply));
      FreshIdsRemoveFirst(docs, HasId(reply), IdOf, nextId);
      docs := DeleteOne(docs, View, IdQuery(reply));
    }

    /** NotFound when no record has id `reply`; otherwise attaches it to `obj`.
        The lookup does not check the record's kind, so a link's id is accepted too. */
    method AssignReply(obj: Id, reply: Id) returns (r: Outcome)
      requires Valid()
      modifies this
      ensures Valid()
      ensures !IdTaken(old(docs), reply) ==> r == Fail(NotFound) && docs == old(docs) && nextId == old(nextId)
      ensures IdTaken(old(docs), reply) ==>
                r == Pass && docs == old(docs) + [ObjectReply(old(nextId), obj, reply)] &&
                nextId == old(nextId) + 1
    {
      var postReply := ReadOne(docs, View, IdQuery(reply));
      ReadById(docs, reply);
      if postReply.None? {
        return Fail(NotFound);
      }
      var d := ObjectReply(nextId, obj, reply);
      FreshIdsAppend(docs, d, IdOf, nextId);
      docs, nextId := docs + [d], nextId + 1;
      r := Pass;
    }

    /** Removes the first link of `reply` to `obj`, if any. */
    method RemoveReply(obj: Id, reply: Id)
      requires Valid()
      modifies this
      ensures Valid() && nextId == old(nextId)
      ensures docs == RemoveFirst(old(docs), Link(obj, reply))
    {
      LinkQueryMeans(obj, reply);
      RemoveFirstExt(docs, Matching(View, LinkQuery(obj, reply)), Link(obj, reply));
      FreshIdsRemoveFirst(docs, Link(obj, reply), IdOf, nextId);
      docs := DeleteOne(docs, View, LinkQuery(obj, reply));
    }

    /** The ids of the replies attached to `obj`, in attachment order, one per
        link; never an error, since the array `readMany` returns is always truthy. */
    function GetReplyByObject(obj: Id): (r: seq<Id>)
      reads this
      ensures r == RepliesOf(docs, obj)
      ensures forall i :: i in r <==> exists d :: d in docs && Link(obj, i)(d)
    {
      forall d ensures Matching(View, ObjectQuery(obj))(d) == LinksOf(obj)(d) {
        MatchesOne(View(d), "object", IdV(obj));
      }
      FilterExt(docs, Matching(View, ObjectQuery(obj)), LinksOf(obj));
      var links := ReadMany(docs, View, ObjectQuery(obj));
      RepliesOfMeans(docs, obj);
      ReplyIds(links)
    }

    /** `getReplyByID` as written: the filter `{ id }` matches no record, so
        every lookup fails with NotFound. */
    method GetReplyByID(id: Id) returns (r: Result<ReplyDoc>)
      ensures r == Err(NotFound)
    {
      var reply := ReadOne(docs, View, IdFieldQuery(id));
      IdFieldQueryMatchesNothing(docs, id);
      match reply
      case None => r := Err(NotFound);
      case Some(found) => r := Ok(found);
    }

    /** `getReplyByID` filtering on `_id`: the record with that id, or NotFound. */
    method GetReplyByIDIntended(id: Id) returns (r: Result<ReplyDoc>)
      ensures !IdTaken(docs, id) ==> r == Err(NotFound)
      ensures IdTaken(docs, id) ==> r.Ok? && r.value in docs && r.value.id == id
    {
      var reply := ReadOne(docs, View, IdQuery(id));
      ReadById(docs, id);
      if reply.None? {
        return Err(NotFound);
      }
      r := Ok(reply.value);
    }
  }

  /** An id is in the reply list of `obj` exactly when some link attaches it to `obj`. */
  lemma RepliesOfMeans(docs: seq<ReplyDoc>, obj: Id)
    ensures forall i :: i in RepliesOf(docs, obj) <==> exists d :: d in docs && Link(obj, i)(d)
  {
    var links := Filter(docs, LinksOf(obj));
    var r := RepliesOf(docs, obj);
    forall i ensures i in r <==> exists d :: d in docs && Link(obj, i)(d) {
      if i in r {
        var k :| 0 <= k < |r| && r[k] == i;
        assert links[k] in links && Link(obj, i)(links[k]);
      }
      if exists d :: d in docs && Link(obj, i)(d) {
        var d :| d in docs && Link(obj, i)(d);
        var k :| 0 <= k < |links| && links[k] == d;
        assert r[k] == i;
      }
    }
  }
}
