/** The community registry, `ContentCommunityingConcept`: named communities
    with an owner, and the posts filed under each. Both kinds of record live
    in the concept's one collection. */
module ContentCommunitying {
  import opened Seqs
  import opened Errors
  import opened Docs

  datatype CommDoc =
      /** `CommunityDoc`: the community `communityName`, owned by `owner` */
    | Community(id: Id, communityName: string, owner: Id)
      /** `CommunityPostsDoc`: `post` is filed under the community with id `community` */
    | CommunityPost(id: Id, community: Id, post: Id)

  function IdOf(d: CommDoc): Id {
    d.id
  }

  /** The record as the store sees it. */
  function View(d: CommDoc): Doc {
    match d
    case Community(id, name, owner) =>
      map["_id" := IdV(id), "communityName" := StrV(name), "owner" := IdV(owner)]
    case CommunityPost(id, community, post) =>
      map["_id" := IdV(id), "community" := IdV(community), "post" := IdV(post)]
  }

  lemma ViewHasId()
    ensures HasIdField(View, IdOf)
  {
  }

  // The records each query of the concept is meant to select.

  /** The communities called `name`. */
  function Named(name: string): CommDoc -> bool {
    (d: CommDoc) => d.Community? && d.communityName == name
  }

  /** The posts filed under the community with id `community`. */
  function PostsOf(community: Id): CommDoc -> bool {
    (d: CommDoc) => d.CommunityPost? && d.community == community
  }

  /** The filings of `post` under the community with id `community`. */
  function Filing(community: Id, post: Id): CommDoc -> bool {
    (d: CommDoc) => d.CommunityPost? && d.community == community && d.post == post
  }

  predicate IsCommunity(d: CommDoc) {
    d.Community?
  }

  predicate IsPost(d: CommDoc) {
    d.CommunityPost?
  }

  // The queries as the concept writes them.

  function NameQuery(name: string): Query {
    map["communityName" := StrV(name)]
  }

  function PostsQuery(community: Id): Query {
    map["community" := IdV(community)]
  }

  /** The filter `deletePost` writes: the community's name next to the post. */
  function NamePostQuery(name: string, post: Id): Query {
    map["communityName" := StrV(name), "post" := IdV(post)]
  }

  function FilingQuery(community: Id, post: Id): Query {
    map["community" := IdV(community), "post" := IdV(post)]
  }

  lemma NameQueryMeans(name: string)
    ensures forall d :: Matching(View, NameQuery(name))(d) == Named(name)(d)
  {
    forall d ensures Matching(View, NameQuery(name))(d) == Named(name)(d) {
      MatchesOne(View(d), "communityName", StrV(name));
    }
  }

  lemma PostsQueryMeans(community: Id)
    ensures forall d :: Matching(View, PostsQuery(community))(d) == PostsOf(community)(d)
  {
    forall d ensures Matching(View, PostsQuery(community))(d) == PostsOf(community)(d) {
      MatchesOne(View(d), "community", IdV(community));
    }
  }

  lemma FilingQueryMeans(community: Id, post: Id)
    ensures forall d :: Matching(View, FilingQuery(community, post))(d) == Filing(community, post)(d)
  {
    forall d ensures Matching(View, FilingQuery(community, post))(d) == Filing(community, post)(d) {
      MatchesTwo(View(d), "community", IdV(community), "post", IdV(post));
    }
  }

  /** No record has both a `communityName` and a `post` field, so the filter
      of `deletePost` matches nothing and the collection stays as it is. */
  lemma NamePostQueryMatchesNothing(docs: seq<CommDoc>, name: string, post: Id)
    ensures ReadOne(docs, View, NamePostQuery(name, post)).None?
    ensures DeleteOne(docs, View, NamePostQuery(name, post)) == docs
  {
    forall d | d in docs ensures !Matches(View(d), NamePostQuery(name, post)) {
      MatchesTwo(View(d), "communityName", StrV(name), "post", IdV(post));
    }
  }

  /** The first community called `name` in the store, if any. */
  function FindCommunity(docs: seq<CommDoc>, name: string): (r: Option<CommDoc>)
    ensures r.None? <==> forall d :: d in docs ==> !Named(name)(d)
    ensures r.Some? ==> r.value in docs && r.value.Community? && r.value.communityName == name
  {
    var i := Find(docs, Named(name));
    if i == |docs| then None else Some(docs[i])
  }

  /** `readOne({ communityName })` finds exactly `FindCommunity`. */
  lemma ReadCommunity(docs: seq<CommDoc>, name: string)
    ensures ReadOne(docs, View, NameQuery(name)) == FindCommunity(docs, name)
  {
    NameQueryMeans(name);
    FindExt(docs, Matching(View, NameQuery(name)), Named(name));
  }

  /** `readMany({ communityName })` selects exactly the communities called `name`. */
  lemma ReadNamed(docs: seq<CommDoc>, name: string)
    ensures ReadMany(docs, View, NameQuery(name)) == Filter(docs, Named(name))
  {
    NameQueryMeans(name);
    FilterExt(docs, Matching(View, NameQuery(name)), Named(name));
  }

  /** Two different records never define communities of the same name. */
  predicate DistinctNames(a: CommDoc, b: CommDoc) {
    !(a.Community? && b.Community? && a.communityName == b.communityName)
  }

  /** The concept's invariant: fresh ids, and community names are unique. */
  ghost predicate Invariant(docs: seq<CommDoc>, next: nat) {
    FreshIds(docs, IdOf, next) && Pairwise(docs, DistinctNames)
  }

  lemma InvariantAppend(docs: seq<CommDoc>, next: nat, x: CommDoc)
    requires Invariant(docs, next) && x.id == next
    requires forall y :: y in docs ==> DistinctNames(y, x)
    ensures Invariant(docs + [x], next + 1)
  {
    FreshIdsAppend(docs, x, IdOf, next);
    PairwiseAppend(docs, x, DistinctNames);
  }

  lemma InvariantRemoveFirst(docs: seq<CommDoc>, next: nat, p: CommDoc -> bool)
    requires Invariant(docs, next)
    ensures Invariant(RemoveFirst(docs, p), next)
  {
    FreshIdsRemoveFirst(docs, p, IdOf, next);
    PairwiseRemoveFirst(docs, p, DistinctNames);
  }

  /** Under the invariant there is at most one community of each name. */
  lemma {:induction false} AtMostOneCommunity(docs: seq<CommDoc>, name: string)
    requires Pairwise(docs, DistinctNames)
    ensures |Filter(docs, Named(name))| <= 1
  {
    if docs != [] {
      PairwiseTail(docs, DistinctNames);
      AtMostOneCommunity(docs[1..], name);
      if Named(name)(docs[0]) {
        forall y | y in docs[1..] ensures !Named(name)(y) {
          assert DistinctNames(docs[0], y);
        }
        FilterNone(docs[1..], Named(name));
      }
    }
  }

  /** Deleting a community leaves none of that name; its posts stay filed under its id. */
  lemma DeletedCommunityGone(docs: seq<CommDoc>, name: string)
    requires Pairwise(docs, DistinctNames)
    ensures FindCommunity(RemoveFirst(docs, Named(name)), name).None?
    ensures Filter(RemoveFirst(docs, Named(name)), IsPost) == Filter(docs, IsPost)
  {
    var p := Named(name);
    var rest := RemoveFirst(docs, p);
    FilterRemoveFirst(docs, p);
    AtMostOneCommunity(docs, name);
    FindFilter(rest, p);
    FilterRemoveFirstOther(docs, p, IsPost);
  }

  /** A post added to a community is among that community's posts. */
  lemma AddedPostListed(docs: seq<CommDoc>, c: CommDoc, id: Id, post: Id)
    requires c.Community?
    ensures Filter(docs + [CommunityPost(id, c.id, post)], PostsOf(c.id))
            == Filter(docs, PostsOf(c.id)) + [CommunityPost(id, c.id, post)]
  {
    FilterAppend(docs, CommunityPost(id, c.id, post), PostsOf(c.id));
  }

  /** Removing a filing of `post` under a community takes the first entry for
      `post` off that community's post list and leaves the rest in order. */
  lemma RemovedFilingListed(docs: seq<CommDoc>, community: Id, post: Id)
    ensures Filter(RemoveFirst(docs, Filing(community, post)), PostsOf(community))
            == RemoveFirst(Filter(docs, PostsOf(community)), Filing(community, post))
  {
    FilterRemoveFirstInner(docs, Filing(community, post), PostsOf(community));
  }

  /** JavaScript's truthiness for the array `readMany` returns: every array,
      empty or not, is truthy. */
  predicate ArrayIsTruthy<T>(a: seq<T>) {
    true
  }

  class ContentCommunityingConcept {
    /** The collection holding both `communities` and `communityPosts`. */
    var docs: seq<CommDoc>
    /** The id the next `createOne` hands out. */
    var nextId: nat

    ghost predicate Valid()
      reads this
    {
      Invariant(docs, nextId)
    }

    constructor ()
      ensures Valid() && docs == [] && nextId == 0
    {
      docs, nextId := [], 0;
    }

    /** `createCommunity` as written: the duplicate guard tests the array
        `readMany` returns for truthiness, which always holds, so every call
        fails with NotAllowed and nothing is stored. */
    method CreateCommunity(communityName: string, owner: Id) returns (r: Result<Option<CommDoc>>)
      ensures r == Err(NotAllowed)
    {
      var nameCheck := ReadMany(docs, View, NameQuery(communityName));
      if ArrayIsTruthy(nameCheck) {
        return Err(NotAllowed);
      }
      r := Ok(None);
    }

    /** `createCommunity` with the evident guard `nameCheck.length > 0`:
        NotAllowed for a taken name, otherwise the new community is stored
        and returned. */
    method CreateCommunityIntended(communityName: string, owner: Id) returns (r: Result<Option<CommDoc>>)
      requires Valid()
      modifies this
      ensures Valid()
      ensures FindCommunity(old(docs), communityName).Some? ==>
                r == Err(NotAllowed) && docs == old(docs) && nextId == old(nextId)
      ensures FindCommunity(old(docs), communityName).None? ==>
                var c := Community(old(nextId), communityName, owner);
                r == Ok(Some(c)) && docs == old(docs) + [c] && nextId == old(nextId) + 1
    {
      var nameCheck := ReadMany(docs, View, NameQuery(communityName));
      ReadNamed(docs, communityName);
      FindFilter(docs, Named(communityName));
      if |nameCheck| > 0 {
        return Err(NotAllowed);
      }
      var c := Community(nextId, communityName, owner);
      InvariantAppend(docs, nextId, c);
      ViewHasId();
      ReadNew(docs, c, View, IdOf, nextId);
      var id := nextId;
      docs, nextId := docs + [c], nextId + 1;
      r := Ok(ReadOne(docs, View, IdQuery(id)));
    }

    /** NotFound for an unknown community; otherwise files `post` under it. */
    method AddPost(communityName: string, post: Id) returns (r: Outcome)
      requires Valid()
      modifies this
      ensures Valid()
      ensures FindCommunity(old(docs), communityName).None? ==>
                r == Fail(NotFound) && docs == old(docs) && nextId == old(nextId)
      ensures FindCommunity(old(docs), communityName).Some? ==>
                var c := FindCommunity(old(docs), communityName).value;
                r == Pass && docs == old(docs) + [CommunityPost(old(nextId), c.id, post)] &&
                nextId == old(nextId) + 1
    {
      var community := ReadOne(docs, View, NameQuery(communityName));
      ReadCommunity(docs, communityName);
      if community.None? {
        return Fail(NotFound);
      }
      var p := CommunityPost(nextId, community.value.id, post);
      InvariantAppend(docs, nextId, p);
      docs, nextId := docs + [p], nextId + 1;
      r := Pass;
    }

    /** Removes the community `communityName`, if any; its posts stay. */
    method DeleteCommunity(communityName: string)
      requires Valid()
      modifies this
      ensures Valid() && nextId == old(nextId)
      ensures docs == RemoveFirst(old(docs), Named(communityName))
      ensures FindCommunity(docs, communityName).None?
      ensures Filter(docs, IsPost) == Filter(old(docs), IsPost)
    {
      NameQueryMeans(communityName);
      RemoveFirstExt(docs, Matching(View, NameQuery(communityName)), Named(communityName));
      InvariantRemoveFirst(docs, nextId, Named(communityName));
      DeletedCommunityGone(docs, communityName);
      docs := DeleteOne(docs, View, NameQuery(communityName));
    }

    /** `deletePost` as written: its filter names the community by
        `communityName`, a field no post record has, so nothing is removed. */
    method DeletePost(communityName: string, post: Id)
      requires Valid()
      modifies this
      ensures docs == old(docs) && nextId == old(nextId)
    {
      NamePostQueryMatchesNothing(docs, communityName, post);
      docs := DeleteOne(docs, View, NamePostQuery(communityName, post));
    }

    /** `deletePost` filtering on the community's id: removes one filing of
        `post` under the community `communityName`, if there is one. */
    method DeletePostIntended(communityName: string, post: Id)
      requires Valid()
      modifies this
      ensures Valid() && nextId == old(nextId)
      ensures FindCommunity(old(docs), communityName).None? ==> docs == old(docs)
      ensures FindCommunity(old(docs), communityName).Some? ==>
                docs == RemoveFirst(old(docs), Filing(FindCommunity(old(docs), communityName).value.id, post))
    {
      var community := ReadOne(docs, View, NameQuery(communityName));
      ReadCommunity(docs, communityName);
      if community.None? {
        return;
      }
      var oid := community.value.id;
      FilingQueryMeans(oid, post);
      RemoveFirstExt(docs, Matching(View, FilingQuery(oid, post)), Filing(oid, post));
      InvariantRemoveFirst(docs, nextId, Filing(oid, post));
      docs := DeleteOne(docs, View, FilingQuery(oid, post));
    }

    /** `getCommunities` as written: the empty filter returns every record of
        the shared collection, post filings included. */
    function GetCommunities(): (r: seq<CommDoc>)
      reads this
      ensures r == docs
    {
      forall d ensures Matching(View, map[])(d) {
        MatchesEmpty(View(d));
      }
      FilterExt(docs, Matching(View, map[]), (d: CommDoc) => true);
      FilterAll(docs);
      ReadMany(docs, View, map[])
    }

    /** `getCommunities` restricted to community records, as the name `getCommunities` says. */
    function GetCommunitiesIntended(): (r: seq<CommDoc>)
      reads this
      ensures forall d :: d in r <==> d in docs && d.Community?
    {
      Filter(docs, IsCommunity)
    }

    /** NotFound for an unknown community, otherwise its record. */
    function GetCommunityByName(communityName: string): (r: Result<CommDoc>)
      reads this
      ensures FindCommunity(docs, communityName).None? ==> r == Err(NotFound)
      ensures FindCommunity(docs, communityName).Some? ==> r == Ok(FindCommunity(docs, communityName).value)
    {
      ReadCommunity(docs, communityName);
      var community := ReadOne(docs, View, NameQuery(communityName));
      if community.None? then Err(NotFound) else Ok(community.value)
    }

    /** NotFound for an unknown community, otherwise its post filings in store order. */
    function GetCommunityPosts(communityName: string): (r: Result<seq<CommDoc>>)
      reads this
      ensures FindCommunity(docs, communityName).None? ==> r == Err(NotFound)
      ensures FindCommunity(docs, communityName).Some? ==>
                r == Ok(Filter(docs, PostsOf(FindCommunity(docs, communityName).value.id)))
    {
      ReadCommunity(docs, communityName);
      var community := ReadOne(docs, View, NameQuery(communityName));
      if community.None? then Err(NotFound)
      else
        PostsQueryMeans(community.value.id);
        FilterExt(docs, Matching(View, PostsQuery(community.value.id)), PostsOf(community.value.id));
        Ok(ReadMany(docs, View, PostsQuery(community.value.id)))
    }

    /** NotFound for an unknown community, NotAllowed unless `owner` owns it. */
    function AssertUserIsOwner(communityName: string, owner: Id): (r: Outcome)
      reads this
      ensures FindCommunity(docs, communityName).None? ==> r == Fail(NotFound)
      ensures FindCommunity(docs, communityName).Some? ==>
                (r == Pass <==> FindCommunity(docs, communityName).value.owner == owner)
      ensures r == Pass || r == Fail(NotFound) || r == Fail(NotAllowed)
    {
      ReadCommunity(docs, communityName);
      var community := ReadOne(docs, View, NameQuery(communityName));
      if community.None? then Fail(NotFound)
      else if owner != community.value.owner then Fail(NotAllowed)
      else Pass
    }
  }

  /** The filter "every record" keeps the whole collection. */
  lemma {:induction false} FilterAll(s: seq<CommDoc>)
    ensures Filter(s, (d: CommDoc) => true) == s
  {
    if s != [] {
      FilterAll(s[1..]);
    }
  }

  /** Once a post is filed, the listing of `getCommunities` differs from the
      list of communities: it holds the filing too. */
  lemma CommunitiesListPosts(docs: seq<CommDoc>, k: nat)
    requires k < |docs| && docs[k].CommunityPost?
    ensures Filter(docs, IsCommunity) != docs
  {
    assert docs[k] in docs && docs[k] !in Filter(docs, IsCommunity);
  }
}
