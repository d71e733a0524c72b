/** The route handlers that combine the concepts into private communities
    and collaboration, and the two permission helpers they share. A route
    that fails stops at the first failing step; the steps before it keep
    their effects. */
module Routes {
  import opened Seqs
  import opened Errors
  import opened Docs
  import Rel = Relationshipping
  import Priv = PrivacyControlling
  import Comm = ContentCommunitying
  import Inv = Inviting
  import Col = Collaborating

  /** The posts the routes consult: each post id with its author. */
  type Posts = map<Id, Id>

  /** `Posting.getPostByID`: the author of the post, NotFound for an unknown id. */
  function GetPostAuthor(posts: Posts, id: Id): Result<Id> {
    if id in posts then Ok(posts[id]) else Err(NotFound)
  }

  /** `Posting.assertAuthorIsUser`: NotFound for an unknown post, NotAllowed
      when `user` is not its author. */
  function AssertAuthorIsUser(posts: Posts, id: Id, user: Id): Outcome {
    if id !in posts then Fail(NotFound)
    else if posts[id] != user then Fail(NotAllowed)
    else Pass
  }

  /** The names of the relation types of `owner` that `user` belongs to. */
  function MemberNames(relDocs: seq<Rel.RelDoc>, owner: Id, user: Id): seq<string> {
    Rel.RelationNames(Rel.SharedRelations(relDocs, owner, user))
  }

  /** `assertAnyValueSatisfies` as an outcome: Pass when the check passes,
      otherwise `Unsatisfied(attr, names)`. */
  function Grant(privDocs: seq<Priv.PrivDoc>, thing: Id, attr: string, names: seq<string>): Outcome {
    if Priv.Passes(Priv.Verdict(privDocs, thing, attr, names)) then Pass
    else Fail(Unsatisfied(attr, names))
  }

  /** What `checkRelationPermission` decides: the post must exist; the
      relations `getRelationship` reports are always empty, so only the
      absence of the attribute lets a user through. */
  function RelationCheck(posts: Posts, privDocs: seq<Priv.PrivDoc>, obj: Id, attr: string): Outcome {
    if obj !in posts then Fail(NotFound) else Grant(privDocs, obj, attr, [])
  }

  /** `checkRelationPermission` with the corrected `getRelationship`: the
      names of the author's relation types that the user belongs to are
      offered to the attribute. */
  function RelationCheckIntended(posts: Posts, relDocs: seq<Rel.RelDoc>, privDocs: seq<Priv.PrivDoc>,
                                 user: Id, obj: Id, attr: string): Outcome {
    if obj !in posts then Fail(NotFound)
    else Grant(privDocs, obj, attr, MemberNames(relDocs, posts[obj], user))
  }

  /** What `checkCommunityPermission` decides: the community must exist, and
      as with posts no relation name is ever offered. */
  function CommunityCheck(commDocs: seq<Comm.CommDoc>, privDocs: seq<Priv.PrivDoc>, name: string, attr: string): Outcome {
    match Comm.FindCommunity(commDocs, name)
    case None => Fail(NotFound)
    case Some(c) => Grant(privDocs, c.id, attr, [])
  }

  /** `checkCommunityPermission` with the corrected `getRelationship`. */
  function CommunityCheckIntended(commDocs: seq<Comm.CommDoc>, relDocs: seq<Rel.RelDoc>, privDocs: seq<Priv.PrivDoc>,
                                  user: Id, name: string, attr: string): Outcome {
    match Comm.FindCommunity(commDocs, name)
    case None => Fail(NotFound)
    case Some(c) => Grant(privDocs, c.id, attr, MemberNames(relDocs, c.id, user))
  }

  /** `user` owns the community `name`. */
  predicate IsOwner(commDocs: seq<Comm.CommDoc>, name: string, user: Id) {
    Comm.FindCommunity(commDocs, name).Some? && Comm.FindCommunity(commDocs, name).value.owner == user
  }

  /** Offering no names passes exactly when the attribute does not exist:
      everyone is let through an absent attribute and nobody through a
      present one. */
  lemma EmptyGrantFailsOpen(privDocs: seq<Priv.PrivDoc>, thing: Id, attr: string)
    ensures Grant(privDocs, thing, attr, []) == Pass <==> Priv.FindAttribute(privDocs, thing, attr).None?
    ensures Grant(privDocs, thing, attr, []) != Pass ==> Grant(privDocs, thing, attr, []) == Fail(Unsatisfied(attr, []))
  {
    if Priv.FindAttribute(privDocs, thing, attr).Some? {
      Priv.NoValuesUnsatisfied(privDocs, thing, attr);
    }
  }

  /** Whoever passes the community check as written passes the corrected one. */
  lemma CommunityCheckWeaker(commDocs: seq<Comm.CommDoc>, relDocs: seq<Rel.RelDoc>, privDocs: seq<Priv.PrivDoc>,
                             user: Id, name: string, attr: string)
    ensures CommunityCheck(commDocs, privDocs, name, attr) == Pass ==>
            CommunityCheckIntended(commDocs, relDocs, privDocs, user, name, attr) == Pass
  {
    var c := Comm.FindCommunity(commDocs, name);
    if c.Some? {
      EmptyGrantFailsOpen(privDocs, c.value.id, attr);
    }
  }

  /** Whoever passes the post check as written passes the corrected one. */
  lemma RelationCheckWeaker(posts: Posts, relDocs: seq<Rel.RelDoc>, privDocs: seq<Priv.PrivDoc>,
                            user: Id, obj: Id, attr: string)
    ensures RelationCheck(posts, privDocs, obj, attr) == Pass ==>
            RelationCheckIntended(posts, relDocs, privDocs, user, obj, attr) == Pass
  {
    EmptyGrantFailsOpen(privDocs, obj, attr);
  }

  /** The records the private-community setup appends to a privacy store whose
      next id is `n`: the attributes `read` and `communityPost` of `thing`, then
      `member` accepted by the first attribute of each name, which is an older
      one when `thing` already had it. */
  function SetupRecords(docs: seq<Priv.PrivDoc>, thing: Id, n: nat): seq<Priv.PrivDoc> {
    [Priv.Attribute(n, thing, "read"), Priv.Attribute(n + 1, thing, "communityPost"),
     Priv.AttrValue(n + 2, FirstAttributeId(docs, thing, "read", n), "member"),
     Priv.AttrValue(n + 3, FirstAttributeId(docs, thing, "communityPost", n + 1), "member")]
  }

  /** The id of the first attribute `name` of `thing`, or `unused` when there is none. */
  function FirstAttributeId(docs: seq<Priv.PrivDoc>, thing: Id, name: string, unused: Id): Id {
    match Priv.FindAttribute(docs, thing, name)
    case Some(a) => a.id
    case None => unused
  }

  /** After the setup, offering `member` satisfies both `read` and
      `communityPost`, while the attribute `member` that the community routes
      check is whatever it was before: the setup never creates it. */
  lemma SetupGuards(docs: seq<Priv.PrivDoc>, thing: Id, n: nat)
    ensures var s := docs + SetupRecords(docs, thing, n);
            Priv.Verdict(s, thing, "read", ["member"]) == Priv.Checked(true) &&
            Priv.Verdict(s, thing, "communityPost", ["member"]) == Priv.Checked(true) &&
            Priv.FindAttribute(s, thing, "member") == Priv.FindAttribute(docs, thing, "member")
  {
    var r := SetupRecords(docs, thing, n);
    var d1 := docs + [r[0]];
    var d2 := d1 + [r[1]];
    var d3 := d2 + [r[2]];
    assert docs + r == d3 + [r[3]];
    Priv.FindAttributeAppend(docs, r[0], thing, "read");
    Priv.FindAttributeAppend(d1, r[1], thing, "read");
    Priv.AssignedValueSatisfies(d2, thing, "read", n + 2, "member", ["member"]);
    Priv.SatisfiedAppend(d3, r[3], thing, "read", ["member"]);
    Priv.FindAttributeAppend(docs, r[0], thing, "communityPost");
    Priv.FindAttributeAppend(d1, r[1], thing, "communityPost");
    Priv.FindAttributeAppend(d2, r[2], thing, "communityPost");
    Priv.AssignedValueSatisfies(d3, thing, "communityPost", n + 3, "member", ["member"]);
    Priv.FindAttributeAppend(docs, r[0], thing, "member");
    Priv.FindAttributeAppend(d1, r[1], thing, "member");
    Priv.FindAttributeAppend(d2, r[2], thing, "member");
    Priv.FindAttributeAppend(d3, r[3], thing, "member");
  }

  /** The `member` check the community routes make lets everyone through a
      private community whose setup found no `member` attribute. */
  lemma MemberCheckFailsOpen(commDocs: seq<Comm.CommDoc>, privDocs: seq<Priv.PrivDoc>, name: string, c: Comm.CommDoc, n: nat)
    requires Comm.FindCommunity(commDocs, name) == Some(c)
    requires Priv.FindAttribute(privDocs, c.id, "member").None?
    ensures CommunityCheck(commDocs, privDocs + SetupRecords(privDocs, c.id, n), name, "member") == Pass
  {
    SetupGuards(privDocs, c.id, n);
    EmptyGrantFailsOpen(privDocs + SetupRecords(privDocs, c.id, n), c.id, "member");
  }

  /** In a private community whose `read` attribute accepts `member`, the
      corrected check refuses a user with no relation to the community and
      admits them once they are related as `member`; the check as written
      refuses them both times. */
  lemma PrivateCommunityAdmitsMembers(commDocs: seq<Comm.CommDoc>, relDocs: seq<Rel.RelDoc>, privDocs: seq<Priv.PrivDoc>,
                                      name: string, user: Id, c: Comm.CommDoc, t: Rel.RelDoc, id: Id)
    requires Comm.FindCommunity(commDocs, name) == Some(c)
    requires Rel.FindType(relDocs, c.id, "member") == Some(t)
    requires Priv.Verdict(privDocs, c.id, "read", ["member"]) == Priv.Checked(true)
    requires Rel.SharedRelations(relDocs, c.id, user) == []
    ensures CommunityCheckIntended(commDocs, relDocs, privDocs, user, name, "read") == Fail(Unsatisfied("read", []))
    ensures CommunityCheckIntended(commDocs, relDocs + [Rel.Membership(id, t.id, user)], privDocs, user, name, "read") == Pass
    ensures CommunityCheck(commDocs, privDocs, name, "read") == Fail(Unsatisfied("read", []))
  {
    Priv.NoValuesUnsatisfied(privDocs, c.id, "read");
    assert MemberNames(relDocs, c.id, user) == [];
    var joined := relDocs + [Rel.Membership(id, t.id, user)];
    Rel.RelatedAfterRelate(relDocs, t, id, user);
    Rel.SharedNameListed(joined, c.id, user, t);
    var a := Priv.FindAttribute(privDocs, c.id, "read").value;
    assert "member" in Priv.AcceptedValues(privDocs, a.id);
    assert Priv.Satisfied(privDocs, a.id, MemberNames(joined, c.id, user));
  }

  /** `helpers.checkRelationPermission`: looks the post up, offers the names of
      the relations `getRelationship(author, user)` reports, and checks them
      against attribute `attr` of the post. */
  method CheckRelationPermission(rel: Rel.RelationshippingConcept, priv: Priv.PrivacyControllingConcept,
                                 posts: Posts, user: Id, objectId: Id, attr: string) returns (r: Outcome)
    ensures r == RelationCheck(posts, priv.docs, objectId, attr)
  {
    var post := GetPostAuthor(posts, objectId);
    if post.Err? {
      return Fail(post.error);
    }
    var relations := rel.GetRelationship(post.value, user);
    var relationNames := Rel.RelationNames(relations);
    r := priv.AssertAnyValueSatisfies(objectId, attr, relationNames);
    EmptyGrantFailsOpen(priv.docs, objectId, attr);
  }

  /** `checkRelationPermission` over the corrected `getRelationship`. */
  method CheckRelationPermissionIntended(rel: Rel.RelationshippingConcept, priv: Priv.PrivacyControllingConcept,
                                         posts: Posts, user: Id, objectId: Id, attr: string) returns (r: Outcome)
    ensures r == RelationCheckIntended(posts, rel.docs, priv.docs, user, objectId, attr)
  {
    var post := GetPostAuthor(posts, objectId);
    if post.Err? {
      return Fail(post.error);
    }
    var relations := rel.GetRelationshipIntended(post.value, user);
    var relationNames := Rel.RelationNames(relations);
    r := priv.AssertAnyValueSatisfies(objectId, attr, relationNames);
  }

  /** `helpers.checkCommunityPermission`: the same check with the community
      as both the owner of the relations and the guarded thing. */
  method CheckCommunityPermission(comm: Comm.ContentCommunityingConcept, rel: Rel.RelationshippingConcept,
                                  priv: Priv.PrivacyControllingConcept, user: Id, communityName: string,
                                  attr: string) returns (r: Outcome)
    ensures r == CommunityCheck(comm.docs, priv.docs, communityName, attr)
  {
    var community := comm.GetCommunityByName(communityName);
    if community.Err? {
      return Fail(community.error);
    }
    var c := community.value;
    var relations := rel.GetRelationship(c.id, user);
    var relationNames := Rel.RelationNames(relations);
    r := priv.AssertAnyValueSatisfies(c.id, attr, relationNames);
    EmptyGrantFailsOpen(priv.docs, c.id, attr);
  }

  /** `checkCommunityPermission` over the corrected `getRelationship`. */
  method CheckCommunityPermissionIntended(comm: Comm.ContentCommunityingConcept, rel: Rel.RelationshippingConcept,
                                          priv: Priv.PrivacyControllingConcept, user: Id, communityName: string,
                                          attr: string) returns (r: Outcome)
    ensures r == CommunityCheckIntended(comm.docs, rel.docs, priv.docs, user, communityName, attr)
  {
    var community := comm.GetCommunityByName(communityName);
    if community.Err? {
      return Fail(community.error);
    }
    var c := community.value;
    var relations := rel.GetRelationshipIntended(c.id, user);
    var relationNames := Rel.RelationNames(relations);
    r := priv.AssertAnyValueSatisfies(c.id, attr, relationNames);
  }

  /** `createCommunity` as written: the concept call always fails, so the
      route fails with NotAllowed before the private setup. */
  method CreateCommunity(comm: Comm.ContentCommunityingConcept, user: Id, communityName: string,
                         notPrivate: bool) returns (r: Result<Option<Comm.CommDoc>>)
    ensures r == Err(NotAllowed)
  {
    var msg := comm.CreateCommunity(communityName, user);
    if msg.Err? {
      return Err(msg.error);
    }
    r := msg;
  }

  /** `createCommunity` over the corrected concept call: NotAllowed for a taken
      name; otherwise the community is stored and, unless `notPrivate`, the
      owner `member` relation type and the guarded attributes are set up. */
  method CreateCommunityIntended(comm: Comm.ContentCommunityingConcept, rel: Rel.RelationshippingConcept,
                                 priv: Priv.PrivacyControllingConcept, user: Id, communityName: string,
                                 notPrivate: bool) returns (r: Result<Option<Comm.CommDoc>>)
    requires comm.Valid() && rel.Valid() && priv.Valid()
    modifies comm, rel, priv
    ensures comm.Valid() && rel.Valid() && priv.Valid()
    ensures Comm.FindCommunity(old(comm.docs), communityName).Some? ==>
              r == Err(NotAllowed) && comm.docs == old(comm.docs) && comm.nextId == old(comm.nextId) && rel.docs == old(rel.docs) && rel.nextId == old(rel.nextId) && priv.docs == old(priv.docs) && priv.nextId == old(priv.nextId)
    ensures Comm.FindCommunity(old(comm.docs), communityName).None? ==>
              var c := Comm.Community(old(comm.nextId), communityName, user);
              comm.docs == old(comm.docs) + [c] && comm.nextId == old(comm.nextId) + 1 &&
              (notPrivate ==> r == Ok(Some(c)) && rel.docs == old(rel.docs) && rel.nextId == old(rel.nextId) && priv.docs == old(priv.docs) && priv.nextId == old(priv.nextId)) &&
              (!notPrivate && Rel.FindType(old(rel.docs), c.id, "member").Some? ==>
                 r == Err(NotAllowed) && rel.docs == old(rel.docs) && rel.nextId == old(rel.nextId) && priv.docs == old(priv.docs) && priv.nextId == old(priv.nextId)) &&
              (!notPrivate && Rel.FindType(old(rel.docs), c.id, "member").None? ==>
                 r == Ok(Some(c)) &&
                 rel.docs == old(rel.docs) + [Rel.RelationType(old(rel.nextId), c.id, "member")] &&
                 rel.nextId == old(rel.nextId) + 1 &&
                 priv.docs == old(priv.docs) + SetupRecords(old(priv.docs), c.id, old(priv.nextId)) &&
                 priv.nextId == old(priv.nextId) + 4)
  {
    var msg := comm.CreateCommunityIntended(communityName, user);
    if msg.Err? {
      return Err(msg.error);
    }
    if !notPrivate {
      var c := Comm.Community(old(comm.nextId), communityName, user);
      FindCommunityAppend(old(comm.docs), c, communityName);
      var community := comm.GetCommunityByName(communityName);
      assert community == Ok(c);
      var setup := PrivateSetup(rel, priv, community.value.id);
      if setup.Fail? {
        return Err(setup.error);
      }
    }
    r := msg;
  }

  /** The private branch of `createCommunity` for the community `cid`: the
      relation type `member` of the community, then the attributes `read` and
      `communityPost`, each accepting `member`. NotAllowed, with nothing
      changed, when the community already has a `member` relation type. */
  method PrivateSetup(rel: Rel.RelationshippingConcept, priv: Priv.PrivacyControllingConcept, cid: Id) returns (r: Outcome)
    requires rel.Valid() && priv.Valid()
    modifies rel, priv
    ensures rel.Valid() && priv.Valid()
    ensures Rel.FindType(old(rel.docs), cid, "member").Some? ==>
              r == Fail(NotAllowed) &&
              rel.docs == old(rel.docs) && rel.nextId == old(rel.nextId) &&
              priv.docs == old(priv.docs) && priv.nextId == old(priv.nextId)
    ensures Rel.FindType(old(rel.docs), cid, "member").None? ==>
              r == Pass &&
              rel.docs == old(rel.docs) + [Rel.RelationType(old(rel.nextId), cid, "member")] &&
              rel.nextId == old(rel.nextId) + 1 &&
              priv.docs == old(priv.docs) + SetupRecords(old(priv.docs), cid, old(priv.nextId)) &&
              priv.nextId == old(priv.nextId) + 4
  {
    var relation := rel.CreateRelationship(cid, "member");
    if relation.Err? {
      return Fail(relation.error);
    }
    GuardCommunity(priv, cid);
    r := Pass;
  }

  /** The privacy half of the private setup: the attributes `read` and
      `communityPost` of `cid`, each accepting `member`. */
  method GuardCommunity(priv: Priv.PrivacyControllingConcept, cid: Id)
    requires priv.Valid()
    modifies priv
    ensures priv.Valid()
    ensures priv.docs == old(priv.docs) + SetupRecords(old(priv.docs), cid, old(priv.nextId)) &&
            priv.nextId == old(priv.nextId) + 4
  {
    ghost var d0, n := priv.docs, priv.nextId;
    var created := priv.CreateAttribute(cid, "read");
    created := priv.CreateAttribute(cid, "communityPost");
    SetupAttributes(d0, priv.docs, cid, n);
    var done := priv.AssignAttribute(cid, "read", "member");
    assert done == Pass;
    SetupReadValue(d0, priv.docs, cid, n);
    done := priv.AssignAttribute(cid, "communityPost", "member");
    assert done == Pass;
    SetupShape(d0, priv.docs, cid, n);
  }

  /** The two attributes the setup creates; the first `read` of the store is
      then the one `SetupRecords` assigns to. */
  lemma SetupAttributes(d0: seq<Priv.PrivDoc>, d2: seq<Priv.PrivDoc>, cid: Id, n: nat)
    requires d2 == d0 + [Priv.Attribute(n, cid, "read")] + [Priv.Attribute(n + 1, cid, "communityPost")]
    ensures Priv.FindAttribute(d2, cid, "read") == Some(Priv.Attribute(FirstAttributeId(d0, cid, "read", n), cid, "read"))
  {
    var r := SetupRecords(d0, cid, n);
    SetupFinds(d0, r[0], r[1], r[2], cid, "read", n);
  }

  /** After `member` is assigned to `read`, the first `communityPost` of the
      store is the one `SetupRecords` assigns to. */
  lemma SetupReadValue(d0: seq<Priv.PrivDoc>, d3: seq<Priv.PrivDoc>, cid: Id, n: nat)
    requires d3 == d0 + [Priv.Attribute(n, cid, "read")] + [Priv.Attribute(n + 1, cid, "communityPost")]
                     + [Priv.AttrValue(n + 2, FirstAttributeId(d0, cid, "read", n), "member")]
    ensures Priv.FindAttribute(d3, cid, "communityPost")
            == Some(Priv.Attribute(FirstAttributeId(d0, cid, "communityPost", n + 1), cid, "communityPost"))
  {
    var r := SetupRecords(d0, cid, n);
    SetupFinds(d0, r[0], r[1], r[2], cid, "communityPost", n + 1);
  }

  /** The four records the setup appends are `SetupRecords`. */
  lemma SetupShape(d0: seq<Priv.PrivDoc>, d4: seq<Priv.PrivDoc>, cid: Id, n: nat)
    requires d4 == d0 + [Priv.Attribute(n, cid, "read")] + [Priv.Attribute(n + 1, cid, "communityPost")]
                     + [Priv.AttrValue(n + 2, FirstAttributeId(d0, cid, "read", n), "member")]
                     + [Priv.AttrValue(n + 3, FirstAttributeId(d0, cid, "communityPost", n + 1), "member")]
    ensures d4 == d0 + SetupRecords(d0, cid, n)
  {
  }

  /** Three appended records of which at most the first is an attribute
      `name` of `cid` leave the first attribute `name` of `cid` to be the old
      one, or that record when there was none. */
  lemma SetupFinds(d0: seq<Priv.PrivDoc>, x: Priv.PrivDoc, y: Priv.PrivDoc, z: Priv.PrivDoc, cid: Id, name: string, n: Id)
    requires x == Priv.Attribute(n, cid, name) || !Priv.AttributeOf(cid, name)(x)
    requires y == Priv.Attribute(n, cid, name) || !Priv.AttributeOf(cid, name)(y)
    requires x.Attribute? && y.Attribute? && (x.attributeName == name || y.attributeName == name) && x.thing == cid && y.thing == cid
    requires !Priv.AttributeOf(cid, name)(z)
    ensures Priv.FindAttribute(d0 + [x] + [y], cid, name) == Some(Priv.Attribute(FirstAttributeId(d0, cid, name, n), cid, name))
    ensures Priv.FindAttribute(d0 + [x] + [y] + [z], cid, name) == Some(Priv.Attribute(FirstAttributeId(d0, cid, name, n), cid, name))
  {
    Priv.FindAttributeAppend(d0, x, cid, name);
    Priv.FindAttributeAppend(d0 + [x], y, cid, name);
    Priv.FindAttributeAppend(d0 + [x] + [y], z, cid, name);
  }

  /** A name that was free is found, after a community of that name is stored,
      as that community. */
  lemma FindCommunityAppend(docs: seq<Comm.CommDoc>, c: Comm.CommDoc, name: string)
    requires Comm.FindCommunity(docs, name).None? && c.Community? && c.communityName == name
    ensures Comm.FindCommunity(docs + [c], name) == Some(c)
  {
    FindAppend(docs, c, Comm.Named(name));
  }

  /** `JoinCommunity`: NotFound for an unknown community or a user without an
      invitation to it; otherwise the invitation is consumed and the user is
      related to the community as `member`, which fails with NotFound when the
      community has no `member` relation type. */
  method JoinCommunity(comm: Comm.ContentCommunityingConcept, inv: Inv.InvitingConcept, rel: Rel.RelationshippingConcept,
                       user: Id, communityName: string) returns (r: Outcome)
    requires inv.Valid() && rel.Valid()
    modifies inv, rel
    ensures inv.Valid() && rel.Valid()
    ensures Comm.FindCommunity(comm.docs, communityName).None? ==>
              r == Fail(NotFound) && inv.docs == old(inv.docs) && inv.nextId == old(inv.nextId) && rel.docs == old(rel.docs) && rel.nextId == old(rel.nextId)
    ensures Comm.FindCommunity(comm.docs, communityName).Some? ==>
              var c := Comm.FindCommunity(comm.docs, communityName).value;
              (!Inv.HasInvite(old(inv.docs), user, c.id) ==> r == Fail(NotFound) && inv.docs == old(inv.docs) && inv.nextId == old(inv.nextId) && rel.docs == old(rel.docs) && rel.nextId == old(rel.nextId)) &&
              (Inv.HasInvite(old(inv.docs), user, c.id) ==>
                 inv.docs == RemoveFirst(old(inv.docs), Inv.InviteFor(user, c.id)) && inv.nextId == old(inv.nextId) &&
                 (Rel.FindType(old(rel.docs), c.id, "member").None? ==> r == Fail(NotFound) && rel.docs == old(rel.docs) && rel.nextId == old(rel.nextId)) &&
                 (Rel.FindType(old(rel.docs), c.id, "member").Some? ==>
                    r == Pass &&
                    rel.docs == old(rel.docs) + [Rel.Membership(old(rel.nextId), Rel.FindType(old(rel.docs), c.id, "member").value.id, user)] &&
                    rel.nextId == old(rel.nextId) + 1))
  {
    var community := comm.GetCommunityByName(communityName);
    if community.Err? {
      return Fail(community.error);
    }
    var cid := community.value.id;
    var invited := inv.UserHasInvite(user, cid);
    if invited.Fail? {
      return invited;
    }
    var deleted := inv.DeleteInvite(user, cid);
    assert deleted == Pass;
    r := rel.Relate(cid, user, "member");
  }

  /** `LeaveCommunity`: NotFound for an unknown community; otherwise unrelates
      the user from its `member` relation type, which fails with NotFound when
      there is none and removes one membership of the user when there is. */
  method LeaveCommunity(comm: Comm.ContentCommunityingConcept, rel: Rel.RelationshippingConcept,
                        user: Id, communityName: string) returns (r: Outcome)
    requires rel.Valid()
    modifies rel
    ensures rel.Valid() && rel.nextId == old(rel.nextId)
    ensures Comm.FindCommunity(comm.docs, communityName).None? ==> r == Fail(NotFound) && rel.docs == old(rel.docs)
    ensures Comm.FindCommunity(comm.docs, communityName).Some? ==>
              var c := Comm.FindCommunity(comm.docs, communityName).value;
              (Rel.FindType(old(rel.docs), c.id, "member").None? ==> r == Fail(NotFound) && rel.docs == old(rel.docs)) &&
              (Rel.FindType(old(rel.docs), c.id, "member").Some? ==>
                 r == Pass &&
                 rel.docs == RemoveFirst(old(rel.docs), Rel.Edge(Rel.FindType(old(rel.docs), c.id, "member").value.id, user)))
  {
    var community := comm.GetCommunityByName(communityName);
    if community.Err? {
      return Fail(community.error);
    }
    r := rel.Unrelate(community.value.id, user, "member");
  }

  /** `postToCommunity` as written: checks attribute `member`, then files the post. */
  method PostToCommunity(comm: Comm.ContentCommunityingConcept, rel: Rel.RelationshippingConcept,
                         priv: Priv.PrivacyControllingConcept, user: Id, communityName: string,
                         post: Id) returns (r: Outcome)
    requires comm.Valid()
    modifies comm
    ensures comm.Valid()
    ensures CommunityCheck(old(comm.docs), priv.docs, communityName, "member") != Pass ==>
              r == CommunityCheck(old(comm.docs), priv.docs, communityName, "member") && comm.docs == old(comm.docs) && comm.nextId == old(comm.nextId)
    ensures CommunityCheck(old(comm.docs), priv.docs, communityName, "member") == Pass ==>
              var c := Comm.FindCommunity(old(comm.docs), communityName).value;
              r == Pass && comm.docs == old(comm.docs) + [Comm.CommunityPost(old(comm.nextId), c.id, post)] &&
              comm.nextId == old(comm.nextId) + 1
  {
    r := CheckCommunityPermission(comm, rel, priv, user, communityName, "member");
    if r.Fail? {
      return r;
    }
    r := comm.AddPost(communityName, post);
  }

  /** `postToCommunity` checking the attribute the private setup creates for
      posting, `communityPost`, with the corrected relation lookup. */
  method PostToCommunityIntended(comm: Comm.ContentCommunityingConcept, rel: Rel.RelationshippingConcept,
                                 priv: Priv.PrivacyControllingConcept, user: Id, communityName: string,
                                 post: Id) returns (r: Outcome)
    requires comm.Valid()
    modifies comm
    ensures comm.Valid()
    ensures CommunityCheckIntended(old(comm.docs), rel.docs, priv.docs, user, communityName, "communityPost") != Pass ==>
              r == CommunityCheckIntended(old(comm.docs), rel.docs, priv.docs, user, communityName, "communityPost") &&
              comm.docs == old(comm.docs) && comm.nextId == old(comm.nextId)
    ensures CommunityCheckIntended(old(comm.docs), rel.docs, priv.docs, user, communityName, "communityPost") == Pass ==>
              var c := Comm.FindCommunity(old(comm.docs), communityName).value;
              r == Pass && comm.docs == old(comm.docs) + [Comm.CommunityPost(old(comm.nextId), c.id, post)] &&
              comm.nextId == old(comm.nextId) + 1
  {
    r := CheckCommunityPermissionIntended(comm, rel, priv, user, communityName, "communityPost");
    if r.Fail? {
      return r;
    }
    r := comm.AddPost(communityName, post);
  }

  /** `getCommunityPosts` as written: checks attribute `member`, then lists the
      community's post filings. */
  method GetCommunityPosts(comm: Comm.ContentCommunityingConcept, rel: Rel.RelationshippingConcept,
                           priv: Priv.PrivacyControllingConcept, user: Id,
                           communityName: string) returns (r: Result<seq<Comm.CommDoc>>)
    ensures CommunityCheck(comm.docs, priv.docs, communityName, "member") != Pass ==>
              r == Err(CommunityCheck(comm.docs, priv.docs, communityName, "member").error)
    ensures CommunityCheck(comm.docs, priv.docs, communityName, "member") == Pass ==>
              r == Ok(Filter(comm.docs, Comm.PostsOf(Comm.FindCommunity(comm.docs, communityName).value.id)))
  {
    var check := CheckCommunityPermission(comm, rel, priv, user, communityName, "member");
    if check.Fail? {
      return Err(check.error);
    }
    r := comm.GetCommunityPosts(communityName);
  }

  /** `getCommunityPosts` checking the attribute the private setup creates for
      reading, `read`, with the corrected relation lookup. */
  method GetCommunityPostsIntended(comm: Comm.ContentCommunityingConcept, rel: Rel.RelationshippingConcept,
                                   priv: Priv.PrivacyControllingConcept, user: Id,
                                   communityName: string) returns (r: Result<seq<Comm.CommDoc>>)
    ensures CommunityCheckIntended(comm.docs, rel.docs, priv.docs, user, communityName, "read") != Pass ==>
              r == Err(CommunityCheckIntended(comm.docs, rel.docs, priv.docs, user, communityName, "read").error)
    ensures CommunityCheckIntended(comm.docs, rel.docs, priv.docs, user, communityName, "read") == Pass ==>
              r == Ok(Filter(comm.docs, Comm.PostsOf(Comm.FindCommunity(comm.docs, communityName).value.id)))
  {
    var check := CheckCommunityPermissionIntended(comm, rel, priv, user, communityName, "read");
    if check.Fail? {
      return Err(check.error);
    }
    r := comm.GetCommunityPosts(communityName);
  }

  /** `deleteCommunityPost` as written: the `member` check, or failing that
      ownership, lets the request through, and the concept call then removes
      nothing. */
  method DeleteCommunityPost(comm: Comm.ContentCommunityingConcept, rel: Rel.RelationshippingConcept,
                             priv: Priv.PrivacyControllingConcept, user: Id, communityName: string,
                             post: Id) returns (r: Outcome)
    requires comm.Valid()
    modifies comm
    ensures comm.docs == old(comm.docs) && comm.nextId == old(comm.nextId)
    ensures CommunityCheck(comm.docs, priv.docs, communityName, "member") == Pass || IsOwner(comm.docs, communityName, user) ==>
              r == Pass
    ensures CommunityCheck(comm.docs, priv.docs, communityName, "member") != Pass && !IsOwner(comm.docs, communityName, user) ==>
              r == Fail(if Comm.FindCommunity(comm.docs, communityName).None? then NotFound else NotAllowed)
  {
    var check := CheckCommunityPermission(comm, rel, priv, user, communityName, "member");
    if check.Fail? {
      var owner := comm.AssertUserIsOwner(communityName, user);
      if owner.Fail? {
        return owner;
      }
    }
    comm.DeletePost(communityName, post);
    r := Pass;
  }

  /** `deleteCommunityPost` with the corrected check on `communityPost` and the
      corrected concept call: a member or the owner removes one filing of the
      post. */
  method DeleteCommunityPostIntended(comm: Comm.ContentCommunityingConcept, rel: Rel.RelationshippingConcept,
                                     priv: Priv.PrivacyControllingConcept, user: Id, communityName: string,
                                     post: Id) returns (r: Outcome)
    requires comm.Valid()
    modifies comm
    ensures comm.Valid() && comm.nextId == old(comm.nextId)
    ensures CommunityCheckIntended(old(comm.docs), rel.docs, priv.docs, user, communityName, "communityPost") == Pass ||
            IsOwner(old(comm.docs), communityName, user) ==>
              var c := Comm.FindCommunity(old(comm.docs), communityName).value;
              r == Pass && comm.docs == RemoveFirst(old(comm.docs), Comm.Filing(c.id, post))
    ensures CommunityCheckIntended(old(comm.docs), rel.docs, priv.docs, user, communityName, "communityPost") != Pass &&
            !IsOwner(old(comm.docs), communityName, user) ==>
              r == Fail(if Comm.FindCommunity(old(comm.docs), communityName).None? then NotFound else NotAllowed) &&
              comm.docs == old(comm.docs) && comm.nextId == old(comm.nextId)
  {
    var check := CheckCommunityPermissionIntended(comm, rel, priv, user, communityName, "communityPost");
    if check.Fail? {
      var owner := comm.AssertUserIsOwner(communityName, user);
      if owner.Fail? {
        return owner;
      }
    }
    comm.DeletePostIntended(communityName, post);
    r := Pass;
  }

  /** `joinCollaborator`: NotFound for an unknown post or a user without an
      invitation to it; otherwise the invitation is consumed and the user is
      stored as a collaborator on the post. */
  method JoinCollaborator(posts: Posts, inv: Inv.InvitingConcept, colab: Col.CollaboratingConcept,
                          user: Id, id: Id) returns (r: Result<Option<Col.Colab>>)
    requires inv.Valid() && colab.Valid()
    modifies inv, colab
    ensures inv.Valid() && colab.Valid()
    ensures id !in posts || !Inv.HasInvite(old(inv.docs), user, id) ==>
              r == Err(NotFound) && inv.docs == old(inv.docs) && inv.nextId == old(inv.nextId) && colab.docs == old(colab.docs) && colab.nextId == old(colab.nextId)
    ensures id in posts && Inv.HasInvite(old(inv.docs), user, id) ==>
              var d := Col.Colab(old(colab.nextId), user, id);
              r == Ok(Some(d)) &&
              inv.docs == RemoveFirst(old(inv.docs), Inv.InviteFor(user, id)) && inv.nextId == old(inv.nextId) &&
              colab.docs == old(colab.docs) + [d] && colab.nextId == old(colab.nextId) + 1
  {
    var post := GetPostAuthor(posts, id);
    if post.Err? {
      return Err(post.error);
    }
    var invited := inv.UserHasInvite(user, id);
    if invited.Fail? {
      return Err(invited.error);
    }
    var deleted := inv.DeleteInvite(user, id);
    assert deleted == Pass;
    var msg := colab.AddColab(user, id);
    r := Ok(msg);
  }

  /** `updatePost` as written: the author may edit, and otherwise
      `assertColab`, which always fails, decides; so only the author may. */
  method UpdatePost(posts: Posts, colab: Col.CollaboratingConcept, user: Id, id: Id) returns (r: Outcome)
    ensures id in posts && posts[id] == user ==> r == Pass
    ensures !(id in posts && posts[id] == user) ==> r == Fail(NotAllowed)
  {
    r := AssertAuthorIsUser(posts, id, user);
    if r.Fail? {
      r := colab.AssertColab(user, id);
      if r.Fail? {
        return r;
      }
    }
  }

  /** `updatePost` over the corrected `assertColab`: the author or a
      collaborator may edit. */
  method UpdatePostIntended(posts: Posts, colab: Col.CollaboratingConcept, user: Id, id: Id) returns (r: Outcome)
    ensures (id in posts && posts[id] == user) || Col.IsColab(colab.docs, user, id) ==> r == Pass
    ensures !(id in posts && posts[id] == user) && !Col.IsColab(colab.docs, user, id) ==> r == Fail(NotAllowed)
  {
    r := AssertAuthorIsUser(posts, id, user);
    if r.Fail? {
      r := colab.AssertColabIntended(user, id);
      if r.Fail? {
        return r;
      }
    }
  }
}
