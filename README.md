# Relation-based privacy for posts and communities, in Dafny

This project models the server core of a small social application. Users define named relation
types and put other users into them (Relationshipping). Resources carry named privacy attributes
that accept relation names (PrivacyControlling). Two route helpers combine the two stores into one
access check: they look up the relations between the resource's owner and the requesting user,
then ask whether the attribute accepts any of their names. Four smaller record tables support
the routes:

- communities and the posts filed under them (ContentCommunitying);
- invitations (Inviting);
- collaborators on posts (Collaborating);
- replies attached to objects (Replying).

The model has one module per concept, each with a class whose `docs` field is the concept's
store. Two shared modules support them. `Seqs` holds filtering, first-match search and
first-match removal over sequences, with their lemmas. `Docs` holds the document-store
semantics the concepts rely on:

- `createOne` appends a record with a fresh id;
- `readOne` returns the first record that matches every field of the filter;
- `readMany` returns all matches in store order;
- `deleteOne` removes the first match;
- a filter naming a field that a record does not have never matches it.

Every concept that has two document collections constructs both under the same collection
name, so both record kinds live in one store. Each concept's store is therefore one sequence of a sum type.
This matters in Replying: there, a filter meant for one kind of record can match the other
kind. Thrown errors become `Result`/`Outcome` values:

- `NotFound` and `NotAllowed`;
- `Unsatisfied(attributeName, values)` for `UnsatisfiedError` (privacyControlling.ts:116-123).

A route that fails stops at the failing call, and earlier calls keep their effects.

Several operations do not do what their authors evidently meant. Each one is modelled twice:

- the member with the plain name models the code as written;
- a member ending in `Intended` models the evident intent.

The two are related by lemmas. The routes are modelled as written over the as-written concepts.
The `Intended` routes use the corrected concepts. Without those, nothing reaches the private
community setup, because community creation always fails.

Where the code and an informal reading of it disagree, the model follows the code.

- Replying's two collections share one store. So `deleteReply`, which filters on the field
  `reply`, does not leave the store unchanged. It removes the first link record that attaches
  this reply to an object, and it never removes the reply itself. Two separate tables would
  therefore not be a faithful abstraction of Replying.
- `assignReply` looks the reply up by `_id`, and in the shared store a link record can satisfy
  that lookup. The model keeps this behaviour (`Replying.IdTaken` counts records of both kinds).
- `getCommunities` reads with an empty filter, which also returns the post filings stored
  beside the communities.

## Model

| member | source | states |
|---|---|---|
| Relationshipping.RelationshippingConcept.CreateRelationship | server/concepts/relationshipping.ts:30-38 | NotAllowed with the store untouched when the owner already has a relation type of that name; otherwise exactly one new type is appended and returned, and the invariant that no two types share owner and name is kept |
| Relationshipping.AtMostOneType | server/concepts/relationshipping.ts:32-35 | under that invariant at most one type exists per owner and name |
| Relationshipping.FindType | server/concepts/relationshipping.ts:41 | none exactly when the owner has no relation type of that name; otherwise such a type from the store |
| Relationshipping.ReadType | server/concepts/relationshipping.ts:41 | the lookup by owner and name returns the first relation type of that owner and name |
| Relationshipping.RelationshippingConcept.Relate | server/concepts/relationshipping.ts:40-48 | NotFound with nothing changed when the type is missing; otherwise one membership of the target in the first such type is appended, with no duplicate check |
| Relationshipping.RelationshippingConcept.Unrelate | server/concepts/relationshipping.ts:50-58 | NotFound with nothing changed when the type is missing; otherwise the first membership of the target in that type, if any, is removed and nothing else |
| Relationshipping.RelateTwiceUnrelateOnce | server/concepts/relationshipping.ts:40-58 | relating a target twice and unrelating it once leaves one more edge than before |
| Relationshipping.UnrelatedAfterLastEdge | server/concepts/relationshipping.ts:50-58 | removing the only edge of a target unlinks that type from the target |
| Relationshipping.RelationshippingConcept.DeleteRelationship | server/concepts/relationshipping.ts:60-63 | removes the first type of that owner and name; afterwards no such type is found, and every membership row is kept |
| Relationshipping.DeletedTypeGone | server/concepts/relationshipping.ts:60-63 | under the invariant, after the delete no type of that owner and name remains, so relate, unrelate and getRelatedUsers report NotFound |
| Relationshipping.DeleteKeepsMemberships | server/concepts/relationshipping.ts:60-63 | the delete leaves the membership rows exactly as they were |
| Relationshipping.RelationshippingConcept.GetRelationship | server/concepts/relationshipping.ts:65-77 | as written the guard never holds, so the result is empty whatever the memberships |
| Relationshipping.RelationshippingConcept.GetRelationshipIntended | server/concepts/relationshipping.ts:65-77 | the loop collects exactly the owner's relation types that have a membership for the target, in store order |
| Relationshipping.SharedRelations | server/concepts/relationshipping.ts:65-77 | a type is listed exactly when it belongs to the owner and has a membership for the target |
| Relationshipping.CheckRelationMeans | server/concepts/relationshipping.ts:71 | for a type of the owner, the membership lookup finds a record exactly when the type holds the target |
| Relationshipping.RelatedAfterRelate | server/concepts/relationshipping.ts:40-48 | after a membership of the target is added to a type, that type is among the relations shared with the target |
| Relationshipping.SharedNamesDistinct | server/concepts/relationshipping.ts:65-77 | under the invariant the shared relations have pairwise distinct names |
| Relationshipping.RelationshippingConcept.GetRelationships | server/concepts/relationshipping.ts:79-82 | exactly the types owned by the creator, in store order |
| Relationshipping.RelationshippingConcept.GetRelatedUsers | server/concepts/relationshipping.ts:84-92 | NotFound for an undefined type; otherwise every membership row of the type, duplicates included |
| Relationshipping.RelationNames | server/routes.ts:356 | the names of the relations, one per relation, in order |
| Relationshipping.SharedNameListed | server/routes.ts:356 | the name of every shared relation is among the names offered to the attribute |
| PrivacyControlling.PrivacyControllingConcept.CreateAttribute | server/concepts/privacyControlling.ts:30-33 | appends one attribute of the thing, even when one of that name exists, and returns it |
| PrivacyControlling.PrivacyControllingConcept.AssignAttribute | server/concepts/privacyControlling.ts:35-43 | NotFound with nothing changed when the thing has no such attribute; otherwise one accepted value is appended to the first such attribute |
| PrivacyControlling.AssignedValueSatisfies | server/concepts/privacyControlling.ts:35-43 | once a value is assigned to the attribute a check uses, offering that value satisfies the check |
| PrivacyControlling.SatisfiedAppend | server/concepts/privacyControlling.ts:30-43 | a satisfied check stays satisfied when records are appended |
| PrivacyControlling.FindAttributeAppend | server/concepts/privacyControlling.ts:30-33 | appending a record moves no existing first attribute of a name; it becomes the first only when none existed |
| PrivacyControlling.PrivacyControllingConcept.AnyValueSatisfies | server/concepts/privacyControlling.ts:46-62 | `true` when the attribute is missing; otherwise whether one of the attribute's accepted values equals one of the offered values |
| PrivacyControlling.PrivacyControllingConcept.ScanValues | server/concepts/privacyControlling.ts:54-60 | the nested loops set the flag exactly when some accepted value equals some offered value |
| PrivacyControlling.VerdictMeans | server/concepts/privacyControlling.ts:46-62 | a check fails exactly when the attribute exists and each of its accepted values differs from every offered value |
| PrivacyControlling.NoValuesUnsatisfied | server/concepts/privacyControlling.ts:53-61 | with no offered values an existing attribute is never satisfied |
| PrivacyControlling.PrivacyControllingConcept.AssertAnyValueSatisfies | server/concepts/privacyControlling.ts:64-83 | passes exactly when the check of `anyValueSatisfies` passes, and otherwise fails with Unsatisfied carrying the attribute name and the offered values |
| PrivacyControlling.PrivacyControllingConcept.DeleteAttribute | server/concepts/privacyControlling.ts:85-88 | removes the first attribute of that thing and name, and keeps every value row |
| PrivacyControlling.DeletedAttributeFailsOpen | server/concepts/privacyControlling.ts:85-88 | deleting the only such attribute makes every later check of it pass, although its values stay stored |
| PrivacyControlling.DuplicateSurvivesDelete | server/concepts/privacyControlling.ts:85-88 | with two attributes of the same name, deleting one leaves the second one in force |
| PrivacyControlling.PrivacyControllingConcept.GetAttributes | server/concepts/privacyControlling.ts:90-93 | exactly the attributes of the thing, in store order |
| PrivacyControlling.PrivacyControllingConcept.GetAttributeValues | server/concepts/privacyControlling.ts:95-103 | NotFound for a missing attribute, unlike the fail-open checks; otherwise exactly its value rows |
| PrivacyControlling.FindAttribute | server/concepts/privacyControlling.ts:36-37 | none exactly when no attribute of that thing and name exists; otherwise such an attribute from the store |
| PrivacyControlling.ReadAttribute | server/concepts/privacyControlling.ts:36 | the lookup by thing and name returns the first attribute of that thing and name |
| ContentCommunitying.ContentCommunityingConcept.CreateCommunity | server/concepts/contentCommunitying.ts:30-38 | as written the duplicate check tests an array for truth, so every call fails with NotAllowed |
| ContentCommunitying.ContentCommunityingConcept.CreateCommunityIntended | server/concepts/contentCommunitying.ts:30-38 | NotAllowed with nothing changed for a taken name; otherwise the new community is appended and returned, and community names stay unique |
| ContentCommunitying.AtMostOneCommunity | server/concepts/contentCommunitying.ts:32-35 | with unique names at most one community has a given name |
| ContentCommunitying.ContentCommunityingConcept.AddPost | server/concepts/contentCommunitying.ts:40-48 | NotFound with nothing changed for an unknown name; otherwise one filing of the post under the community's id is appended |
| ContentCommunitying.AddedPostListed | server/concepts/contentCommunitying.ts:40-48 | a filed post appears last among the community's posts |
| ContentCommunitying.ContentCommunityingConcept.DeleteCommunity | server/concepts/contentCommunitying.ts:50-53 | removes the community of that name, after which none is found, and keeps every post filing |
| ContentCommunitying.DeletedCommunityGone | server/concepts/contentCommunitying.ts:50-53 | with unique names nothing of that name is left and the post filings are untouched |
| ContentCommunitying.ContentCommunityingConcept.DeletePost | server/concepts/contentCommunitying.ts:55-58 | as written the filter names a field post filings lack, so the store is unchanged |
| ContentCommunitying.NamePostQueryMatchesNothing | server/concepts/contentCommunitying.ts:56 | that filter matches no record, so the delete is a no-op |
| ContentCommunitying.ContentCommunityingConcept.DeletePostIntended | server/concepts/contentCommunitying.ts:55-58 | removes the first filing of the post under the named community, and nothing when the community is unknown |
| ContentCommunitying.RemovedFilingListed | server/concepts/contentCommunitying.ts:55-58 | after that removal the community's post list is the old one with the first filing of the post taken out |
| ContentCommunitying.ContentCommunityingConcept.GetCommunities | server/concepts/contentCommunitying.ts:60-63 | the empty filter returns the whole store, post filings included |
| ContentCommunitying.CommunitiesListPosts | server/concepts/contentCommunitying.ts:61 | once any post is filed, that listing holds records that are not communities |
| ContentCommunitying.ContentCommunityingConcept.GetCommunitiesIntended | server/concepts/contentCommunitying.ts:60-63 | exactly the communities |
| ContentCommunitying.ContentCommunityingConcept.GetCommunityByName | server/concepts/contentCommunitying.ts:65-71 | NotFound for an unknown name; otherwise the first community of that name |
| ContentCommunitying.FindCommunity | server/concepts/contentCommunitying.ts:66 | none exactly when no community has the name; otherwise a community of that name in the store |
| ContentCommunitying.ReadCommunity | server/concepts/contentCommunitying.ts:66 | the lookup by name returns the first community of that name |
| ContentCommunitying.ContentCommunityingConcept.GetCommunityPosts | server/concepts/contentCommunitying.ts:73-81 | NotFound for an unknown name; otherwise exactly the filings of that community's id |
| ContentCommunitying.ContentCommunityingConcept.AssertUserIsOwner | server/concepts/contentCommunitying.ts:83-91 | NotFound for an unknown name, NotAllowed for a user whose id differs from the owner's, Pass for the owner |
| Inviting.InvitingConcept.InviteUser | server/concepts/inviting.ts:24-27 | appends one invitation, duplicates allowed, and returns it |
| Inviting.InvitingConcept.DeleteInvite | server/concepts/inviting.ts:29-37 | NotFound with nothing changed without an invitation; otherwise exactly the first invitation of that user to that thing is removed |
| Inviting.ConsumeInvite | server/concepts/inviting.ts:29-37 | looking the invitation up and deleting by its id removes exactly the first matching invitation |
| Inviting.DeleteConsumesOne | server/concepts/inviting.ts:29-37 | consuming an invitation lowers that user's invitations to that thing by exactly one |
| Inviting.InviteTwiceDeleteOnce | server/concepts/inviting.ts:24-37 | invited twice and consumed once, the user still holds an invitation |
| Inviting.InvitingConcept.CheckInvites | server/concepts/inviting.ts:39-41 | exactly the user's invitations, with strictly decreasing ids |
| Inviting.NewestFirstSorted | server/concepts/inviting.ts:40 | with increasing ids in store order, the reversed list has the user's invitations and strictly decreasing ids |
| Inviting.InvitingConcept.UserHasInvite | server/concepts/inviting.ts:43-55 | Pass exactly when one of the user's invitations is for the thing, otherwise NotFound |
| Collaborating.CollaboratingConcept.AddColab | server/concepts/collaborating.ts:24-27 | appends one collaboration, duplicates allowed, and returns it |
| Collaborating.AddTwiceRemoveOnce | server/concepts/collaborating.ts:24-37 | after one addition the user collaborates; added twice and removed once, they still do |
| Collaborating.CollaboratingConcept.RemoveColab | server/concepts/collaborating.ts:29-37 | NotFound with nothing changed without a collaboration; otherwise exactly the first one is removed |
| Collaborating.RecieverQueryMatchesNothing | server/concepts/collaborating.ts:40 | the filter on `reciever` matches no stored collaboration |
| Collaborating.CollaboratingConcept.CheckColab | server/concepts/collaborating.ts:39-45 | as written always false |
| Collaborating.CollaboratingConcept.CheckColabIntended | server/concepts/collaborating.ts:39-45 | true exactly when the user collaborates on the object |
| Collaborating.CollaboratingConcept.AssertColab | server/concepts/collaborating.ts:47-52 | as written always NotAllowed |
| Collaborating.CollaboratingConcept.AssertColabIntended | server/concepts/collaborating.ts:47-52 | Pass exactly for a collaborator, otherwise NotAllowed |
| Collaborating.ReadColab | server/concepts/collaborating.ts:30 | the lookup by user and object finds a record exactly when the user collaborates on the object |
| Collaborating.CollaboratingConcept.GetColabs | server/concepts/collaborating.ts:54-57 | exactly the collaborations on the object, in store order |
| Replying.ReplyingConcept.CreateReply | server/concepts/replying.ts:30-33 | appends one reply and returns its fresh id |
| Replying.ReplyingConcept.DeleteReply | server/concepts/replying.ts:35-38 | as written removes the first link that attaches the reply, and keeps every reply record |
| Replying.DeleteReplyKeepsReplies | server/concepts/replying.ts:36 | that delete leaves the reply records exactly as they were |
| Replying.ReplyingConcept.DeleteReplyIntended | server/concepts/replying.ts:35-38 | removes the record with the reply's id |
| Replying.DeleteByIdRemovesReply | server/concepts/replying.ts:35-38 | with fresh ids that removal takes out exactly the reply and nothing else |
| Replying.ReplyingConcept.AssignReply | server/concepts/replying.ts:40-47 | NotFound with nothing changed when no record has the id; otherwise one link of the object to the reply is appended |
| Replying.ReadById | server/concepts/replying.ts:41 | the lookup by `_id` finds a record exactly when some record has that id, and it has that id |
| Replying.AssignedReplyListed | server/concepts/replying.ts:40-47 | an attached reply appears last among the object's replies |
| Replying.ReplyingConcept.RemoveReply | server/concepts/replying.ts:49-52 | removes the first link of the object to the reply and nothing else |
| Replying.RemovedReplyUnlisted | server/concepts/replying.ts:49-52 | after that removal the object lists that reply one time fewer |
| Replying.ReplyingConcept.GetReplyByObject | server/concepts/replying.ts:54-60 | the reply ids of the object's links in store order, never NotFound; an id is listed exactly when a link attaches it |
| Replying.ReplyIds | server/concepts/replying.ts:59 | one reply id per link, in order |
| Replying.RepliesOfMeans | server/concepts/replying.ts:54-60 | a reply is listed for an object exactly when a link attaches it to the object |
| Replying.ReplyingConcept.GetReplyByID | server/concepts/replying.ts:62-68 | as written the filter names a field no record has, so the result is always NotFound |
| Replying.IdFieldQueryMatchesNothing | server/concepts/replying.ts:63 | the filter on `id` matches no record |
| Replying.ReplyingConcept.GetReplyByIDIntended | server/concepts/replying.ts:62-68 | NotFound exactly when no record has the id; otherwise a record with that id |
| Routes.CheckRelationPermission | server/routes.ts:351-358 | NotFound for an unknown post; otherwise Pass exactly when the post has no attribute of that name, and Unsatisfied with no names when it has one |
| Routes.CheckRelationPermissionIntended | server/routes.ts:351-358 | NotFound for an unknown post; otherwise the post's attribute is checked against the names of the author's relations that include the user |
| Routes.RelationCheckWeaker | server/routes.ts:351-358 | whoever the check as written lets through, the corrected check lets through too |
| Routes.EmptyGrantFailsOpen | server/routes.ts:355-357 | offering no names passes exactly when the attribute is absent; when it is present the failure is Unsatisfied with no names |
| Routes.CheckCommunityPermission | server/routes.ts:360-366 | NotFound for an unknown community; otherwise, as for posts, only a missing attribute lets anyone through |
| Routes.CheckCommunityPermissionIntended | server/routes.ts:360-366 | the community's attribute is checked against the names of the community's relations that include the user |
| Routes.CommunityCheckWeaker | server/routes.ts:360-366 | whoever the community check as written lets through, the corrected check lets through too |
| Routes.CreateCommunity | server/routes.ts:135-148 | as written the first concept call always fails, so the route fails with NotAllowed before the private setup |
| Routes.CreateCommunityIntended | server/routes.ts:135-148 | NotAllowed for a taken name; otherwise the community is stored; with `notPrivate` nothing else changes; otherwise the private setup runs and its failure is the route's |
| Routes.PrivateSetup | server/routes.ts:138-146 | NotAllowed with nothing changed when the community already has a `member` relation type; otherwise that type is appended and the privacy store gains exactly the setup records |
| Routes.GuardCommunity | server/routes.ts:142-145 | the two attributes and their two `member` values are appended, in call order |
| Routes.SetupGuards | server/routes.ts:142-145 | after the setup, offering `member` satisfies both `read` and `communityPost`, and the attribute named `member` is as it was |
| Routes.MemberCheckFailsOpen | server/routes.ts:181-182 | the `member` check of the community routes passes for everyone after a setup that found no `member` attribute |
| Routes.PrivateCommunityAdmitsMembers | server/routes.ts:187-192 | with the corrected lookup, a user with no relation to the community is refused `read` and is admitted once related as `member`; the check as written refuses them both times |
| Routes.JoinCommunity | server/routes.ts:163-170 | NotFound with nothing changed for an unknown community or a missing invitation; otherwise one invitation is consumed and the user is related as `member`, which fails with NotFound after the consumption when the community has no `member` type |
| Routes.LeaveCommunity | server/routes.ts:172-177 | NotFound for an unknown community or a missing `member` type; otherwise one membership of the user is removed |
| Routes.PostToCommunity | server/routes.ts:180-185 | the `member` check's failure is the route's, with nothing changed; otherwise the post is filed under the community |
| Routes.PostToCommunityIntended | server/routes.ts:180-185 | the same, after the corrected check on `communityPost` |
| Routes.GetCommunityPosts | server/routes.ts:187-192 | the `member` check's failure, or else exactly the community's filings |
| Routes.GetCommunityPostsIntended | server/routes.ts:187-192 | the same, after the corrected check on `read` |
| Routes.DeleteCommunityPost | server/routes.ts:194-205 | Pass when the `member` check passes or the user owns the community, otherwise the ownership failure; the store is unchanged either way |
| Routes.DeleteCommunityPostIntended | server/routes.ts:194-205 | a user who passes the corrected check on `communityPost`, or the owner, removes the first filing of the post; anyone else gets the ownership failure with nothing changed |
| Routes.JoinCollaborator | server/routes.ts:86-94 | NotFound with nothing changed for an unknown post or a missing invitation; otherwise one invitation is consumed and the user is stored as a collaborator and returned |
| Routes.UpdatePost | server/routes.ts:283-292 | as written only the author may edit; everyone else gets NotAllowed |
| Routes.UpdatePostIntended | server/routes.ts:283-292 | the author or a collaborator may edit; everyone else gets NotAllowed |

## Left out

- Sessioning, Authing, Friending and Responses are not part of this model. The requesting user is an id parameter of each route.
- Posting is not part of this model. The routes get a map from post id to author. From it, `getPostByID` gives NotFound for an unknown id, and `assertAuthorIsUser` gives NotFound or NotAllowed.
- Routes.UpdatePost: the edit itself, `Posting.update`, is not modelled. The route returns Pass where the edit would run.
- The route handlers reply, getReplies, deleteReply, getCollaborators, deleteColab, inviteUser and deleteCommunity (routes.ts:58-83, 96-120, 154-160) are not modelled. Each combines one of the modelled checks with concept calls:
  - checkRelationPermission for reply, getReplies, deleteReply and getCollaborators;
  - `Posting.assertAuthorIsUser` for deleteColab and inviteUser;
  - assertUserIsOwner for deleteCommunity.
- The remaining handlers are not modelled either: the relation routes, checkInvites, deleteInvite, getCommunities, and the user, session, post and friend routes.
  - Each makes at most one call into the concepts modelled here.
  - Their other calls go to Sessioning, Authing, Posting, Friending or Responses, and those concepts are not part of this model.
- The Express routing, decorators and zod validation are transport code and are left out.
- Timestamps, the structure of ObjectIds, message texts and response shapes are left out. Ids are natural numbers from a per-concept counter, and the model compares them by equality.
- ContentCommunitying.ContentCommunityingConcept.AssertUserIsOwner: compares the user and the owner by id equality.
  - The source compares `owner.id.toString()` (contentCommunitying.ts:88). That decodes the 12 raw bytes of each ObjectId as UTF-8 and replaces every invalid sequence with U+FFFD. So two different ids can compare equal, for example ids whose last bytes are 0x80 and 0x81 and whose other bytes agree.
  - The source then lets such a non-owner through this check, and so through deleteCommunity and the owner fallback of deleteCommunityPost. The model refuses them.
  - Per-concept counters also let ids of different concepts coincide, for example a post id equal to a community id in Inviting's `thing`. ObjectIds never allow that.
  - The comparison in `userHasInvite` at inviting.ts:47 is on hex strings, which is exact equality.
- Asynchronous calls run one after another. Concurrent requests are not modelled.
- `InvalidActionError` (privacyControlling.ts:106-114) is never thrown, so it is not modelled.
- Routes.CreateCommunity: models only the call that always fails. The private setup behind it is unreachable as written. It is modelled in Routes.CreateCommunityIntended, over the corrected concept call.
- PrivacyControlling.PrivacyControllingConcept.ScanValues: the nested loops appear twice in the source, once in each check. Both checks call this one method.
- Inviting.InvitingConcept.CheckInvites: sorting by descending `_id` is modelled as reversing the store order. The two agree because ids increase in store order.
- Routes.JoinCommunity and Routes.JoinCollaborator: the result of `deleteInvite` is not examined. The preceding `userHasInvite` guarantees that it succeeds, and the proof asserts this.

## Findings

| source | as written | input that shows it | evidently intended | confidence | as-written member | corrected member |
|---|---|---|---|---|---|---|
| server/concepts/relationshipping.ts:72 | `!checkRelation == null` compares a boolean with null, so it never holds | relate(c, t, "friend") after creating that type, then getRelationship(c, t) returns [] | keep the types that have a membership for the target | not executed | Relationshipping.RelationshippingConcept.GetRelationship | Relationshipping.RelationshippingConcept.GetRelationshipIntended |
| server/concepts/contentCommunitying.ts:33 | `if (nameCheck)` tests an array, which is always truthy | createCommunity("c", u) on an empty store fails with NotAllowed | reject only when some community already has the name | not executed | ContentCommunitying.ContentCommunityingConcept.CreateCommunity | ContentCommunitying.ContentCommunityingConcept.CreateCommunityIntended |
| server/concepts/contentCommunitying.ts:56 | the delete filters on `communityName`, which post filings do not have | addPost("c", p) then deletePost("c", p) leaves the filing | delete the filing of the post under the community's id | not executed | ContentCommunitying.NamePostQueryMatchesNothing | ContentCommunitying.ContentCommunityingConcept.DeletePostIntended |
| server/concepts/contentCommunitying.ts:61 | the empty filter also returns the post filings stored beside the communities | addPost on an existing community, then getCommunities lists the filing | list only the communities | not executed | ContentCommunitying.CommunitiesListPosts | ContentCommunitying.ContentCommunityingConcept.GetCommunitiesIntended |
| server/concepts/collaborating.ts:40 | the filter names `reciever`, a field no collaboration has | addColab(u, o) then checkColab(u, o) returns false | filter on `user` | not executed | Collaborating.CollaboratingConcept.CheckColab | Collaborating.CollaboratingConcept.CheckColabIntended |
| server/concepts/collaborating.ts:48 | the same misspelt filter | addColab(u, o) then assertColab(u, o) fails with NotAllowed | filter on `user` | not executed | Collaborating.CollaboratingConcept.AssertColab | Collaborating.CollaboratingConcept.AssertColabIntended |
| server/concepts/replying.ts:36 | the delete filters on `reply`, which only link records have, so it removes a link and not the reply | createReply gives r, assignReply(o, r), deleteReply(r) removes the link and keeps r | delete the reply by `_id` | not executed | Replying.DeleteReplyKeepsReplies | Replying.DeleteByIdRemovesReply |
| server/concepts/replying.ts:63 | the lookup filters on `id`, a field no record has | createReply gives r, then getReplyByID(r) fails with NotFound | look the reply up by `_id` | not executed | Replying.IdFieldQueryMatchesNothing | Replying.ReplyingConcept.GetReplyByIDIntended |
| server/routes.ts:181 | the community post routes check an attribute named `member`, which the private setup never creates | after the private setup of a community with no `member` attribute, any user passes the check of postToCommunity | check `communityPost` for posting and deleting, and `read` for listing | not executed | Routes.MemberCheckFailsOpen | Routes.PrivateCommunityAdmitsMembers |
