/** Group membership on the server (backend/robson_insight/users/views.py):
    the profile table that links users to groups, and the views that add a
    user to a group, remove one, create a group, and list a group's members.

    The profile table is a map keyed by the (user, group) pair, so the
    uniqueness of that pair, which the schema declares, holds by
    construction. Responses are a status code and a body; the bodies that
    the views format from names are tagged with the user and group instead. */
module Membership {
  import opened Text

  type UserId = int
  type GroupId = int

  /** A row of the user table. */
  datatype User = User(id: UserId, username: string)

  /** The flags a profile carries, as the views read them. */
  datatype Profile = Profile(isAdmin: bool, canAdd: bool, canView: bool)

  /** The key of the profile table. */
  datatype Member = Member(user: UserId, group: GroupId)

  datatype Body =
    | Error(message: string)
    | ServerError
    | Added(user: UserId, group: GroupId)
    | AlreadyMember(user: UserId, group: GroupId)
    | Removed(user: UserId, group: GroupId)
    | GroupCreated(group: GroupId)

  datatype Response = Response(status: int, body: Body)

  /** Outcome of `objects.get` on the user table. */
  datatype Lookup = NotFound | Found(id: UserId) | Ambiguous

  /** The ids of the users whose name satisfies `matches`, in table order. */
  function MatchingIds(users: seq<User>, name: string, caseInsensitive: bool): (ids: seq<UserId>)
    ensures |ids| <= |users|
    ensures forall u :: u in ids <==> exists i :: 0 <= i < |users| && users[i].id == u && NameMatches(users[i].username, name, caseInsensitive)
  {
    if users == [] then []
    else
      var rest := MatchingIds(users[1..], name, caseInsensitive);
      assert forall i :: 1 <= i < |users| ==> users[i] == users[1..][i - 1];
      if NameMatches(users[0].username, name, caseInsensitive) then [users[0].id] + rest else rest
  }

  /** `username=` compares exactly; `username__iexact=` ignores case. */
  predicate NameMatches(stored: string, name: string, caseInsensitive: bool) {
    if caseInsensitive then ToLower(stored) == ToLower(name) else stored == name
  }

  /** `User.objects.get(...)`: one match is found, none is `DoesNotExist`,
      more than one is `MultipleObjectsReturned`. */
  function LookupUser(users: seq<User>, name: string, caseInsensitive: bool): (r: Lookup)
    ensures r.Found? ==> exists i :: 0 <= i < |users| && users[i].id == r.id && NameMatches(users[i].username, name, caseInsensitive)
    ensures r.NotFound? <==> forall i :: 0 <= i < |users| ==> !NameMatches(users[i].username, name, caseInsensitive)
    ensures r.Found? <==> |MatchingIds(users, name, caseInsensitive)| == 1
    ensures r.Found? ==> r.id == MatchingIds(users, name, caseInsensitive)[0]
    ensures r.Ambiguous? <==> |MatchingIds(users, name, caseInsensitive)| >= 2
  {
    var ids := MatchingIds(users, name, caseInsensitive);
    assert forall i :: 0 <= i < |users| && NameMatches(users[i].username, name, caseInsensitive) ==> users[i].id in ids;
    if |ids| == 0 then NotFound
    else
      assert ids[0] in ids;
      if |ids| == 1 then Found(ids[0]) else Ambiguous
  }

  /** `not group_id`: absent, or the falsy id 0. */
  predicate MissingGroupId(groupId: Option<int>) {
    groupId.None? || groupId.value == 0
  }

  /** Both fields of the request are present: the views go past their
      first check. */
  predicate Supplied(username: string, groupId: Option<int>) {
    username != "" && !MissingGroupId(groupId)
  }

  /** Some row of the user table has id `u`. */
  predicate HasUser(users: seq<User>, u: UserId) {
    exists i :: 0 <= i < |users| && users[i].id == u
  }

  /** The requester is an administrator of the group. */
  predicate IsAdminOf(profiles: map<Member, Profile>, user: UserId, group: GroupId) {
    Member(user, group) in profiles && profiles[Member(user, group)].isAdmin
  }

  // ---------------------------------------------------------------------
  // AddUserToGroupView.post
  // ---------------------------------------------------------------------

  /** The response of `AddUserToGroupView.post`. The checks run in a fixed
      order: both fields present (400), the user by case-insensitive name
      (404, or 500 when several names match), the group (404), the
      requester's own profile in the group (500 when it has none), the
      requester an administrator (403); then 201 when the user had no
      profile in the group and 200 when it had one. */
  function AddOutcome(users: seq<User>, groups: map<GroupId, string>, profiles: map<Member, Profile>,
                      requester: UserId, username: string, groupId: Option<int>): (r: Response)
    ensures r.status == 400 <==> username == "" || MissingGroupId(groupId)
    ensures r.status == 400 ==> r.body == Error("Username and group_id are required")
    ensures r == Response(404, Error("User not found")) <==>
              r.status != 400 && LookupUser(users, ToLower(username), true).NotFound?
    ensures r == Response(404, Error("Group not found")) ==> groupId.value !in groups
    ensures r.status == 403 ==> Member(requester, groupId.value) in profiles && !IsAdminOf(profiles, requester, groupId.value)
    ensures r.body.Added? ==>
              && r.status == 201 && groupId == Some(r.body.group) && r.body.group in groups
              && LookupUser(users, ToLower(username), true) == Found(r.body.user)
              && IsAdminOf(profiles, requester, r.body.group)
              && Member(r.body.user, r.body.group) !in profiles
    ensures r.body.AlreadyMember? ==>
              && r.status == 200 && groupId == Some(r.body.group)
              && Member(r.body.user, r.body.group) in profiles
    ensures r.status in {200, 201, 400, 403, 404, 500}
    ensures Supplied(username, groupId) && LookupUser(users, ToLower(username), true).Ambiguous? ==>
              r == Response(500, ServerError)
    ensures Supplied(username, groupId) && LookupUser(users, ToLower(username), true).Found? ==>
              (r == Response(404, Error("Group not found")) <==> groupId.value !in groups)
    ensures forall u :: Supplied(username, groupId) && LookupUser(users, ToLower(username), true) == Found(u)
                        && groupId.value in groups ==>
              var g := groupId.value;
              && (Member(requester, g) !in profiles ==> r == Response(500, ServerError))
              && (Member(requester, g) in profiles && !IsAdminOf(profiles, requester, g) ==>
                    r == Response(403, Error("You are not authorized to add users to this group.")))
              && (IsAdminOf(profiles, requester, g) && Member(u, g) in profiles ==>
                    r == Response(200, AlreadyMember(u, g)))
              && (IsAdminOf(profiles, requester, g) && Member(u, g) !in profiles ==>
                    r == Response(201, Added(u, g)))
  {
    var name := ToLower(username);
    if name == "" || MissingGroupId(groupId) then Response(400, Error("Username and group_id are required"))
    else match LookupUser(users, name, true)
      case NotFound => Response(404, Error("User not found"))
      case Ambiguous => Response(500, ServerError)
      case Found(u) =>
        var g := groupId.value;
        if g !in groups then Response(404, Error("Group not found"))
        else if Member(requester, g) !in profiles then Response(500, ServerError)
        else if !profiles[Member(requester, g)].isAdmin then
          Response(403, Error("You are not authorized to add users to this group."))
        else if Member(u, g) in profiles then Response(200, AlreadyMember(u, g))
        else Response(201, Added(u, g))
  }

  /** The profile table after an add: one new profile when the response
      says the user was added, none otherwise. */
  function ProfilesAfterAdd(profiles: map<Member, Profile>, r: Response, newProfile: Profile): (p: map<Member, Profile>)
    ensures r.body.Added? ==> p.Keys == profiles.Keys + {Member(r.body.user, r.body.group)}
    ensures r.body.Added? ==> p[Member(r.body.user, r.body.group)] == newProfile
    ensures forall m :: m in profiles ==> m in p && (p[m] == profiles[m] || (r.body.Added? && m == Member(r.body.user, r.body.group)))
    ensures !r.body.Added? ==> p == profiles
  {
    if r.body.Added? then profiles[Member(r.body.user, r.body.group) := newProfile] else profiles
  }

  /** Adding is idempotent: once a user has been added, the same request
      answers 200 "already in group" and changes nothing more. */
  lemma AddIsIdempotent(users: seq<User>, groups: map<GroupId, string>, profiles: map<Member, Profile>,
                        requester: UserId, username: string, groupId: Option<int>, newProfile: Profile)
    requires AddOutcome(users, groups, profiles, requester, username, groupId).body.Added?
    ensures var r1 := AddOutcome(users, groups, profiles, requester, username, groupId);
            var after := ProfilesAfterAdd(profiles, r1, newProfile);
            var r2 := AddOutcome(users, groups, after, requester, username, groupId);
            && r2 == Response(200, AlreadyMember(r1.body.user, r1.body.group))
            && ProfilesAfterAdd(after, r2, newProfile) == after
  {
    var r1 := AddOutcome(users, groups, profiles, requester, username, groupId);
    var g := r1.body.group;
    assert Member(requester, g) != Member(r1.body.user, g);
  }

  // ---------------------------------------------------------------------
  // RemoveUserFromGroup.post
  // ---------------------------------------------------------------------

  /** The response of `RemoveUserFromGroup.post`. The checks run in a fixed
      order: both fields present (400), the user by exact name (404), the
      group (404), the user's profile in the group (404 "not in this
      group"), the requester's profile in the group (the same 404, since
      both lookups raise the same exception), the requester an administrator
      (403); then 200 and the profile is deleted. */
  function RemoveOutcome(users: seq<User>, groups: map<GroupId, string>, profiles: map<Member, Profile>,
                         requester: UserId, username: string, groupId: Option<int>): (r: Response)
    ensures r.status == 400 <==> username == "" || MissingGroupId(groupId)
    ensures r.status == 400 ==> r.body == Error("Username and group_id are required")
    ensures r == Response(404, Error("User not found")) <==>
              r.status != 400 && LookupUser(users, username, false).NotFound?
    ensures r == Response(404, Error("User is not in this group")) ==>
              exists u :: LookupUser(users, username, false) == Found(u)
                          && (Member(u, groupId.value) !in profiles || Member(requester, groupId.value) !in profiles)
    ensures r.status == 403 ==> Member(requester, groupId.value) in profiles && !IsAdminOf(profiles, requester, groupId.value)
    ensures r.status == 200 <==> r.body.Removed?
    ensures r.body.Removed? ==>
              && groupId == Some(r.body.group) && r.body.group in groups
              && LookupUser(users, username, false) == Found(r.body.user)
              && Member(r.body.user, r.body.group) in profiles
              && IsAdminOf(profiles, requester, r.body.group)
    ensures Supplied(username, groupId) && LookupUser(users, username, false).Ambiguous? ==>
              r == Response(500, ServerError)
    ensures Supplied(username, groupId) && LookupUser(users, username, false).Found? ==>
              (r == Response(404, Error("Group not found")) <==> groupId.value !in groups)
    ensures forall u :: Supplied(username, groupId) && LookupUser(users, username, false) == Found(u)
                        && groupId.value in groups ==>
              var g := groupId.value;
              && (Member(u, g) !in profiles || Member(requester, g) !in profiles ==>
                    r == Response(404, Error("User is not in this group")))
              && (Member(u, g) in profiles && Member(requester, g) in profiles && !IsAdminOf(profiles, requester, g) ==>
                    r == Response(403, Error("You are not authorized to remove users from this group.")))
              && (Member(u, g) in profiles && IsAdminOf(profiles, requester, g) ==>
                    r == Response(200, Removed(u, g)))
  {
    if username == "" || MissingGroupId(groupId) then Response(400, Error("Username and group_id are required"))
    else match LookupUser(users, username, false)
      case NotFound => Response(404, Error("User not found"))
      case Ambiguous => Response(500, ServerError)
      case Found(u) =>
        var g := groupId.value;
        if g !in groups then Response(404, Error("Group not found"))
        else if Member(u, g) !in profiles then Response(404, Error("User is not in this group"))
        else if Member(requester, g) !in profiles then Response(404, Error("User is not in this group"))
        else if !profiles[Member(requester, g)].isAdmin then
          Response(403, Error("You are not authorized to remove users from this group."))
        else Response(200, Removed(u, g))
  }

  /** The profile table after a removal: exactly the removed user's profile
      in that group is gone. */
  function ProfilesAfterRemove(profiles: map<Member, Profile>, r: Response): (p: map<Member, Profile>)
    ensures r.body.Removed? ==> p.Keys == profiles.Keys - {Member(r.body.user, r.body.group)}
    ensures forall m :: m in p ==> m in profiles && p[m] == profiles[m]
    ensures !r.body.Removed? ==> p == profiles
  {
    if r.body.Removed? then profiles - {Member(r.body.user, r.body.group)} else profiles
  }

  /** User names are unique, as the user table guarantees. */
  ghost predicate UniqueNames(users: seq<User>) {
    forall i, j :: 0 <= i < |users| && 0 <= j < |users| && users[i].username == users[j].username ==> i == j
  }

  /** User ids are unique, as the user table's primary key guarantees. */
  ghost predicate UniqueIds(users: seq<User>) {
    forall i, j :: 0 <= i < |users| && 0 <= j < |users| && users[i].id == users[j].id ==> i == j
  }

  /** With unique names an exact lookup never finds two users, so the
      removal view's `MultipleObjectsReturned` path cannot be taken. */
  lemma ExactLookupNeverAmbiguous(users: seq<User>, name: string)
    requires UniqueNames(users)
    ensures !LookupUser(users, name, false).Ambiguous?
  {
    if i :| 0 <= i < |users| && users[i].username == name {
      MatchingIdsUnique(users, name, i);
    } else {
      NoOtherMatch(users, name);
    }
  }

  /** With unique names the removal view never answers 500. */
  lemma RemoveNeverServerError(users: seq<User>, groups: map<GroupId, string>, profiles: map<Member, Profile>,
                               requester: UserId, username: string, groupId: Option<int>)
    requires UniqueNames(users)
    ensures RemoveOutcome(users, groups, profiles, requester, username, groupId).status != 500
  {
    ExactLookupNeverAmbiguous(users, username);
  }

  /** An exact lookup of a stored name finds that user. */
  lemma {:induction false} ExactLookupFinds(users: seq<User>, i: int)
    requires UniqueNames(users) && 0 <= i < |users|
    ensures LookupUser(users, users[i].username, false) == Found(users[i].id)
  {
    var ids := MatchingIds(users, users[i].username, false);
    MatchingIdsUnique(users, users[i].username, i);
    assert users[i].id in ids;
  }

  /** With unique names, at most one user has a given name. */
  lemma {:induction false} MatchingIdsUnique(users: seq<User>, name: string, i: int)
    requires UniqueNames(users) && 0 <= i < |users| && users[i].username == name
    ensures MatchingIds(users, name, false) == [users[i].id]
  {
    if i == 0 {
      NoOtherMatch(users[1..], name);
      assert forall j :: 0 <= j < |users[1..]| ==> users[1..][j] == users[j + 1];
    } else {
      assert users[0].username != name;
      assert UniqueNames(users[1..]) by {
        forall a, b | 0 <= a < |users[1..]| && 0 <= b < |users[1..]| && users[1..][a].username == users[1..][b].username
          ensures a == b
        {
          assert users[a + 1].username == users[b + 1].username;
        }
      }
      MatchingIdsUnique(users[1..], name, i - 1);
    }
  }

  lemma {:induction false} NoOtherMatch(users: seq<User>, name: string)
    requires forall j :: 0 <= j < |users| ==> users[j].username != name
    ensures MatchingIds(users, name, false) == []
  {
    if users != [] {
      NoOtherMatch(users[1..], name);
    }
  }

  /** When the case-insensitive lookup of a stored name (lower-cased first,
      as the add view does) finds one user, the user found is the one
      carrying that name, whatever the mix of cases it is stored in. */
  lemma IexactFindsStoredName(users: seq<User>, i: int)
    requires 0 <= i < |users|
    requires LookupUser(users, ToLower(users[i].username), true).Found?
    ensures LookupUser(users, ToLower(users[i].username), true) == Found(users[i].id)
  {
    var name := ToLower(users[i].username);
    ToLowerIdempotent(users[i].username);
    assert NameMatches(users[i].username, name, true);
    var ids := MatchingIds(users, name, true);
    assert users[i].id in ids;
  }

  /** Adding a user by their stored name and then removing them by that
      name, both by the same administrator, restores the profile table. */
  lemma AddThenRemoveRestores(users: seq<User>, groups: map<GroupId, string>, profiles: map<Member, Profile>,
                              requester: UserId, i: int, groupId: Option<int>, newProfile: Profile)
    requires UniqueNames(users) && 0 <= i < |users|
    requires AddOutcome(users, groups, profiles, requester, users[i].username, groupId).body.Added?
    ensures var added := ProfilesAfterAdd(profiles, AddOutcome(users, groups, profiles, requester, users[i].username, groupId), newProfile);
            var r := RemoveOutcome(users, groups, added, requester, users[i].username, groupId);
            && r == Response(200, Removed(users[i].id, groupId.value))
            && ProfilesAfterRemove(added, r) == profiles
  {
    var name := users[i].username;
    var r1 := AddOutcome(users, groups, profiles, requester, name, groupId);
    IexactFindsStoredName(users, i);
    ExactLookupFinds(users, i);
    var u := users[i].id;
    var g := groupId.value;
    assert r1 == Response(201, Added(u, g));
    var added := profiles[Member(u, g) := newProfile];
    assert Member(requester, g) != Member(u, g);
    assert RemoveOutcome(users, groups, added, requester, name, groupId) == Response(200, Removed(u, g));
    assert added - {Member(u, g)} == profiles;
  }

  // ---------------------------------------------------------------------
  // UserProfileInGroupList (with the IsInGroup permission)
  // ---------------------------------------------------------------------

  /** The member list of group `group`: refused (`None`, a 403) unless the
      requester has a profile in it; otherwise every profile of that group. */
  function GroupMembers(profiles: map<Member, Profile>, requester: UserId, group: GroupId): (r: Option<map<Member, Profile>>)
    ensures r.None? <==> Member(requester, group) !in profiles
    ensures r.Some? ==> r.value.Keys == set m | m in profiles && m.group == group
    ensures r.Some? ==> forall m :: m in r.value ==> r.value[m] == profiles[m]
  {
    if Member(requester, group) !in profiles then None
    else Some(map m | m in profiles && m.group == group :: profiles[m])
  }

  // ---------------------------------------------------------------------
  // The tables, changed in place
  // ---------------------------------------------------------------------

  /** The user, group and profile tables. `newProfile` is the profile a
      `get_or_create` inserts (the schema's defaults). */
  class MembershipStore {
    var users: seq<User>
    var groups: map<GroupId, string>
    var profiles: map<Member, Profile>
    var nextGroupId: GroupId
    const newProfile: Profile

    /** User ids and names are unique, every profile refers to an existing
        user and group, and fresh group ids lie above every id in use. */
    ghost predicate Valid()
      reads this
    {
      && UniqueIds(users) && UniqueNames(users)
      && (forall m :: m in profiles ==> m.group in groups && HasUser(users, m.user))
      && (forall g :: g in groups ==> g < nextGroupId)
    }

    constructor (users: seq<User>, newProfile: Profile)
      requires UniqueIds(users) && UniqueNames(users)
      ensures Valid()
      ensures this.users == users && groups == map[] && profiles == map[] && this.newProfile == newProfile
    {
      this.users := users;
      this.newProfile := newProfile;
      groups := map[];
      profiles := map[];
      nextGroupId := 1;
    }

    /** `AddUserToGroupView.post`, check by check. */
    method AddUserToGroup(requester: UserId, username: string, groupId: Option<int>) returns (r: Response)
      requires Valid()
      modifies this`profiles
      ensures Valid()
      ensures r == AddOutcome(users, groups, old(profiles), requester, username, groupId)
      ensures profiles == ProfilesAfterAdd(old(profiles), r, newProfile)
    {
      var name := ToLower(username);
      if name == "" || MissingGroupId(groupId) {
        return Response(400, Error("Username and group_id are required"));
      }
      var user := LookupUser(users, name, true);
      if user.NotFound? {
        return Response(404, Error("User not found"));
      }
      if user.Ambiguous? {
        return Response(500, ServerError);
      }
      var g := groupId.value;
      if g !in groups {
        return Response(404, Error("Group not found"));
      }
      if Member(requester, g) !in profiles {
        return Response(500, ServerError);
      }
      if !profiles[Member(requester, g)].isAdmin {
        return Response(403, Error("You are not authorized to add users to this group."));
      }
      var key := Member(user.id, g);
      if key in profiles {
        return Response(200, AlreadyMember(user.id, g));
      }
      profiles := profiles[key := newProfile];
      return Response(201, Added(user.id, g));
    }

    /** `RemoveUserFromGroup.post`, check by check. */
    method RemoveUserFromGroup(requester: UserId, username: string, groupId: Option<int>) returns (r: Response)
      requires Valid()
      modifies this`profiles
      ensures Valid()
      ensures r == RemoveOutcome(users, groups, old(profiles), requester, username, groupId)
      ensures profiles == ProfilesAfterRemove(old(profiles), r)
    {
      if username == "" || MissingGroupId(groupId) {
        return Response(400, Error("Username and group_id are required"));
      }
      var user := LookupUser(users, username, false);
      if user.NotFound? {
        return Response(404, Error("User not found"));
      }
      if user.Ambiguous? {
        return Response(500, ServerError);
      }
      var g := groupId.value;
      if g !in groups {
        return Response(404, Error("Group not found"));
      }
      var key := Member(user.id, g);
      if key !in profiles || Member(requester, g) !in profiles {
        return Response(404, Error("User is not in this group"));
      }
      if !profiles[Member(requester, g)].isAdmin {
        return Response(403, Error("You are not authorized to remove users from this group."));
      }
      profiles := profiles - {key};
      return Response(200, Removed(user.id, g));
    }

    /** `GroupListCreateView.perform_create`, behind the serializer's check
        of the name (surrounding white space trimmed, then not blank and at
        most 100 characters): the group is saved under a fresh id with the
        trimmed name and the requester gets an administrator profile in it. */
    method CreateGroup(requester: UserId, name: string) returns (r: Response)
      requires Valid()
      requires HasUser(users, requester)
      modifies this`groups, this`profiles, this`nextGroupId
      ensures Valid()
      ensures Trim(name) == "" ==> r == Response(400, Error("This field may not be blank.")) && unchanged(this)
      ensures |Trim(name)| > 100 ==> r == Response(400, Error("Ensure this field has no more than 100 characters.")) && unchanged(this)
      ensures 0 < |Trim(name)| <= 100 ==>
                && r.status == 201 && r.body.GroupCreated?
                && r.body.group !in old(groups)
                && groups == old(groups)[r.body.group := Trim(name)]
                && profiles == old(profiles)[Member(requester, r.body.group) := newProfile.(isAdmin := true)]
    {
      var trimmed := Trim(name);
      if trimmed == "" {
        return Response(400, Error("This field may not be blank."));
      }
      if |trimmed| > 100 {
        return Response(400, Error("Ensure this field has no more than 100 characters."));
      }
      var g := nextGroupId;
      groups := groups[g := trimmed];
      nextGroupId := nextGroupId + 1;
      profiles := profiles[Member(requester, g) := newProfile.(isAdmin := true)];
      return Response(201, GroupCreated(g));
    }
  }
}
