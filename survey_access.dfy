/** Who may read and add survey entries, and the saved filter
    configurations (backend/robson_insight/survey/views.py). The entry and
    filter tables are a class whose create operations append to them; the
    querysets the views return are functions of the tables and the
    requester's profiles. */
module SurveyAccess {
  import opened Text
  import opened Membership

  /** A survey entry: a Robson classification, whether it was a caesarean
      section, when it was recorded, its group and the user who saved it. */
  datatype Entry = Entry(classification: string, csection: bool, date: int,
                         group: Option<GroupId>, user: Option<UserId>)

  /** A saved filter configuration: its owner and its set of groups. */
  datatype Filter = Filter(owner: UserId, groups: set<GroupId>)

  /** The requester's groups whose profile has `can_view`. */
  function ViewableGroups(profiles: map<Member, Profile>, requester: UserId): (gs: set<GroupId>)
    ensures forall g :: g in gs <==> Member(requester, g) in profiles && profiles[Member(requester, g)].canView
  {
    set m | m in profiles && m.user == requester && profiles[m].canView :: m.group
  }

  /** The groups the requester has any profile in. */
  function MemberGroups(profiles: map<Member, Profile>, requester: UserId): (gs: set<GroupId>)
    ensures forall g :: g in gs <==> Member(requester, g) in profiles
  {
    set m | m in profiles && m.user == requester :: m.group
  }

  /** `Entry.objects.filter(group__in=groups)`: the entries whose group is
      one of `groups`, in table order. */
  function EntriesInGroups(entries: seq<Entry>, groups: set<GroupId>): (r: seq<Entry>)
    ensures |r| <= |entries|
    ensures forall e :: e in r <==> e in entries && e.group.Some? && e.group.value in groups
  {
    if entries == [] then []
    else
      var rest := EntriesInGroups(entries[1..], groups);
      assert forall e :: e in entries <==> e == entries[0] || e in entries[1..];
      if entries[0].group.Some? && entries[0].group.value in groups then [entries[0]] + rest else rest
  }

  /** Selecting by group keeps table order: the selection of a
      concatenation is the concatenation of the selections. */
  lemma {:induction false} EntriesInGroupsSplits(a: seq<Entry>, b: seq<Entry>, groups: set<GroupId>)
    ensures EntriesInGroups(a + b, groups) == EntriesInGroups(a, groups) + EntriesInGroups(b, groups)
  {
    if a == [] {
      assert a + b == b;
    } else {
      assert (a + b)[1..] == a[1..] + b;
      EntriesInGroupsSplits(a[1..], b, groups);
    }
  }

  /** `EntryListView.get_queryset`: the entries of the groups in which the
      requester's profile allows viewing. */
  function VisibleEntries(entries: seq<Entry>, profiles: map<Member, Profile>, requester: UserId): (r: seq<Entry>)
    ensures forall e :: e in r <==>
              e in entries && e.group.Some?
              && Member(requester, e.group.value) in profiles
              && profiles[Member(requester, e.group.value)].canView
  {
    EntriesInGroups(entries, ViewableGroups(profiles, requester))
  }

  /** Once a user has been removed from a group, none of that group's
      entries is visible to them. */
  lemma RemovalHidesGroupEntries(users: seq<User>, groups: map<GroupId, string>, profiles: map<Member, Profile>,
                                 entries: seq<Entry>, admin: UserId, username: string, groupId: Option<int>)
    requires RemoveOutcome(users, groups, profiles, admin, username, groupId).body.Removed?
    ensures var r := RemoveOutcome(users, groups, profiles, admin, username, groupId);
            var after := ProfilesAfterRemove(profiles, r);
            forall e :: e in VisibleEntries(entries, after, r.body.user) ==> e.group != Some(r.body.group)
  {
  }

  /** The answer to a create request: saved, or refused with
      `PermissionDenied` (a 403) and its message. */
  datatype Decision = Permitted | Denied(message: string)

  /** `EntryListView.perform_create`'s checks: the requester needs a profile
      in the entry's group (an entry without a group matches no profile),
      and that profile needs `can_add`. */
  function EntryDecision(profiles: map<Member, Profile>, requester: UserId, group: Option<GroupId>): (d: Decision)
    ensures d.Permitted? <==> group.Some? && Member(requester, group.value) in profiles
                              && profiles[Member(requester, group.value)].canAdd
    ensures d.Denied? && (group.None? || Member(requester, group.value) !in profiles) ==>
              d.message == "You are not a member of this group."
    ensures d.Denied? && group.Some? && Member(requester, group.value) in profiles ==>
              d.message == "You do not have permission to add entries to this group."
  {
    if group.None? || Member(requester, group.value) !in profiles then Denied("You are not a member of this group.")
    else if !profiles[Member(requester, group.value)].canAdd then
      Denied("You do not have permission to add entries to this group.")
    else Permitted
  }

  /** `FilterConfigurationListCreateView.perform_create`'s check: every
      listed group must be one the requester has a profile in; an empty list
      passes. */
  function FilterDecision(profiles: map<Member, Profile>, requester: UserId, groups: seq<GroupId>): (d: Decision)
    ensures d.Permitted? <==> forall g :: g in groups ==> Member(requester, g) in profiles
    ensures d.Denied? ==> d.message == "You can only add groups you belong to."
  {
    var mine := MemberGroups(profiles, requester);
    if forall g :: g in groups ==> g in mine then Permitted
    else Denied("You can only add groups you belong to.")
  }

  /** `EntryFilterListView.get_queryset`: nothing when the filter does not
      exist or belongs to someone else; otherwise the entries of the
      filter's groups. */
  function FilterEntries(entries: seq<Entry>, filters: map<int, Filter>, pk: int, requester: UserId): (r: seq<Entry>)
    ensures pk !in filters || filters[pk].owner != requester ==> r == []
    ensures pk in filters && filters[pk].owner == requester ==>
              forall e :: e in r <==> e in entries && e.group.Some? && e.group.value in filters[pk].groups
  {
    if pk in filters && filters[pk].owner == requester then EntriesInGroups(entries, filters[pk].groups) else []
  }

  /** `FilterConfigurationListCreateView.get_queryset`: the requester's own
      filters and no others. */
  function FilterList(filters: map<int, Filter>, requester: UserId): (r: map<int, Filter>)
    ensures forall pk :: pk in r <==> pk in filters && filters[pk].owner == requester
    ensures forall pk :: pk in r ==> r[pk] == filters[pk]
  {
    map pk | pk in filters && filters[pk].owner == requester :: filters[pk]
  }

  /** Reading through a filter checks membership, not `can_view`: a member
      of a group whose profile does not allow viewing can save a filter on
      that group and read its entries through it, although the entry list
      hides them. */
  lemma FilterBypassesCanView(entries: seq<Entry>, profiles: map<Member, Profile>, filters: map<int, Filter>,
                              requester: UserId, g: GroupId, pk: int, e: Entry)
    requires Member(requester, g) in profiles && !profiles[Member(requester, g)].canView
    requires e in entries && e.group == Some(g)
    ensures FilterDecision(profiles, requester, [g]).Permitted?
    ensures e in FilterEntries(entries, filters[pk := Filter(requester, {g})], pk, requester)
    ensures e !in VisibleEntries(entries, profiles, requester)
  {
  }

  /** A filter that was permitted when it was saved reads only entries of
      groups the owner belonged to at that time. */
  lemma PermittedFilterStaysWithinMembership(entries: seq<Entry>, profiles: map<Member, Profile>,
                                             filters: map<int, Filter>, requester: UserId,
                                             groups: seq<GroupId>, pk: int)
    requires FilterDecision(profiles, requester, groups).Permitted?
    ensures forall e :: e in FilterEntries(entries, filters[pk := Filter(requester, set g | g in groups)], pk, requester) ==>
              e.group.Some? && Member(requester, e.group.value) in profiles
  {
  }

  /** The entry and filter tables, with the profile table they are checked
      against. */
  class SurveyStore {
    var entries: seq<Entry>
    var filters: map<int, Filter>
    var nextFilterId: int
    var profiles: map<Member, Profile>

    /** Fresh filter ids lie above every id in use. */
    ghost predicate Valid()
      reads this
    {
      forall pk :: pk in filters ==> pk < nextFilterId
    }

    constructor (profiles: map<Member, Profile>)
      ensures Valid()
      ensures entries == [] && filters == map[] && this.profiles == profiles
    {
      entries := [];
      filters := map[];
      nextFilterId := 1;
      this.profiles := profiles;
    }

    /** `EntryListView.perform_create`: a permitted entry is appended with
      the requester as its user; a refused one leaves the table as it was. */
    method CreateEntry(requester: UserId, draft: Entry) returns (d: Decision)
      modifies this`entries
      ensures d == EntryDecision(profiles, requester, draft.group)
      ensures d.Denied? ==> entries == old(entries)
      ensures d.Permitted? ==> entries == old(entries) + [draft.(user := Some(requester))]
    {
      var group := draft.group;
      if group.None? || Member(requester, group.value) !in profiles {
        return Denied("You are not a member of this group.");
      }
      if !profiles[Member(requester, group.value)].canAdd {
        return Denied("You do not have permission to add entries to this group.");
      }
      entries := entries + [draft.(user := Some(requester))];
      return Permitted;
    }

    /** `FilterConfigurationListCreateView.perform_create`: each listed group
      is checked in turn against the requester's groups; a permitted filter
      is saved under a fresh id, owned by the requester. */
    method CreateFilter(requester: UserId, groups: seq<GroupId>) returns (d: Decision, pk: int)
      requires Valid()
      modifies this`filters, this`nextFilterId
      ensures Valid()
      ensures d == FilterDecision(profiles, requester, groups)
      ensures d.Denied? ==> filters == old(filters)
      ensures d.Permitted? ==> pk !in old(filters) && filters == old(filters)[pk := Filter(requester, set g | g in groups)]
    {
      var userGroups := MemberGroups(profiles, requester);
      var i := 0;
      while i < |groups|
        invariant 0 <= i <= |groups|
        invariant forall j :: 0 <= j < i ==> groups[j] in userGroups
      {
        if groups[i] !in userGroups {
          assert !(Member(requester, groups[i]) in profiles);
          return Denied("You can only add groups you belong to."), 0;
        }
        i := i + 1;
      }
      pk := nextFilterId;
      filters := filters[pk := Filter(requester, set g | g in groups)];
      nextFilterId := nextFilterId + 1;
      d := Permitted;
    }
  }
}
