# Robson Insights: access rules, invitations and the results report in Dafny

Robson Insights collects labour-and-delivery survey entries. Each entry has a
Robson classification and records whether the birth was a caesarean section.
Entries belong to hospital groups. This project models and proves the parts
of the system that decide who may see, add and share those entries, and how
the results screen turns them into a report:

- **Membership** (`membership.dfy`, from `backend/robson_insight/users/views.py`)
  - The profile table links users to groups. It is a `map` keyed by the
    (user, group) pair, so the pair is unique by construction.
  - Adding, removing and listing a group's members are pure functions that
    give the HTTP response and the new profile table.
  - A `MembershipStore` class holds the tables. Its add and remove methods
    apply the checks one by one and are proved equal to those functions.
    Its `CreateGroup` method has no such function: its contract states the
    new tables directly.
  - Lemmas prove that adding is idempotent. Another lemma proves that adding
    then removing restores the table, when user names are unique and the
    same administrator does both, whatever the case of the stored name.
- **Survey access** (`survey_access.dfy`, from `backend/robson_insight/survey/views.py`)
  - Which entries a user sees, and when entry creation and filter creation
    are permitted.
  - What a saved filter returns.
  - A `SurveyStore` class whose create methods append to the tables.
  - A lemma shows a gap in the access rules. Filter creation checks only
    membership, and reading through a filter checks only ownership, so
    `can_view` is never consulted. A member without `can_view` can read a
    group's entries through a filter of their own.
- **Mass invitation** (`mass_invite.dfy`, from `backend/robson_insight/users/serializers.py`)
  - Validation of the list of addresses.
  - Duplicates are detected by comparing the list's length with the size of
    its set, which is proved to detect exactly the lists with a repeat.
- **Groups screen** (`groups_screen.dfy`, from `frontend/src/screens/GroupsScreen.tsx`)
  - The e-mail pattern test, proved equal to a literal reading of the
    regular expression.
  - The CSV extraction loop, a method proved against a specification
    function.
  - Name-length checks, the configuration checkboxes and the invitation
    guard.
- **Invitation screen** (`invitation_screen.dfy`, from `frontend/src/screens/InvitationScreen.tsx`)
  - The list of text fields and the buttons beside them.
- **Results report** (`results_report.dfy`, from `frontend/src/screens/ResultsScreen.tsx`)
  - The per-classification tally: a method with three loops over a
    dictionary, proved equal to a counting function.
  - The date-range report and page reset, as a `ResultsScreen` class.
  - Page count and page slice.
  - The pagination bar, as a method proved equal to a specification of the
    page list, with lemmas on its shape.
- **Text** (`text.dfy`)
  - JavaScript `trim()` over its whitespace set, and ASCII lower-casing.
  - Shared by the e-mail handling and the server's case-insensitive user
    lookup.

Behaviours of the code that a reader might not expect:

- Adding a user to a group looks the name up case-insensitively. Removing
  looks it up exactly.
- When the requester has no profile in the group, adding answers 500 and
  removing answers 404 "User is not in this group".
- `createConfiguration`'s message for a long name says "Group name".
- A group id of 0 counts as missing on the server: 0 is falsy, so
  `not group_id` treats it as absent.

## Model

| member | source | states |
|---|---|---|
| Text.TrimSpec | frontend/src/screens/GroupsScreen.tsx:318 | `trim()` removes exactly the leading and trailing white space: the result is a middle slice of the input, everything cut is white space, and the result neither starts nor ends with white space |
| Text.TrimStartSpec | frontend/src/screens/GroupsScreen.tsx:318 | trimming the start drops only a white-space prefix and stops at the first other character |
| Text.TrimEndSpec | frontend/src/screens/GroupsScreen.tsx:318 | trimming the end drops only a white-space suffix and stops at the last other character |
| Text.LowerChar | frontend/src/screens/GroupsScreen.tsx:318 | lower-casing a character maps each capital A-Z to the small letter at the same alphabet position, leaves no capital, and changes nothing else |
| Text.ToLowerAt | frontend/src/screens/GroupsScreen.tsx:318 | `toLowerCase()` maps each position through the character mapping and keeps the length |
| Text.ToLowerIdempotent | backend/robson_insight/users/views.py:64-70 | lower-casing twice is lower-casing once, and it never turns a non-space into a space or the reverse |
| MassInvite.DistinctCountDetectsRepeats | backend/robson_insight/users/serializers.py:43-46 | `len(set(emails))` is at most `len(emails)`, and equal exactly when no address occurs twice |
| MassInvite.ValidateEmails | backend/robson_insight/users/serializers.py:43-46 | refused with "Duplicate emails are not allowed." iff some address repeats; otherwise the list is returned unchanged |
| MassInvite.ValidateMassInvite | backend/robson_insight/users/serializers.py:36-46 | accepted iff the list is non-empty, every element is an address and none repeats; an empty list gets "This list may not be empty." |
| MassInvite.CaseDistinctAddressesAccepted | backend/robson_insight/users/serializers.py:43-46 | duplicate detection is case-sensitive: "A@x.org" and "a@x.org" are both accepted |
| MassInvite.RepeatedAddressRefused | backend/robson_insight/users/serializers.py:43-46 | a list holding the same address twice is refused |
| GroupsScreen.IsEmailMatchesRegex | frontend/src/screens/GroupsScreen.tsx:334-337 | the index-based `IsEmail` accepts exactly the strings the pattern `^[^\s@]+@[^\s@]+\.[^\s@]+$` matches |
| GroupsScreen.IsEmailMatches | frontend/src/screens/GroupsScreen.tsx:334-337 | every string `IsEmail` accepts matches the pattern |
| GroupsScreen.MatchIsEmail | frontend/src/screens/GroupsScreen.tsx:334-337 | every string the pattern matches passes `IsEmail` |
| GroupsScreen.EmailsFromExtend | frontend/src/screens/GroupsScreen.tsx:317-323 | one more row throws when it has no cells, and otherwise adds its normalised first cell exactly when that is an address |
| GroupsScreen.ExtractEmails | frontend/src/screens/GroupsScreen.tsx:308-332 | the upload loop yields the specification `CsvEmails`: header row skipped when its first cell is not an address, first cells trimmed and lower-cased, non-addresses dropped; nothing when the file is empty or a visited row has no cells |
| GroupsScreen.EmailsFromFailureSticks | frontend/src/screens/GroupsScreen.tsx:317-318 | once a row without cells has been met, the extraction fails whatever rows follow |
| GroupsScreen.EmailsFromSound | frontend/src/screens/GroupsScreen.tsx:317-323 | every collected address passes `isEmail` and is the normalised first cell of some row, and every row whose normalised first cell is an address contributes it |
| GroupsScreen.EmailsFromKeepsEveryRow | frontend/src/screens/GroupsScreen.tsx:317-323 | the number of collected addresses equals the number of visited rows whose normalised first cell is an address |
| GroupsScreen.RepeatedRowsRepeatAddress | frontend/src/screens/GroupsScreen.tsx:317-327 | two rows with the same normalised address give a list with a repeat, which the server's mass-invite validation then refuses |
| GroupsScreen.CheckGroupName | frontend/src/screens/GroupsScreen.tsx:144-152 | a group name goes ahead iff it has 5 to 100 characters; shorter and longer names get their messages |
| GroupsScreen.CheckConfigurationName | frontend/src/screens/GroupsScreen.tsx:173-181 | a configuration name goes ahead iff it has 5 to 100 characters; a long one gets the "Group name cannot exceed 100 characters" message |
| GroupsScreen.InitialCheckedState | frontend/src/screens/GroupsScreen.tsx:134-137 | one key per viewable group, checked iff the group is in the configuration |
| GroupsScreen.ToggleGroup | frontend/src/screens/GroupsScreen.tsx:369-380 | a checked box sends a removal and an unchecked or missing one an addition; only that id's value flips and every other key keeps its value |
| GroupsScreen.ToggleTwiceRestores | frontend/src/screens/GroupsScreen.tsx:369-380 | toggling the same box twice restores the map and sends opposite requests |
| GroupsScreen.AddMember | frontend/src/screens/GroupsScreen.tsx:234-241 | an invitation is posted iff the e-mail text is non-empty and a group is selected (the selection is a string, so even id 0 passes the guard), and it carries that text and group |
| InvitationScreen.InitialFields | frontend/src/screens/InvitationScreen.tsx:6 | the form starts with one empty field keyed by the clock reading |
| InvitationScreen.AddField | frontend/src/screens/InvitationScreen.tsx:8-10 | one empty field is appended and the earlier fields are kept |
| InvitationScreen.RemoveField | frontend/src/screens/InvitationScreen.tsx:12-14 | exactly the fields with the key are dropped; an absent key changes nothing; a present key shortens the list |
| InvitationScreen.RemoveFieldSplits | frontend/src/screens/InvitationScreen.tsx:12-14 | removal keeps order: it distributes over concatenation |
| InvitationScreen.AddThenRemove | frontend/src/screens/InvitationScreen.tsx:8-14 | adding a field under a fresh key and removing that key restores the list |
| InvitationScreen.UpdateField | frontend/src/screens/InvitationScreen.tsx:16-21 | the fields with the key get the new text; keys, length and other texts are kept |
| InvitationScreen.UpdateFieldLastWins | frontend/src/screens/InvitationScreen.tsx:16-21 | of two updates of one key, the last one wins |
| InvitationScreen.Usernames | frontend/src/screens/InvitationScreen.tsx:23-26 | the list sent holds each field's text, in order |
| InvitationScreen.UpdateShowsInUsernames | frontend/src/screens/InvitationScreen.tsx:16-24 | after updating a field whose key is unique, the sent list differs from before only at that field's position, which holds the new text |
| InvitationScreen.ButtonsAt | frontend/src/screens/InvitationScreen.tsx:38-51 | '-' is shown iff there is more than one field; '+' iff the row is the last |
| InvitationScreen.InitialFormHasNoMinus | frontend/src/screens/InvitationScreen.tsx:38-40 | the starting form offers '+' and no '-' |
| ResultsReport.ClassificationOrderDistinct | frontend/src/screens/ResultsScreen.tsx:25-37 | the eleven report labels are pairwise distinct |
| ResultsReport.CountCsection | frontend/src/screens/ResultsScreen.tsx:155-166 | a label's C-section count never exceeds its response count |
| ResultsReport.Tally | frontend/src/screens/ResultsScreen.tsx:169-173 | one row per label of the fixed order |
| ResultsReport.ProcessResultsForAnalysis | frontend/src/screens/ResultsScreen.tsx:147-177 | the dictionary-based loops produce exactly `Tally`: row i counts the results with label i and, of those, the C-sections |
| ResultsReport.ZeroCounts | frontend/src/screens/ResultsScreen.tsx:151-153 | the dictionary starts with exactly the eleven labels, all at zero |
| ResultsReport.CountResults | frontend/src/screens/ResultsScreen.tsx:155-166 | after the loop each label's entry holds the number of results with that label and, of those, the C-sections; no key is added |
| ResultsReport.ReadOut | frontend/src/screens/ResultsScreen.tsx:169-173 | reading the counts out in label order gives `Tally` |
| ResultsReport.SumResponsesStep | frontend/src/screens/ResultsScreen.tsx:155-166 | one more result raises the responses summed over distinct labels by one iff its label is among them |
| ResultsReport.TallyCountsListedResults | frontend/src/screens/ResultsScreen.tsx:155-166 | the responses column sums to the number of results whose classification is one of the eleven labels |
| ResultsReport.TallyRowsBounded | frontend/src/screens/ResultsScreen.tsx:147-177 | rows follow the label order, C-sections never exceed responses, and with no results every row is zero |
| ResultsReport.UnlistedResultIgnored | frontend/src/screens/ResultsScreen.tsx:155-166 | a result with a label outside the list (such as "5") changes no row |
| ResultsReport.EndOfDay | frontend/src/screens/ResultsScreen.tsx:205 | the adjusted end is the last millisecond of the end date's day |
| ResultsReport.FilterByDate | frontend/src/screens/ResultsScreen.tsx:207-210 | a result is kept iff its date lies between the start and the end of the end date's day |
| ResultsReport.FilterByDateSplits | frontend/src/screens/ResultsScreen.tsx:207-210 | the date filter keeps order: it distributes over concatenation |
| ResultsReport.FilterByDateNested | frontend/src/screens/ResultsScreen.tsx:205-213 | narrowing an already narrowed list to a range inside the first one gives the same result as narrowing the full list |
| ResultsReport.TotalPages | frontend/src/screens/ResultsScreen.tsx:180 | the page count is the ceiling of n/25, and exactly 1 when there are no entries |
| ResultsReport.ResetPage | frontend/src/screens/ResultsScreen.tsx:179-184 | the page is sent back to 1 exactly when it lies beyond the page count and kept otherwise, so the result is always a valid page |
| ResultsReport.Slice | frontend/src/screens/ResultsScreen.tsx:796 | `slice` returns a piece of the list: the exact slice for in-range bounds, clamped at the end, empty for reversed bounds and for a start at or past the end (a page beyond the last) |
| ResultsReport.CurrentEntries | frontend/src/screens/ResultsScreen.tsx:793-796 | a page holds at most 25 entries |
| ResultsReport.EntryOnItsPage | frontend/src/screens/ResultsScreen.tsx:793-796 | entry k appears on page k/25+1, at position k mod 25, and that page is within the page count |
| ResultsReport.PageWindow | frontend/src/screens/ResultsScreen.tsx:679-695 | the numbered window lies within the pages and contains the current page; it is all pages when there are at most five, and three or four pages otherwise |
| ResultsReport.Range | frontend/src/screens/ResultsScreen.tsx:724-742 | the loop's page links, one per page from low to high, the current one marked active |
| ResultsReport.LinksAscendIncreasing | frontend/src/screens/ResultsScreen.tsx:697-769 | in a list whose adjacent links ascend, any two links ascend |
| ResultsReport.PageItemsAt | frontend/src/screens/ResultsScreen.tsx:697-769 | position by position: link to page 1 and ellipsis before the window, the window's links, then ellipsis and link to the last page |
| ResultsReport.PageItemsAscend | frontend/src/screens/ResultsScreen.tsx:697-769 | page numbers in the bar strictly increase, and an ellipsis stands only between two links |
| ResultsReport.PageItemsEnds | frontend/src/screens/ResultsScreen.tsx:697-769 | the bar always starts at page 1 and ends at the last page; an ellipsis follows 1 iff the window starts after 2, and precedes the last iff it ends before the second-last |
| ResultsReport.PageItemsCoverWindow | frontend/src/screens/ResultsScreen.tsx:697-769 | every page of the window has a link, and each link is active iff it is the current page |
| ResultsReport.RenderPagination | frontend/src/screens/ResultsScreen.tsx:673-792 | no bar for a single page; otherwise the built page list is `PageItems`, "Previous" iff not on page 1, "Next" iff not on the last |
| ResultsReport.ResultsScreen.constructor | frontend/src/screens/ResultsScreen.tsx:39-50 | the screen starts with no results, no report and page 1 |
| ResultsReport.ResultsScreen.ResetPageIfOutOfRange | frontend/src/screens/ResultsScreen.tsx:179-184 | the effect leaves a valid page |
| ResultsReport.ResultsScreen.LoadResults | frontend/src/screens/ResultsScreen.tsx:260-261 | fetched entries become both the full and the shown list |
| ResultsReport.ResultsScreen.HandleSubmit | frontend/src/screens/ResultsScreen.tsx:186-217 | missing dates or a start after the end raise an alert with its message and change nothing; otherwise the shown list is the full list narrowed to the range, the full list is kept and a report is marked generated |
| ResultsReport.ResultsScreen.ClearReport | frontend/src/screens/ResultsScreen.tsx:860-863 | clearing a generated report shows the full list again; without a report nothing changes |
| Membership.MatchingIds | backend/robson_insight/users/views.py:70 | the ids of exactly the users whose name matches, exactly or ignoring case |
| Membership.LookupUser | backend/robson_insight/users/views.py:70 | `get` finds the user iff exactly one name matches, and returns that user's id; fails with `DoesNotExist` iff no name matches and with `MultipleObjectsReturned` iff two or more match |
| Membership.AddOutcome | backend/robson_insight/users/views.py:63-90 | 400 iff a field is missing; 404 "User not found" iff no name matches; 500 when several names match; for a found user, 404 "Group not found" iff the group does not exist; in an existing group, 500 when the requester has no profile, 403 for a member who is not an administrator, and for an administrator 200 "already in group" iff the user has a profile there and 201 Added otherwise |
| Membership.ProfilesAfterAdd | backend/robson_insight/users/views.py:77 | an add creates the one new profile, with the store's default flags, and keeps the others; any other response changes nothing |
| Membership.AddIsIdempotent | backend/robson_insight/users/views.py:77-81 | repeating a successful add answers 200 "already in group" and changes nothing more |
| Membership.RemoveOutcome | backend/robson_insight/users/views.py:95-121 | 400 iff a field is missing; the 400 body is "Username and group_id are required"; 404 "User not found" iff no user has exactly that name; 500 when several have it; for a found user, 404 "Group not found" iff the group does not exist; in an existing group, 404 "User is not in this group" when the user or the requester has no profile there, checked before the administrator test; then 403 for a non-administrator and 200 Removed for an administrator |
| Membership.ProfilesAfterRemove | backend/robson_insight/users/views.py:111 | a removal deletes exactly that user's profile in that group and keeps every other one |
| Membership.ExactLookupFinds | backend/robson_insight/users/views.py:103 | with unique user names, looking up a stored name finds its user |
| Membership.IexactFindsStoredName | backend/robson_insight/users/views.py:64-70 | when the case-insensitive lookup of a stored name, lower-cased as the add view does, finds one user, that user is the name's owner, whatever the case of the stored name |
| Membership.ExactLookupNeverAmbiguous | backend/robson_insight/users/views.py:103 | with unique user names, the exact lookup never finds two users |
| Membership.RemoveNeverServerError | backend/robson_insight/users/views.py:95-121 | with unique user names, removing never answers 500 |
| Membership.AddThenRemoveRestores | backend/robson_insight/users/views.py:63-121 | with unique user names, the same administrator adding a user by their stored name, in any mix of cases, and then removing them by that name answers 200 Removed and restores the profile table |
| Membership.GroupMembers | backend/robson_insight/users/views.py:50-57 | refused unless the requester has a profile in the group; otherwise exactly the group's profiles |
| Membership.MembershipStore.constructor | backend/robson_insight/users/models.py:4-23 | the tables start with the given users (ids and names unique) and no groups or profiles, and are consistent |
| Membership.MembershipStore.AddUserToGroup | backend/robson_insight/users/views.py:63-90 | the step-by-step view answers `AddOutcome` and leaves the table `ProfilesAfterAdd`, keeping every profile's user and group existing |
| Membership.MembershipStore.RemoveUserFromGroup | backend/robson_insight/users/views.py:95-121 | the step-by-step view answers `RemoveOutcome` and leaves the table `ProfilesAfterRemove` |
| Membership.MembershipStore.CreateGroup | backend/robson_insight/users/views.py:40-47 | a blank or over-long trimmed name is refused with no change; otherwise a group with a fresh id is saved and its creator becomes its administrator, with nothing else changed |
| SurveyAccess.ViewableGroups | backend/robson_insight/survey/views.py:16-17 | exactly the groups where the requester's profile has `can_view` |
| SurveyAccess.MemberGroups | backend/robson_insight/survey/views.py:71 | exactly the groups where the requester has a profile |
| SurveyAccess.EntriesInGroups | backend/robson_insight/survey/views.py:18 | exactly the entries whose group is one of the given groups, and no more of them than there are entries |
| SurveyAccess.EntriesInGroupsSplits | backend/robson_insight/survey/views.py:18 | selection keeps table order: it distributes over concatenation |
| SurveyAccess.VisibleEntries | backend/robson_insight/survey/views.py:14-18 | an entry is listed iff its group is one where the requester's profile has `can_view` |
| SurveyAccess.RemovalHidesGroupEntries | backend/robson_insight/survey/views.py:14-18 | after a user is removed from a group, none of its entries is listed for them |
| SurveyAccess.EntryDecision | backend/robson_insight/survey/views.py:20-32 | creation is permitted iff the requester has a profile in the entry's group with `can_add`; otherwise refused as "not a member" or "no permission" |
| SurveyAccess.FilterDecision | backend/robson_insight/survey/views.py:68-76 | a filter is permitted iff every listed group is one the requester belongs to, an empty list included |
| SurveyAccess.FilterEntries | backend/robson_insight/survey/views.py:39-47 | nothing for an absent or foreign filter; otherwise exactly the entries of the filter's groups |
| SurveyAccess.FilterList | backend/robson_insight/survey/views.py:65-66 | exactly the requester's own filters |
| SurveyAccess.FilterBypassesCanView | backend/robson_insight/survey/views.py:39-47 | a member without `can_view` may save a filter on the group and read through it an entry the entry list hides |
| SurveyAccess.PermittedFilterStaysWithinMembership | backend/robson_insight/survey/views.py:68-76 | a permitted filter, as saved and not edited since, reads only entries of groups the owner belonged to when saving it |
| SurveyAccess.SurveyStore.constructor | backend/robson_insight/survey/models.py:6-40 | the initial tables: the entry and filter tables start empty over the given profile table |
| SurveyAccess.SurveyStore.CreateEntry | backend/robson_insight/survey/views.py:20-32 | the decision is `EntryDecision`; a refusal saves nothing, and a permitted entry is appended with the requester as its user |
| SurveyAccess.SurveyStore.CreateFilter | backend/robson_insight/survey/views.py:68-76 | the loop's decision is `FilterDecision`; a refusal saves nothing, and a permitted filter is saved under a fresh id, owned by the requester |

## Left out

- Network requests, toasts, navigation, modals, rendering and styling are left out. Those screens' handlers are modelled through the values they compute and the requests they would send.
- Text.ToLower: lower-cases A-Z only. JavaScript `toLowerCase`, Python `lower()` and the database's case-insensitive comparison also fold non-ASCII letters.
- Text.IsSpace: the white-space set is JavaScript's (`trim()` and the regular expression's `\s`). Python's `strip()`, used by the server's name trimming, has a slightly different set.
- String lengths count characters. JavaScript `length` counts UTF-16 code units, so characters outside the basic plane count twice in the name checks and the e-mail pattern.
- Dates are integer milliseconds. Parsing a date string, invalid dates (NaN, which compares false), and the time zone are left out. `EndOfDay` uses whole UTC days where `date-fns` uses the local day.
- ResultsReport.ProcessResultsForAnalysis: the dictionary is an ordinary map. A plain JavaScript object also has inherited keys such as "constructor", and a result with such a classification would reach the update branch.
- GroupsScreen.ExtractEmails: the CSV parser, the file picker and the `massAddMembers` guard are not part of this model. An empty list is still posted, because `![]` is false in JavaScript.
- MassInvite.ValidateMassInvite: the element check is a parameter. Django's `EmailField` normalisation (trimming) and its address grammar are not modelled.
- GroupsScreen.InitialCheckedState: the configuration's groups are taken to be a list of group ids. The serializer for filters is not part of this model.
- Membership.AddOutcome: the text of the 500 response (`str(e)`) is not modelled. The `IntegrityError` path (a race between two concurrent adds) is left out, because the model has no concurrency.
- Membership: the success messages are tagged with user and group ids instead of the formatted names.
- Membership: the shown `UserProfile` model has no `is_admin`, `can_add` or `can_view` fields, so a new profile's flags are a constructor parameter of `MembershipStore` (`newProfile`).
- Membership.MembershipStore.constructor: the user table is given, not built. Unique ids and names are required of it because Django's `User` model has a primary key and a unique `username`; creating users is not part of this model.
- Membership.MembershipStore.CreateGroup: the serializer's other fields and the database's id allocation are reduced to a fresh id counter.
- SurveyAccess.PermittedFilterStaysWithinMembership: holds only for a filter as it was created. `FilterConfigurationDetailView` (`survey/views.py:79-86`) lets any authenticated user read, update or delete any filter by its id, with no ownership or membership check, so an edited filter can name groups its owner does not belong to. That view is not modelled.
- The permission-toggle, group-rename, group-removal and join-request requests are not modelled. The same holds for the charts, the e-mail and import modals, authentication, the search for the first viewable group, `EntryDetailView` and `IsGroupAdmin`. None of these is part of the modelled core.
- GroupsScreen: the `addGroup` guard `!selectedConfiguration` is not modelled. `ToggleGroup` gives the request that would be attempted.
- The request bodies' types (a `group_id` sent as a string, a missing `username` that is `None`) are reduced to `Option<int>` and `string`.
