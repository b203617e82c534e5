/** Client-side logic of the group-management screen
    (frontend/src/screens/GroupsScreen.tsx): the e-mail pattern, the
    extraction of addresses from an uploaded CSV file, the name-length
    checks, the configuration checkboxes and the guard on inviting a member.
    The HTTP requests themselves are outside the model; where the screen
    would send one, the functions here return the request it would send. */
module GroupsScreen {
  import opened Text
  import MassInvite
  import opened Membership

  // ---------------------------------------------------------------------
  // isEmail: /^[^\s@]+@[^\s@]+\.[^\s@]+$/
  // ---------------------------------------------------------------------

  /** A character of the class `[^\s@]`. */
  predicate IsAddressChar(c: char) {
    !IsSpace(c) && c != '@'
  }

  predicate AllAddressChars(s: string) {
    forall i :: 0 <= i < |s| ==> IsAddressChar(s[i])
  }

  /** The regular expression read literally: `s` splits as
      `local @ host . tail` with three non-empty runs of `[^\s@]`. */
  ghost predicate MatchesEmailRegex(s: string) {
    exists a, b :: MatchesAt(s, a, b)
  }

  /** The split of `s` at `@` index `a` and `.` index `b`. */
  ghost predicate MatchesAt(s: string, a: int, b: int) {
    && 0 < a && a + 1 < b && b + 1 < |s|
    && s[a] == '@' && s[b] == '.'
    && AllAddressChars(s[..a]) && AllAddressChars(s[a + 1..b]) && AllAddressChars(s[b + 1..])
  }

  /** Position of the first occurrence of `c` in `s`. */
  function IndexOf(s: string, c: char): (r: nat)
    requires c in s
    ensures r < |s| && s[r] == c
    ensures forall i :: 0 <= i < r ==> s[i] != c
  {
    if s[0] == c then 0 else 1 + IndexOf(s[1..], c)
  }

  /** `isEmail`, decided directly: no white space, exactly one `@`, something
      before it, and a `.` in the part after it that is neither that part's
      first nor its last character. */
  predicate IsEmail(s: string) {
    && NoSpace(s)
    && '@' in s
    && var a := IndexOf(s, '@');
    && a > 0
    && '@' !in s[a + 1..]
    && |s| - (a + 1) >= 3
    && '.' in s[a + 2..|s| - 1]
  }

  /** `IsEmail` accepts exactly the strings the regular expression matches. */
  lemma IsEmailMatchesRegex(s: string)
    ensures IsEmail(s) <==> MatchesEmailRegex(s)
  {
    if IsEmail(s) {
      IsEmailMatches(s);
    }
    if MatchesEmailRegex(s) {
      var a, b :| MatchesAt(s, a, b);
      MatchIsEmail(s, a, b);
    }
  }

  /** A string `IsEmail` accepts splits at its `@` and at the first `.` of
      the host part as the expression requires. */
  lemma IsEmailMatches(s: string)
    requires IsEmail(s)
    ensures MatchesEmailRegex(s)
  {
    var a := IndexOf(s, '@');
    var d := s[a + 2..|s| - 1];
    var p := IndexOf(d, '.');
    var b := a + 2 + p;
    assert s[b] == d[p];
    var host := s[a + 1..];
    assert AllAddressChars(host) by {
      forall j | 0 <= j < |host| ensures IsAddressChar(host[j]) {
        assert host[j] in host && host[j] == s[a + 1 + j];
      }
    }
    assert s[a + 1..b] == host[..b - a - 1];
    assert s[b + 1..] == host[b - a..];
    assert MatchesAt(s, a, b);
  }

  /** A string the expression matches passes every check of `IsEmail`. */
  lemma MatchIsEmail(s: string, a: int, b: int)
    requires MatchesAt(s, a, b)
    ensures IsEmail(s)
  {
    assert forall i :: 0 <= i < a ==> s[i] == s[..a][i];
    assert IndexOf(s, '@') == a;
    assert NoSpace(s) by {
      forall i | 0 <= i < |s| ensures !IsSpace(s[i]) {
        if i < a { assert s[i] == s[..a][i]; }
        else if a < i < b { assert s[i] == s[a + 1..b][i - a - 1]; }
        else if b < i { assert s[i] == s[b + 1..][i - b - 1]; }
      }
    }
    assert '@' !in s[a + 1..] by {
      forall i | a + 1 <= i < |s| ensures s[i] != '@' {
        if i < b { assert s[i] == s[a + 1..b][i - a - 1]; }
        else if b < i { assert s[i] == s[b + 1..][i - b - 1]; }
      }
    }
    assert s[a + 2..|s| - 1][b - a - 2] == '.';
  }

  // ---------------------------------------------------------------------
  // handleFileUpload: addresses from the first column of a CSV file
  // ---------------------------------------------------------------------

  /** What the screen does with the first cell of a row: trim, then
      lower-case. */
  function Normalize(cell: string): string {
    ToLower(Trim(cell))
  }

  /** The first row is a header when its first cell, as it is, is not an
      address. A row with no cells has `undefined` as first cell, which the
      pattern test reads as the text "undefined": a header too. */
  predicate IsHeaderRow(row: seq<string>) {
    |row| == 0 || !IsEmail(row[0])
  }

  /** The addresses the loop collects from `rows`, in row order, one per row
      whose normalised first cell is an address. `None` when some row has no
      cells: reading `.trim()` of its missing first cell throws and nothing
      is collected. */
  function EmailsFrom(rows: seq<seq<string>>): Option<seq<string>> {
    if rows == [] then Some([])
    else
      var last := rows[|rows| - 1];
      match EmailsFrom(rows[..|rows| - 1])
      case None => None
      case Some(es) =>
        if |last| == 0 then None
        else if IsEmail(Normalize(last[0])) then Some(es + [Normalize(last[0])])
        else Some(es)
  }

  /** Once a prefix of the rows throws, so do all the rows. */
  lemma {:induction false} EmailsFromFailureSticks(rows: seq<seq<string>>, k: nat)
    requires k <= |rows| && EmailsFrom(rows[..k]) == None
    ensures EmailsFrom(rows) == None
  {
    if k < |rows| {
      assert rows[..|rows| - 1][..k] == rows[..k];
      EmailsFromFailureSticks(rows[..|rows| - 1], k);
    } else {
      assert rows[..k] == rows;
    }
  }

  /** The rows the loop visits: all of them, or all but the first when the
      first is a header. */
  function DataRows(data: seq<seq<string>>): seq<seq<string>>
    requires |data| > 0
  {
    if IsHeaderRow(data[0]) then data[1..] else data
  }

  /** The list handed to `massAddMembers`; `None` when the parse callback
      throws first (an empty file, whose `data[0][0]` cannot be read, or a
      visited row with no cells), in which case no request is sent. */
  function CsvEmails(data: seq<seq<string>>): Option<seq<string>> {
    if |data| == 0 then None else EmailsFrom(DataRows(data))
  }

  /** One more visited row: it throws when it has no cells, and otherwise
      contributes its normalised first cell when that is an address. */
  lemma EmailsFromExtend(data: seq<seq<string>>, start: int, i: int, collected: seq<string>)
    requires 0 <= start <= i < |data| && EmailsFrom(data[start..i]) == Some(collected)
    ensures |data[i]| == 0 ==> EmailsFrom(data[start..i + 1]) == None
    ensures |data[i]| > 0 ==>
              EmailsFrom(data[start..i + 1])
              == Some(if IsEmail(Normalize(data[i][0])) then collected + [Normalize(data[i][0])] else collected)
  {
    assert data[start..i + 1][..i - start] == data[start..i];
  }

  /** The extraction loop of `handleFileUpload`. */
  method ExtractEmails(data: seq<seq<string>>) returns (emails: Option<seq<string>>)
    ensures emails == CsvEmails(data)
  {
    if |data| == 0 {
      return None;
    }
    var isHeader := IsHeaderRow(data[0]);
    var start := if isHeader then 1 else 0;
    var collected: seq<string> := [];
    var i := start;
    while i < |data|
      invariant start <= i <= |data|
      invariant EmailsFrom(data[start..i]) == Some(collected)
    {
      EmailsFromExtend(data, start, i, collected);
      if |data[i]| == 0 {
        assert data[start..][..i + 1 - start] == data[start..i + 1];
        EmailsFromFailureSticks(data[start..], i + 1 - start);
        assert data[start..] == DataRows(data);
        return None;
      }
      var email := Normalize(data[i][0]);
      if IsEmail(email) {
        collected := collected + [email];
      }
      i := i + 1;
    }
    assert data[start..i] == DataRows(data);
    return Some(collected);
  }

  /** Every collected address passes `isEmail` and is the normalised first
      cell of a row; no other rows contribute. */
  lemma {:induction false} EmailsFromSound(rows: seq<seq<string>>, es: seq<string>)
    requires EmailsFrom(rows) == Some(es)
    ensures forall r :: r in rows ==> |r| > 0
    ensures forall e :: e in es ==> IsEmail(e) && exists r :: r in rows && Normalize(r[0]) == e
    ensures forall r :: r in rows && IsEmail(Normalize(r[0])) ==> Normalize(r[0]) in es
  {
    if rows != [] {
      var init := rows[..|rows| - 1];
      var last := rows[|rows| - 1];
      var es' :| EmailsFrom(init) == Some(es');
      EmailsFromSound(init, es');
      assert rows == init + [last];
      forall e | e in es ensures IsEmail(e) && exists r :: r in rows && Normalize(r[0]) == e {
        if e in es' {
          var r :| r in init && Normalize(r[0]) == e;
          assert r in rows;
        } else {
          assert e == Normalize(last[0]);
        }
      }
    }
  }

  /** Rows are never merged: the number of addresses collected is the
      number of visited rows whose normalised first cell is an address. */
  function CountAddressRows(rows: seq<seq<string>>): nat
    requires forall r :: r in rows ==> |r| > 0
  {
    if rows == [] then 0
    else CountAddressRows(rows[..|rows| - 1]) + (if IsEmail(Normalize(rows[|rows| - 1][0])) then 1 else 0)
  }

  lemma {:induction false} EmailsFromKeepsEveryRow(rows: seq<seq<string>>, es: seq<string>)
    requires EmailsFrom(rows) == Some(es)
    ensures forall r :: r in rows ==> |r| > 0
    ensures |es| == CountAddressRows(rows)
  {
    EmailsFromSound(rows, es);
    if rows != [] {
      var init := rows[..|rows| - 1];
      var es' :| EmailsFrom(init) == Some(es');
      EmailsFromKeepsEveryRow(init, es');
    }
  }

  /** Order is kept and repeats are not removed: when two visited rows
      `i < j` give the same address, it is collected twice, and the mass
      invitation that follows is refused by the server. */
  lemma {:induction false} RepeatedRowsRepeatAddress(rows: seq<seq<string>>, es: seq<string>, i: int, j: int)
    requires EmailsFrom(rows) == Some(es)
    requires 0 <= i < j < |rows|
    requires |rows[i]| > 0 && |rows[j]| > 0
    requires Normalize(rows[i][0]) == Normalize(rows[j][0]) && IsEmail(Normalize(rows[i][0]))
    ensures MassInvite.HasRepeat(es)
    ensures MassInvite.ValidateEmails(es).Invalid?
  {
    var init := rows[..|rows| - 1];
    var es' :| EmailsFrom(init) == Some(es');
    var e := Normalize(rows[i][0]);
    if j < |rows| - 1 {
      assert init[i] == rows[i] && init[j] == rows[j];
      RepeatedRowsRepeatAddress(init, es', i, j);
      var p, q :| 0 <= p < q < |es'| && es'[p] == es'[q];
      assert es[p] == es[q];
    } else {
      EmailsFromSound(init, es');
      assert init[i] == rows[i];
      assert e in es';
      var p :| 0 <= p < |es'| && es'[p] == e;
      assert es == es' + [e];
      assert es[p] == es[|es| - 1];
    }
  }

  // ---------------------------------------------------------------------
  // createGroup / createConfiguration / updateGroupName: name lengths
  // ---------------------------------------------------------------------

  datatype NameCheck = Proceed | Rejected(message: string)

  const MinNameLength := 5
  const MaxNameLength := 100

  /** The check in `createGroup` and `updateGroupName`: names of 5 to 100
      characters go on to the request, others get an error message. */
  function CheckGroupName(name: string): (r: NameCheck)
    ensures r.Proceed? <==> MinNameLength <= |name| <= MaxNameLength
    ensures |name| < MinNameLength ==> r == Rejected("Group name must be at least 5 characters")
    ensures |name| > MaxNameLength ==> r == Rejected("Group name cannot exceed 100 characters")
  {
    if |name| < 5 then Rejected("Group name must be at least 5 characters")
    else if |name| > 100 then Rejected("Group name cannot exceed 100 characters")
    else Proceed
  }

  /** The check in `createConfiguration`: the same bounds; its message for a
      long name also speaks of a "Group name". */
  function CheckConfigurationName(name: string): (r: NameCheck)
    ensures r.Proceed? <==> MinNameLength <= |name| <= MaxNameLength
    ensures |name| < MinNameLength ==> r == Rejected("Configuration name must be at least 5 characters")
    ensures |name| > MaxNameLength ==> r == Rejected("Group name cannot exceed 100 characters")
  {
    if |name| < 5 then Rejected("Configuration name must be at least 5 characters")
    else if |name| > 100 then Rejected("Group name cannot exceed 100 characters")
    else Proceed
  }

  // ---------------------------------------------------------------------
  // Configuration checkboxes
  // ---------------------------------------------------------------------

  /** The initial `checkedGroups` built by the `reduce` in
      `fetchConfigurationGroups`: one key per viewable group, checked iff the
      group is in the configuration. */
  function InitialCheckedState(viewable: seq<GroupId>, inConfiguration: seq<GroupId>): (m: map<GroupId, bool>)
    ensures m.Keys == set g | g in viewable
    ensures forall g :: g in m ==> (m[g] <==> g in inConfiguration)
  {
    if viewable == [] then map[]
    else
      var g := viewable[|viewable| - 1];
      InitialCheckedState(viewable[..|viewable| - 1], inConfiguration)[g := g in inConfiguration]
  }

  /** `checkedGroups[id]` as a condition: a missing key reads as unchecked. */
  predicate IsChecked(checked: map<GroupId, bool>, id: GroupId) {
    id in checked && checked[id]
  }

  datatype ConfigurationRequest = AddGroup(group: GroupId) | RemoveGroup(group: GroupId)

  /** `handleGroupCheckBoxChange`: the request it sends and the new map. */
  function ToggleGroup(checked: map<GroupId, bool>, id: GroupId): (r: (ConfigurationRequest, map<GroupId, bool>))
    ensures r.0 == if IsChecked(checked, id) then RemoveGroup(id) else AddGroup(id)
    ensures r.1.Keys == checked.Keys + {id}
    ensures IsChecked(r.1, id) == !IsChecked(checked, id)
    ensures forall k :: k in checked && k != id ==> r.1[k] == checked[k]
  {
    var request := if IsChecked(checked, id) then RemoveGroup(id) else AddGroup(id);
    (request, checked[id := !IsChecked(checked, id)])
  }

  /** Toggling the same box twice restores the map and sends the opposite
      request the second time. */
  lemma ToggleTwiceRestores(checked: map<GroupId, bool>, id: GroupId)
    requires id in checked
    ensures ToggleGroup(ToggleGroup(checked, id).1, id).1 == checked
    ensures ToggleGroup(ToggleGroup(checked, id).1, id).0 !=  ToggleGroup(checked, id).0
  {
    var once := ToggleGroup(checked, id).1;
    var twice := ToggleGroup(once, id).1;
    assert twice.Keys == checked.Keys;
    assert forall k :: k in checked ==> twice[k] == checked[k];
  }

  // ---------------------------------------------------------------------
  // addMember
  // ---------------------------------------------------------------------

  datatype Invitation = Invitation(email: string, group: GroupId)

  /** `!selectedGroup` in JavaScript. The picker stores the chosen id as
      its string form, which is never empty and so never falsy (even for
      id 0), so only the absence of a selection stops the request. */
  predicate NoGroupSelected(selected: Option<GroupId>) {
    selected.None?
  }

  /** `addMember`: the invitation it posts, or nothing when the e-mail text
      is empty or no group is selected. */
  function AddMember(newMember: string, selected: Option<GroupId>): (r: Option<Invitation>)
    ensures r.None? <==> newMember == "" || NoGroupSelected(selected)
    ensures r.Some? ==> r.value.email == newMember && selected == Some(r.value.group)
  {
    if newMember == "" || NoGroupSelected(selected) then None
    else Some(Invitation(newMember, selected.value))
  }
}
