/** The mass-invitation request body (backend/robson_insight/users/serializers.py):
    a non-empty list of e-mail addresses with no address repeated. */
module MassInvite {

  datatype Validation = Valid(emails: seq<string>) | Invalid(message: string)

  /** Some address occurs at two different positions. */
  predicate HasRepeat(s: seq<string>) {
    exists i, j :: 0 <= i < j < |s| && s[i] == s[j]
  }

  /** `len(set(emails))`: the number of distinct strings in the list. */
  function DistinctCount(s: seq<string>): nat {
    |set e | e in s|
  }

  /** Comparing `len(emails)` with `len(set(emails))` detects exactly the
      lists in which some string occurs twice. */
  lemma {:induction false} DistinctCountDetectsRepeats(s: seq<string>)
    ensures DistinctCount(s) <= |s|
    ensures DistinctCount(s) == |s| <==> !HasRepeat(s)
  {
    if s != [] {
      var n := |s| - 1;
      var p := s[..n];
      DistinctCountDetectsRepeats(p);
      assert (set e | e in s) == (set e | e in p) + {s[n]} by {
        assert s == p + [s[n]];
      }
      if s[n] in p {
        var i :| 0 <= i < n && p[i] == s[n];
        assert s[i] == s[n];
        assert (set e | e in s) == (set e | e in p);
      } else {
        assert HasRepeat(s) ==> HasRepeat(p) by {
          if HasRepeat(s) {
            var i, j :| 0 <= i < j < |s| && s[i] == s[j];
            assert p[i] == s[i];
            assert j < n;
            assert p[i] == p[j];
          }
        }
        assert HasRepeat(p) ==> HasRepeat(s) by {
          if HasRepeat(p) {
            var i, j :| 0 <= i < j < |p| && p[i] == p[j];
            assert s[i] == s[j];
          }
        }
      }
    }
  }

  /** `MassInviteSerializer.validate_emails`: a list with a repeated string is
      refused; any other list is returned as it came. Repeats are found by
      exact string equality, so addresses that differ only in case are
      distinct. */
  function ValidateEmails(emails: seq<string>): (r: Validation)
    ensures r.Invalid? <==> HasRepeat(emails)
    ensures r.Invalid? ==> r.message == "Duplicate emails are not allowed."
    ensures r.Valid? ==> r.emails == emails
  {
    DistinctCountDetectsRepeats(emails);
    if |emails| != DistinctCount(emails) then Invalid("Duplicate emails are not allowed.")
    else Valid(emails)
  }

  /** The `emails` field as a whole: the list-field checks (`allow_empty=False`,
      then every element an e-mail address, the element check being the
      parameter `isEmailAddress`) run before `validate_emails`. */
  function ValidateMassInvite(emails: seq<string>, isEmailAddress: string -> bool): (r: Validation)
    ensures r.Valid? <==> |emails| > 0 && (forall e :: e in emails ==> isEmailAddress(e)) && !HasRepeat(emails)
    ensures r.Valid? ==> r.emails == emails
    ensures |emails| == 0 ==> r == Invalid("This list may not be empty.")
  {
    if |emails| == 0 then Invalid("This list may not be empty.")
    else if exists e :: e in emails && !isEmailAddress(e) then Invalid("Enter a valid email address.")
    else ValidateEmails(emails)
  }

  /** Duplicate detection is case-sensitive: two addresses that differ only
      in the case of one letter are both accepted. */
  lemma CaseDistinctAddressesAccepted()
    ensures ValidateEmails(["A@x.org", "a@x.org"]) == Valid(["A@x.org", "a@x.org"])
  {
    var s := ["A@x.org", "a@x.org"];
    assert s[0][0] != s[1][0];
    assert !HasRepeat(s);
  }

  /** Two copies of the same address are refused. */
  lemma RepeatedAddressRefused(e: string)
    ensures ValidateEmails([e, e]).Invalid?
  {
    var s := [e, e];
    assert s[0] == s[1];
  }
}
