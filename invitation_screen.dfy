/** The invitation form (frontend/src/screens/InvitationScreen.tsx): a list
    of text fields, each identified by a key taken from the clock when the
    field is created. Every edit builds a new list, which replaces the old
    one. The clock reading is a parameter (`now`); two fields created in the
    same millisecond share a key, which is why removal and update act on
    every field with the given key. */
module InvitationScreen {

  datatype Field = Field(key: int, text: string)

  /** The state the form starts in: one field with empty text. */
  function InitialFields(now: int): (fields: seq<Field>)
    ensures |fields| == 1 && fields[0].text == "" && fields[0].key == now
  {
    [Field(now, "")]
  }

  /** `addField`: one empty field appended at the end. */
  function AddField(fields: seq<Field>, now: int): (r: seq<Field>)
    ensures |r| == |fields| + 1
    ensures r[..|fields|] == fields
    ensures r[|fields|] == Field(now, "")
  {
    fields + [Field(now, "")]
  }

  /** Some field carries `key`. */
  predicate HasKey(fields: seq<Field>, key: int) {
    exists i :: 0 <= i < |fields| && fields[i].key == key
  }

  /** `removeField`: the fields whose key differs from `key`, in order. */
  function RemoveField(fields: seq<Field>, key: int): (r: seq<Field>)
    ensures |r| <= |fields|
    ensures forall f :: f in r <==> f in fields && f.key != key
    ensures !HasKey(fields, key) ==> r == fields
    ensures HasKey(fields, key) ==> |r| < |fields|
  {
    if fields == [] then []
    else if fields[0].key == key then RemoveField(fields[1..], key)
    else [fields[0]] + RemoveField(fields[1..], key)
  }

  /** Removal keeps order: it can be done piece by piece on any split of the
      list. */
  lemma {:induction false} RemoveFieldSplits(a: seq<Field>, b: seq<Field>, key: int)
    ensures RemoveField(a + b, key) == RemoveField(a, key) + RemoveField(b, key)
  {
    if a != [] {
      assert (a + b)[1..] == a[1..] + b;
      RemoveFieldSplits(a[1..], b, key);
    } else {
      assert a + b == b;
    }
  }

  /** Adding a field under a fresh key and then removing it gives back the
      list that was there before. */
  lemma AddThenRemove(fields: seq<Field>, now: int)
    requires !HasKey(fields, now)
    ensures RemoveField(AddField(fields, now), now) == fields
  {
    RemoveFieldSplits(fields, [Field(now, "")], now);
  }

  /** `updateField`: every field with `key` gets the new text; keys, length
      and the other fields' texts stay as they were. */
  function UpdateField(fields: seq<Field>, key: int, text: string): (r: seq<Field>)
    ensures |r| == |fields|
    ensures forall i :: 0 <= i < |r| ==> r[i].key == fields[i].key
    ensures forall i :: 0 <= i < |r| ==> r[i].text == if fields[i].key == key then text else fields[i].text
  {
    if fields == [] then []
    else
      var f := fields[0];
      [if f.key == key then f.(text := text) else f] + UpdateField(fields[1..], key, text)
  }

  /** The last update of a key wins, so repeating an update changes nothing. */
  lemma UpdateFieldLastWins(fields: seq<Field>, key: int, t1: string, t2: string)
    ensures UpdateField(UpdateField(fields, key, t1), key, t2) == UpdateField(fields, key, t2)
  {
    var a := UpdateField(UpdateField(fields, key, t1), key, t2);
    var b := UpdateField(fields, key, t2);
    assert forall i :: 0 <= i < |a| ==> a[i] == b[i];
  }

  /** `handleAddUsers`: the texts of the fields, one per field, in order. */
  function Usernames(fields: seq<Field>): (r: seq<string>)
    ensures |r| == |fields|
    ensures forall i :: 0 <= i < |r| ==> r[i] == fields[i].text
  {
    if fields == [] then [] else [fields[0].text] + Usernames(fields[1..])
  }

  /** What the user typed is what is sent: after updating the field with a
      key that only it carries, its position of the list of usernames holds
      the new text and every other position is unchanged. */
  lemma UpdateShowsInUsernames(fields: seq<Field>, i: int, text: string)
    requires 0 <= i < |fields|
    requires forall j :: 0 <= j < |fields| && j != i ==> fields[j].key != fields[i].key
    ensures Usernames(UpdateField(fields, fields[i].key, text)) == Usernames(fields)[i := text]
  {
    var a := Usernames(UpdateField(fields, fields[i].key, text));
    var b := Usernames(fields)[i := text];
    assert forall j :: 0 <= j < |a| ==> a[j] == b[j];
  }

  datatype RowButtons = RowButtons(minus: bool, plus: bool)

  /** The buttons shown beside the field at `index`: '+' alone when the list
      has one field; otherwise '-' on every row and '+' on the last. */
  function ButtonsAt(fields: seq<Field>, index: int): (r: RowButtons)
    requires 0 <= index < |fields|
    ensures r.minus <==> |fields| > 1
    ensures r.plus <==> index == |fields| - 1
  {
    if |fields| == 1 then RowButtons(false, true)
    else RowButtons(true, index == |fields| - 1)
  }

  /** A single field cannot be removed from the screen: the starting form
      has no '-' button. */
  lemma InitialFormHasNoMinus(now: int)
    ensures !ButtonsAt(InitialFields(now), 0).minus
    ensures ButtonsAt(InitialFields(now), 0).plus
  {
  }
}
