/**
 * The two fields of a subtask that are derived from the row rather than
 * copied: the assignee (translated through the name map) and the cost
 * (hours in the row, minutes in the issue).
 */
module SubtaskFields {
  import opened Wrappers
  import opened Text
  import opened Users

  /** The assignee sent for a (stripped) assignee cell: the mapped login name
      when the cell is a lookup key of the map, the cell itself otherwise. */
  function Assignee(names: map<string, string>, user: string): string
  {
    if user in names then names[user] else user
  }

  /** The assignee in terms of the users the map was built from: the login
      name of the last user whose lookup key is the cell, or the cell
      unchanged when no user's key is. */
  lemma AssigneeFromUsers(users: seq<User>, user: string)
    ensures (forall i :: 0 <= i < |users| ==> NameKey(users[i]) != user) ==> Assignee(NameMap(users), user) == user
    ensures forall i :: 0 <= i < |users| && NameKey(users[i]) == user && (forall j :: i < j < |users| ==> NameKey(users[j]) != user)
              ==> Assignee(NameMap(users), user) == users[i].name
  {
  }

  /** A lookup key ending in whitespace (a display name such as "Ann - QA")
      is never reached: every assignee cell is stripped before the lookup. */
  lemma PaddedKeyUnreachable(u: User, cell: string)
    requires NameKey(u) != "" && IsSpace(NameKey(u)[|NameKey(u)| - 1])
    ensures Strip(cell) != NameKey(u)
  {
    StripSpec(cell);
  }

  /** The minutes written into the subtask's cost field for a stripped cost
      cell: a blank cell counts as "0"; otherwise `int(cell) * 60`. None
      where Python's int() raises, which aborts the import. */
  function CostMinutes(cell: string): Option<int>
  {
    var text := if cell == "" then "0" else cell;
    match ParseInt(text)
    case None => None
    case Some(hours) => Some(hours * 60)
  }

  /** A blank cost is zero minutes; a non-blank one is accepted exactly when
      it is a signed decimal literal, and then gives a whole number of
      hours in minutes, that number being the one the literal spells
      (whatever its sign or leading zeros). */
  lemma {:induction false} CostMinutesSpec(cell: string)
    ensures cell == "" ==> CostMinutes(cell) == Some(0)
    ensures cell != "" ==> (CostMinutes(cell).Some? <==> IsIntLiteral(cell))
    ensures CostMinutes(cell).Some? ==> CostMinutes(cell).value % 60 == 0
    ensures cell != "" && IsIntLiteral(cell) ==> ShowInt(CostMinutes(cell).value / 60) == Canonical(cell)
  {
    if cell == "" {
      assert IsDigits("0") && DigitsValue("0") == 0;
    } else {
      ParseIntSpec(cell);
    }
    if CostMinutes(cell).Some? {
      var hours := ParseInt(if cell == "" then "0" else cell).value;
      assert hours * 60 == 60 * hours;
      assert (hours * 60) / 60 == hours;
    }
  }

  /** A cost written as a whole number of hours becomes sixty times as many
      minutes. */
  lemma CostOfWholeHours(h: int)
    ensures CostMinutes(ShowInt(h)) == Some(h * 60)
  {
    ParseShowInt(h);
  }
}
