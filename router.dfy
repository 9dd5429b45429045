/**
 * The administrative routes of src/ui/router.py that touch the model: the bot
 * status switch, and the rows of the `/users` page.
 */
module Router {
  import opened Wrappers
  import opened CustomTypes
  import opened DbModel
  import opened Fields

  /** The actions `set_bot_status` recognises. */
  datatype AdminAction = TurnOff | TurnOn | RestartBot | ActivateRegistration | DeactivateRegistration

  function ActionName(a: AdminAction): string {
    match a
    case TurnOff => "turn_off"
    case TurnOn => "turn_on"
    case RestartBot => "restart"
    case ActivateRegistration => "activate_registration"
    case DeactivateRegistration => "deactivate_registration"
  }

  /** The if/elif chain over the action string; any other string is no action. */
  function ParseAction(s: string): (r: Option<AdminAction>)
    ensures r.Some? ==> ActionName(r.value) == s
    ensures r.None? ==> forall a :: ActionName(a) != s
  {
    if s == "turn_off" then Some(TurnOff)
    else if s == "turn_on" then Some(TurnOn)
    else if s == "restart" then Some(RestartBot)
    else if s == "activate_registration" then Some(ActivateRegistration)
    else if s == "deactivate_registration" then Some(DeactivateRegistration)
    else None
  }

  /** Every action is recognised under its own name. */
  lemma ActionNamesRoundTrip(a: AdminAction)
    ensures ParseAction(ActionName(a)) == Some(a)
  {
  }

  /** The one bot-status column each action sets. */
  function ApplyAction(row: BotStatusRow, a: AdminAction): (r: BotStatusRow)
    ensures r.id == row.id
    ensures r.botStatus != row.botStatus ==> r.isRegistrationOpen == row.isRegistrationOpen
    ensures a.TurnOff? || a.TurnOn? || a.RestartBot? ==>
              r.isRegistrationOpen == row.isRegistrationOpen &&
              r.botStatus == (if a.TurnOff? then Off else if a.TurnOn? then On else Restart)
    ensures a.ActivateRegistration? || a.DeactivateRegistration? ==>
              r.botStatus == row.botStatus && r.isRegistrationOpen == a.ActivateRegistration?
  {
    match a
    case TurnOff => row.(botStatus := Off)
    case TurnOn => row.(botStatus := On)
    case RestartBot => row.(botStatus := Restart)
    case ActivateRegistration => row.(isRegistrationOpen := true)
    case DeactivateRegistration => row.(isRegistrationOpen := false)
  }

  /** Repeating an action changes nothing more. */
  lemma ApplyActionIdempotent(row: BotStatusRow, a: AdminAction)
    ensures ApplyAction(ApplyAction(row, a), a) == ApplyAction(row, a)
  {
  }

  /** The bot status table. */
  class BotStatusTable {
    var rows: seq<BotStatusRow>

    constructor (rows: seq<BotStatusRow>)
      ensures this.rows == rows
    {
      this.rows := rows;
    }

    /**
     * `set_bot_status`: the UPDATE carries no WHERE clause, so a recognised action
     * applies to every row; any other action string leaves the table as it was.
     */
    method SetBotStatus(action: string)
      modifies this
      ensures |rows| == |old(rows)|
      ensures ParseAction(action).None? ==> rows == old(rows)
      ensures ParseAction(action).Some? ==>
                forall i :: 0 <= i < |rows| ==> rows[i] == ApplyAction(old(rows)[i], ParseAction(action).value)
    {
      var a := ParseAction(action);
      if a.Some? {
        var before := rows;
        rows := seq(|before|, i requires 0 <= i < |before| => ApplyAction(before[i], a.value));
      }
    }
  }

  /** `s` is in ascending order of `key`. */
  ghost predicate SortedBy<T>(s: seq<T>, key: T -> int) {
    forall i, j :: 0 <= i < j < |s| ==> key(s[i]) <= key(s[j])
  }

  function Insert<T>(x: T, s: seq<T>, key: T -> int): (r: seq<T>)
    requires SortedBy(s, key)
    ensures SortedBy(r, key)
    ensures multiset(r) == multiset(s) + multiset{x}
    ensures forall y :: y in r ==> y == x || y in s
  {
    if s == [] then [x]
    else if key(x) <= key(s[0]) then
      InsertFront(x, s, key);
      [x] + s
    else
      var t := Insert(x, s[1..], key);
      assert s == [s[0]] + s[1..];
      assert forall y :: y in t ==> key(s[0]) <= key(y) by {
        forall y | y in t ensures key(s[0]) <= key(y) {
          if y != x {
            var k :| 0 <= k < |s[1..]| && s[1..][k] == y;
            assert s[k + 1] == y;
          }
        }
      }
      InsertBehind(s[0], t, key);
      [s[0]] + t
  }

  lemma InsertFront<T>(x: T, s: seq<T>, key: T -> int)
    requires SortedBy(s, key) && s != [] && key(x) <= key(s[0])
    ensures SortedBy([x] + s, key)
  {
    var r := [x] + s;
    forall i, j | 0 <= i < j < |r| ensures key(r[i]) <= key(r[j]) {
      if i > 0 { assert r[i] == s[i - 1] && r[j] == s[j - 1]; }
      else { assert r[j] == s[j - 1]; assert key(s[0]) <= key(s[j - 1]); }
    }
  }

  lemma InsertBehind<T>(h: T, t: seq<T>, key: T -> int)
    requires SortedBy(t, key) && forall y :: y in t ==> key(h) <= key(y)
    ensures SortedBy([h] + t, key)
  {
    var r := [h] + t;
    forall i, j | 0 <= i < j < |r| ensures key(r[i]) <= key(r[j]) {
      assert r[j] == t[j - 1];
      if i > 0 { assert r[i] == t[i - 1]; }
    }
  }

  /** ORDER BY key ASC: a sorted permutation of `s` (insertion sort). */
  function SortBy<T>(s: seq<T>, key: T -> int): (r: seq<T>)
    ensures SortedBy(r, key) && multiset(r) == multiset(s)
  {
    if s == [] then []
    else
      assert s == [s[0]] + s[1..];
      Insert(s[0], SortBy(s[1..], key), key)
  }

  function FieldId(f: Field): int { f.id }

  function UserId(u: User): int { u.id }

  function MainFields(fields: seq<Field>): (r: seq<Field>)
    ensures forall f :: f in r <==> f in fields && f.status == FieldStatus.Main
  {
    if fields == [] then []
    else if fields[0].status == FieldStatus.Main then [fields[0]] + MainFields(fields[1..])
    else MainFields(fields[1..])
  }

  /** The field columns of the `/users` page: the main fields in ascending id order. */
  function FieldColumns(fields: seq<Field>): (r: seq<Field>)
    ensures forall f :: f in r <==> f in fields && f.status == FieldStatus.Main
    ensures forall i, j :: 0 <= i < j < |r| ==> r[i].id <= r[j].id
    ensures multiset(r) == multiset(MainFields(fields))
  {
    var r := SortBy(MainFields(fields), FieldId);
    assert forall f :: f in r <==> f in multiset(MainFields(fields));
    assert forall i, j :: 0 <= i < j < |r| ==> FieldId(r[i]) <= FieldId(r[j]);
    r
  }

  /** One cell of the page: the value and the document bucket of its field. */
  datatype Cell = Cell(value: string, documentBucket: Option<string>)

  /** One row of the page: the user's identity and one cell per answered field id. */
  datatype UserRow = UserRow(id: int, chatId: int, username: Option<string>, cells: map<int, Cell>)

  /** Every answer row refers to a field of the table (the foreign key). */
  ghost predicate ValuesReferToFields(fields: seq<Field>, values: seq<UserFieldValue>) {
    forall v :: v in values ==> exists f :: f in fields && f.id == v.fieldId
  }

  /** The cell of one answer row: its value and the bucket of the field it answers. */
  function CellOf(fields: seq<Field>, v: UserFieldValue): (c: Cell)
    requires exists f :: f in fields && f.id == v.fieldId
    ensures c.value == v.value
    ensures exists f :: f in fields && f.id == v.fieldId && c.documentBucket == f.documentBucket
  {
    Cell(v.value, FieldById(fields, v.fieldId).value.documentBucket)
  }

  /** The dict comprehension over a user's answers: keys in order, a later key overwriting. */
  function Cells(fields: seq<Field>, vs: seq<UserFieldValue>): (m: map<int, Cell>)
    requires ValuesReferToFields(fields, vs)
    ensures forall k :: k in m <==> exists v :: v in vs && v.fieldId == k
  {
    if vs == [] then map[]
    else
      var last := vs[|vs| - 1];
      var init := vs[..|vs| - 1];
      assert forall v :: v in vs <==> v in init || v == last;
      Cells(fields, init)[last.fieldId := CellOf(fields, last)]
  }

  /** An answer that no later answer to the same field follows is the one shown. */
  lemma {:induction false} LaterValueWins(fields: seq<Field>, vs: seq<UserFieldValue>, i: nat)
    requires ValuesReferToFields(fields, vs)
    requires i < |vs|
    requires forall j :: i < j < |vs| ==> vs[j].fieldId != vs[i].fieldId
    ensures vs[i].fieldId in Cells(fields, vs) && Cells(fields, vs)[vs[i].fieldId] == CellOf(fields, vs[i])
    decreases |vs|
  {
    if i < |vs| - 1 {
      var init := vs[..|vs| - 1];
      assert init[i] == vs[i];
      LaterValueWins(fields, init, i);
    }
  }

  /** The page row of one user: id, chat id, user name, and a cell per field the user answered. */
  function RowOf(fields: seq<Field>, values: seq<UserFieldValue>, u: User): (r: UserRow)
    requires ValuesReferToFields(fields, values)
    ensures r.id == u.id && r.chatId == u.chatId && r.username == u.username
    ensures forall k :: k in r.cells <==> exists v :: v in values && v.userId == u.id && v.fieldId == k
  {
    UserRow(u.id, u.chatId, u.username, Cells(fields, RowsOf(values, u.id)))
  }

  /** The rows of `us`, in the same order. */
  function RowsFor(fields: seq<Field>, values: seq<UserFieldValue>, us: seq<User>): (r: seq<UserRow>)
    requires ValuesReferToFields(fields, values)
    ensures |r| == |us|
    ensures forall i :: 0 <= i < |us| ==> r[i] == RowOf(fields, values, us[i])
  {
    if us == [] then [] else [RowOf(fields, values, us[0])] + RowsFor(fields, values, us[1..])
  }

  /** Two sequences with the same multiset have the same members. */
  lemma SameMembers<T>(s: seq<T>, t: seq<T>)
    requires multiset(s) == multiset(t)
    ensures |s| == |t|
    ensures forall x :: x in s <==> x in t
  {
    assert |s| == |multiset(s)|;
    forall x ensures x in s <==> x in t {
      assert x in s <==> x in multiset(s);
      assert x in t <==> x in multiset(t);
    }
  }

  /** The rows of the `/users` page: one per user, in ascending id order. */
  function UsersPage(fields: seq<Field>, users: seq<User>, values: seq<UserFieldValue>): (r: seq<UserRow>)
    requires ValuesReferToFields(fields, values)
    ensures |r| == |users|
    ensures forall i, j :: 0 <= i < j < |r| ==> r[i].id <= r[j].id
    ensures forall i :: 0 <= i < |r| ==> exists u :: u in users && r[i] == RowOf(fields, values, u)
    ensures forall u :: u in users ==> RowOf(fields, values, u) in r
  {
    var sorted := SortBy(users, UserId);
    SameMembers(sorted, users);
    RowsForSorted(fields, values, sorted);
    RowsForMembers(fields, values, sorted, users);
    RowsFor(fields, values, sorted)
  }

  lemma RowsForSorted(fields: seq<Field>, values: seq<UserFieldValue>, us: seq<User>)
    requires ValuesReferToFields(fields, values)
    requires SortedBy(us, UserId)
    ensures var r := RowsFor(fields, values, us);
            forall i, j :: 0 <= i < j < |r| ==> r[i].id <= r[j].id
  {
    var r := RowsFor(fields, values, us);
    forall i, j | 0 <= i < j < |r| ensures r[i].id <= r[j].id {
      assert UserId(us[i]) <= UserId(us[j]);
    }
  }

  lemma RowsForMembers(fields: seq<Field>, values: seq<UserFieldValue>, us: seq<User>, users: seq<User>)
    requires ValuesReferToFields(fields, values)
    requires forall u :: u in us <==> u in users
    ensures var r := RowsFor(fields, values, us);
            && (forall i :: 0 <= i < |r| ==> exists u :: u in users && r[i] == RowOf(fields, values, u))
            && (forall u :: u in users ==> RowOf(fields, values, u) in r)
  {
    var r := RowsFor(fields, values, us);
    forall i | 0 <= i < |r| ensures exists u :: u in users && r[i] == RowOf(fields, values, u) {
      assert us[i] in users && r[i] == RowOf(fields, values, us[i]);
    }
    forall u | u in users ensures RowOf(fields, values, u) in r {
      var i :| 0 <= i < |us| && us[i] == u;
      assert r[i] == RowOf(fields, values, u);
    }
  }
}
