/**
 * The record types of src/utils/db_model.py that the registration flow touches,
 * with their column defaults and the uniqueness and foreign-key rules of the schema.
 * Rows refer to each other by integer id; lookups go through explicit functions.
 */
module DbModel {
  import opened Wrappers
  import opened CustomTypes

  /** A row of the bot status table. */
  datatype BotStatusRow = BotStatusRow(id: int, botStatus: BotStatus, isRegistrationOpen: bool)

  /** A named, ordered group of questions. */
  datatype FieldBranch = FieldBranch(id: int, key: string)

  /**
   * A question. A non-empty `documentBucket` means the answer must be an
   * uploaded photo or document rather than text.
   */
  datatype Field = Field(
    id: int,
    key: string,
    status: FieldStatus,
    branchId: int,
    orderPlace: int,
    questionMarkdown: Option<string>,
    answerOptions: Option<string>,
    documentBucket: Option<string>)

  /** One chat participant. `currFieldId` is the pending question, if any. */
  datatype User = User(
    id: int,
    chatId: int,
    username: Option<string>,
    status: UserStatus,
    haveBannedBot: bool,
    currFieldId: Option<int>)

  /** One recorded answer of a user to a field. */
  datatype UserFieldValue = UserFieldValue(id: int, userId: int, fieldId: int, value: string)

  /** A reply-keyboard key with the text (and optional photo) it answers with. */
  datatype KeyboardKey = KeyboardKey(
    id: int,
    key: string,
    status: KeyboardKeyStatus,
    textMarkdown: string,
    photoLink: Option<string>)

  /** The settings columns the registration flow reads. */
  datatype Settings = Settings(
    registrationIsOver: string,
    startTemplate: string,
    firstFieldBranch: string,
    userDocumentNameField: string,
    registrationComplete: string,
    restartUserTemplate: string,
    helpUserTemplate: string,
    helpRestartOnRegistrationComplete: string,
    strangeUserError: string)

  /** The read-only question catalog: the branch and field tables. */
  datatype Catalog = Catalog(branches: seq<FieldBranch>, fields: seq<Field>)

  /** A bot status row inserted with only its id: the bot is on and registration is open. */
  function NewBotStatusRow(id: int): (r: BotStatusRow)
    ensures r.id == id && r.botStatus == On && r.isRegistrationOpen
  {
    BotStatusRow(id, On, true)
  }

  /** A field inserted with only its required columns starts out inactive, with no text or bucket. */
  function NewField(id: int, key: string, branchId: int, orderPlace: int): (f: Field)
    ensures f.id == id && f.key == key && f.branchId == branchId && f.orderPlace == orderPlace
    ensures f.status == FieldStatus.Inactive
    ensures f.questionMarkdown.None? && f.answerOptions.None? && f.documentBucket.None?
  {
    Field(id, key, FieldStatus.Inactive, branchId, orderPlace, None, None, None)
  }

  /** A user inserted as the start handler does: inactive and not having banned the bot. */
  function NewUser(id: int, chatId: int, username: Option<string>, currFieldId: Option<int>): (u: User)
    ensures u.id == id && u.chatId == chatId && u.username == username && u.currFieldId == currFieldId
    ensures u.status == UserStatus.Inactive && !u.haveBannedBot
  {
    User(id, chatId, username, UserStatus.Inactive, false, currFieldId)
  }

  /** A keyboard key inserted with only its required columns is inactive and has no photo. */
  function NewKeyboardKey(id: int, key: string, textMarkdown: string): (k: KeyboardKey)
    ensures k.id == id && k.key == key && k.textMarkdown == textMarkdown
    ensures k.status == KeyboardKeyStatus.Inactive && k.photoLink.None?
  {
    KeyboardKey(id, key, KeyboardKeyStatus.Inactive, textMarkdown, None)
  }

  /** `fields.id` is the primary key. */
  ghost predicate FieldIdsUnique(fields: seq<Field>) {
    forall i, j :: 0 <= i < |fields| && 0 <= j < |fields| && fields[i].id == fields[j].id ==> i == j
  }

  /** `fields.key` carries a unique index. */
  ghost predicate FieldKeysUnique(fields: seq<Field>) {
    forall i, j :: 0 <= i < |fields| && 0 <= j < |fields| && fields[i].key == fields[j].key ==> i == j
  }

  ghost predicate CatalogWf(c: Catalog) {
    FieldIdsUnique(c.fields) && FieldKeysUnique(c.fields)
  }

  /** The field with primary key `id`, if there is one. */
  function FieldById(fields: seq<Field>, id: int): (r: Option<Field>)
    ensures r.Some? ==> r.value in fields && r.value.id == id
    ensures r.None? ==> forall f :: f in fields ==> f.id != id
  {
    if fields == [] then None
    else if fields[0].id == id then Some(fields[0])
    else FieldById(fields[1..], id)
  }

  /** The field whose key is `key`, if there is one. */
  function FieldByKey(fields: seq<Field>, key: string): (r: Option<Field>)
    ensures r.Some? ==> r.value in fields && r.value.key == key
    ensures r.None? ==> forall f :: f in fields ==> f.key != key
  {
    if fields == [] then None
    else if fields[0].key == key then Some(fields[0])
    else FieldByKey(fields[1..], key)
  }

  /** With the primary key in place, looking a field up by its own id finds that field. */
  lemma {:induction false} FieldByIdFinds(fields: seq<Field>, f: Field)
    requires FieldIdsUnique(fields) && f in fields
    ensures FieldById(fields, f.id) == Some(f)
  {
    var i :| 0 <= i < |fields| && fields[i] == f;
    var g := FieldById(fields, f.id).value;
    var j :| 0 <= j < |fields| && fields[j] == g;
  }

  /** With the unique index on keys, at most one field has a given key, and lookup finds it. */
  lemma {:induction false} FieldByKeyFinds(fields: seq<Field>, f: Field)
    requires FieldKeysUnique(fields) && f in fields
    ensures FieldByKey(fields, f.key) == Some(f)
    ensures forall g :: g in fields && g.key == f.key ==> g == f
  {
    var i :| 0 <= i < |fields| && fields[i] == f;
    var g := FieldByKey(fields, f.key).value;
    var j :| 0 <= j < |fields| && fields[j] == g;
    forall h | h in fields && h.key == f.key ensures h == f {
      var k :| 0 <= k < |fields| && fields[k] == h;
    }
  }

  /** `users.curr_field_id` is nullable and, when set, a foreign key into `fields`. */
  ghost predicate UserRefsOk(fields: seq<Field>, u: User) {
    u.currFieldId.Some? ==> exists f :: f in fields && f.id == u.currFieldId.value
  }

  /** `user_field_values.user_id` and `.field_id` are non-null foreign keys. */
  ghost predicate ValueRefsOk(fields: seq<Field>, userIds: set<int>, v: UserFieldValue) {
    v.userId in userIds && exists f :: f in fields && f.id == v.fieldId
  }
}
