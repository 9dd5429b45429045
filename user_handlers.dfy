/**
 * The per-user registration state machine of src/bot/user_handlers.py. A Store
 * holds the user table (keyed by chat id, which the schema keeps unique) and the
 * table of recorded answers; the question catalog is read-only. Each handler is
 * one atomic step on the store, and returns the replies it sends instead of
 * sending them.
 */
module UserHandlers {
  import opened Wrappers
  import opened CustomTypes
  import opened DbModel
  import opened Fields

  /** The keyboard attached to a reply; its contents are built by helpers outside this model. */
  datatype Markup =
    | NoMarkup
    | AnswerOptionsKeyboard(options: Option<string>)  // from a field's answer options
    | UserKeyboard(userId: int)                       // the user's navigation keyboard

  /** The text of a reply: a literal, a question text, or a template filled with one argument. */
  datatype Body =
    | Text(text: string)
    | Question(question: Option<string>)
    | Filled(template: string, arg: Option<string>)

  datatype Message =
    | Markdown(body: Body, markup: Markup)
    | Photo(link: string, caption: Option<string>, markup: Markup)

  /** Telegram's limit on the length of a photo caption. */
  const CaptionLimit := 1024

  /** A recognised command in a message entity. */
  datatype Command = Help | Start

  predicate EndsWith(s: string, suffix: string) {
    |suffix| <= |s| && s[|s| - |suffix|..] == suffix
  }

  /** An entity ending in the help command is help; otherwise one ending in the start command is start. */
  function CommandOf(entity: string, helpCommand: string, startCommand: string): (r: Option<Command>)
    ensures r == Some(Help) <==> EndsWith(entity, helpCommand)
    ensures r == Some(Start) <==> !EndsWith(entity, helpCommand) && EndsWith(entity, startCommand)
  {
    if EndsWith(entity, helpCommand) then Some(Help)
    else if EndsWith(entity, startCommand) then Some(Start)
    else None
  }

  /** The command of the first entity that carries one: the one the handler answers. */
  function FirstCommand(entities: seq<string>, helpCommand: string, startCommand: string): (r: Option<Command>)
    ensures r.None? <==> forall i :: 0 <= i < |entities| ==> CommandOf(entities[i], helpCommand, startCommand).None?
    ensures r.Some? ==> exists i :: 0 <= i < |entities| && CommandOf(entities[i], helpCommand, startCommand) == r
                                    && forall j :: 0 <= j < i ==> CommandOf(entities[j], helpCommand, startCommand).None?
  {
    if entities == [] then None
    else match CommandOf(entities[0], helpCommand, startCommand)
      case Some(c) => Some(c)
      case None =>
        var r := FirstCommand(entities[1..], helpCommand, startCommand);
        assert r.Some? ==> exists i :: 0 <= i < |entities[1..]| && CommandOf(entities[1..][i], helpCommand, startCommand) == r
                                       && forall j :: 0 <= j < i ==> CommandOf(entities[1..][j], helpCommand, startCommand).None?;
        r
  }

  /** The reply to `/help` or `/start` from a known user, with or without a pending question. */
  function CommandAnswer(settings: Settings, u: User, curr: Option<Field>, c: Command): (r: Message)
    ensures r.Markdown? && r.body.Filled?
    ensures r.body.template == (if c == Help then settings.helpUserTemplate else settings.restartUserTemplate)
    ensures curr.Some? ==> r.body.arg == curr.value.questionMarkdown && r.markup == AnswerOptionsKeyboard(curr.value.answerOptions)
    ensures curr.None? ==> r.body.arg == Some(settings.helpRestartOnRegistrationComplete) && r.markup == UserKeyboard(u.id)
  {
    var template := if c == Help then settings.helpUserTemplate else settings.restartUserTemplate;
    match curr
    case Some(f) => Markdown(Filled(template, f.questionMarkdown), AnswerOptionsKeyboard(f.answerOptions))
    case None => Markdown(Filled(template, Some(settings.helpRestartOnRegistrationComplete)), UserKeyboard(u.id))
  }

  /**
   * Python truthiness of `document_bucket`: the field expects an attachment
   * exactly when the bucket is set and non-empty.
   */
  predicate ExpectsAttachment(f: Field)
    ensures ExpectsAttachment(f) <==> f.documentBucket !in {None, Some("")}
  {
    f.documentBucket.Some? && f.documentBucket.value != ""
  }

  /** `photo_link not in [None, '']`. */
  predicate HasPhoto(k: KeyboardKey)
    ensures HasPhoto(k) <==> k.photoLink !in {None, Some("")}
  {
    k.photoLink.Some? && k.photoLink.value != ""
  }

  /**
   * The reply to a keyboard key: its text alone when it has no photo, the photo
   * captioned with the text when the text fits a caption, else the photo and then the text.
   */
  function KeyboardKeyReply(k: KeyboardKey, userId: int): (r: seq<Message>)
    ensures 1 <= |r| <= 2
    ensures forall m :: m in r && m.Photo? ==> HasPhoto(k) && m.link == k.photoLink.value
    ensures HasPhoto(k) <==> r[0].Photo?
    ensures forall m :: m in r && m.Photo? && m.caption.Some? ==> |m.caption.value| <= CaptionLimit
    ensures |k.textMarkdown| <= CaptionLimit || !HasPhoto(k) <==> |r| == 1
    ensures |r| == 2 ==> r[0] == Photo(k.photoLink.value, None, NoMarkup)
    ensures r[|r| - 1] == (if |r| == 1 && HasPhoto(k) then Photo(k.photoLink.value, Some(k.textMarkdown), UserKeyboard(userId))
                           else Markdown(Text(k.textMarkdown), UserKeyboard(userId)))
  {
    if !HasPhoto(k) then [Markdown(Text(k.textMarkdown), UserKeyboard(userId))]
    else if |k.textMarkdown| <= CaptionLimit then [Photo(k.photoLink.value, Some(k.textMarkdown), UserKeyboard(userId))]
    else [Photo(k.photoLink.value, None, NoMarkup), Markdown(Text(k.textMarkdown), UserKeyboard(userId))]
  }

  /** Answering `curr` when the next question is `next` marks the user active. */
  predicate LeavesMain(curr: Field, next: Option<Field>)
    ensures next.Some? ==> (LeavesMain(curr, next) <==> curr.status == FieldStatus.Main && next.value.status != FieldStatus.Main)
    ensures next.None? ==> (LeavesMain(curr, next) <==> curr.status == FieldStatus.Main)
  {
    curr.status == FieldStatus.Main && (next.None? || next.value.status != FieldStatus.Main)
  }

  /**
   * The user row after an accepted answer to `curr`: the pending question becomes
   * `next` (or none), and the status becomes active when the answer leaves a main field.
   */
  function Advance(u: User, curr: Field, next: Option<Field>): (r: User)
    ensures r.id == u.id && r.chatId == u.chatId && r.username == u.username && r.haveBannedBot == u.haveBannedBot
    ensures r.currFieldId == (if next.Some? then Some(next.value.id) else None)
    ensures r.status == Active <==> u.status == Active || LeavesMain(curr, next)
    ensures UserStatusRank(u.status) <= UserStatusRank(r.status)
  {
    var status := if LeavesMain(curr, next) then Active else u.status;
    u.(currFieldId := if next.Some? then Some(next.value.id) else None, status := status)
  }

  /** The user after answering `curr` and then, in turn, every question of `path`. */
  function AnswerAll(u: User, curr: Field, path: seq<Field>): User
    decreases |path|
  {
    if path == [] then Advance(u, curr, None)
    else AnswerAll(Advance(u, curr, Some(path[0])), path[0], path[1..])
  }

  /**
   * Answering every question to the end of a branch leaves no pending question,
   * and the user is active afterwards exactly when it was already active or one of
   * the answered questions was a main one.
   */
  lemma {:induction false} AnswerAllOutcome(u: User, curr: Field, path: seq<Field>)
    ensures AnswerAll(u, curr, path).currFieldId.None?
    ensures AnswerAll(u, curr, path).id == u.id
    ensures AnswerAll(u, curr, path).status == Active <==>
            u.status == Active || curr.status == FieldStatus.Main || exists f :: f in path && f.status == FieldStatus.Main
    decreases |path|
  {
    if path != [] {
      var u' := Advance(u, curr, Some(path[0]));
      AnswerAllOutcome(u', path[0], path[1..]);
      assert forall f :: f in path <==> f == path[0] || f in path[1..];
    }
  }

  /** Completing the registration walk from any question ends with no pending question. */
  lemma CompletingWalk(fields: seq<Field>, u: User, curr: Field)
    ensures var done := AnswerAll(u, curr, Walk(fields, curr));
            done.currFieldId.None? &&
            (done.status == Active <==>
             u.status == Active || curr.status == FieldStatus.Main ||
             exists f :: f in Walk(fields, curr) && f.status == FieldStatus.Main)
  {
    AnswerAllOutcome(u, curr, Walk(fields, curr));
  }

  /** The reply to an accepted answer: the next question, or the completion message. */
  function AdvanceReply(settings: Settings, u: User, next: Option<Field>): (r: Message)
    ensures r.Markdown?
    ensures next.Some? ==> r.body == Question(next.value.questionMarkdown) && r.markup == AnswerOptionsKeyboard(next.value.answerOptions)
    ensures next.None? ==> r.body == Text(settings.registrationComplete) && r.markup == UserKeyboard(u.id)
  {
    match next
    case Some(n) => Markdown(Question(n.questionMarkdown), AnswerOptionsKeyboard(n.answerOptions))
    case None => Markdown(Text(settings.registrationComplete), UserKeyboard(u.id))
  }

  /** Python's f-string rendering of an optional value. */
  function Format(s: Option<string>): (r: string)
    ensures s.Some? ==> r == s.value
    ensures r == "None" <==> s.None? || s.value == "None"
  {
    if s.None? then "None" else s.value
  }

  /** The stored value of an uploaded document: `"{filename}.{extension}"`. */
  function DocumentValue(filename: Option<string>, extension: Option<string>): (r: string)
    ensures |r| == |Format(filename)| + 1 + |Format(extension)|
    ensures r[..|Format(filename)|] == Format(filename) && r[|Format(filename)|] == '.'
    ensures r[|Format(filename)| + 1..] == Format(extension)
  {
    Format(filename) + "." + Format(extension)
  }

  /** Index of the last '.' in `s`, if any. */
  function LastDot(s: string): (r: Option<nat>)
    ensures r.Some? ==> r.value < |s| && s[r.value] == '.' && forall j :: r.value < j < |s| ==> s[j] != '.'
    ensures r.None? ==> forall j :: 0 <= j < |s| ==> s[j] != '.'
  {
    if s == [] then None
    else if s[|s| - 1] == '.' then Some(|s| - 1)
    else LastDot(s[..|s| - 1])
  }

  /** Split a file name at its last '.' into stem and extension. */
  function SplitExtension(s: string): (string, string) {
    match LastDot(s)
    case None => (s, "")
    case Some(i) => (s[..i], s[i + 1..])
  }

  /** A stored document name splits back into the name-field value and the extension. */
  lemma DocumentValueSplits(filename: Option<string>, extension: Option<string>)
    requires forall j :: 0 <= j < |Format(extension)| ==> Format(extension)[j] != '.'
    ensures SplitExtension(DocumentValue(filename, extension)) == (Format(filename), Format(extension))
  {
    var s := DocumentValue(filename, extension);
    var i := |Format(filename)|;
    assert s[i] == '.';
    assert forall j :: i < j < |s| ==> s[j] == Format(extension)[j - i - 1];
    assert LastDot(s) == Some(i);
    assert s[..i] == Format(filename);
    assert s[i + 1..] == Format(extension);
  }

  /** The ids of the users of a user table. */
  ghost function IdsOf(m: map<int, User>): set<int> {
    set c | c in m :: m[c].id
  }

  /** Replacing a user by one with the same id keeps the set of ids. */
  lemma IdsOfUpdate(m: map<int, User>, chat: int, u: User)
    requires chat in m && m[chat].id == u.id
    ensures IdsOf(m[chat := u]) == IdsOf(m)
  {
    var m' := m[chat := u];
    forall x | x in IdsOf(m) ensures x in IdsOf(m') {
      var c :| c in m && m[c].id == x;
      assert m'[c].id == x;
    }
    forall x | x in IdsOf(m') ensures x in IdsOf(m) {
      var c :| c in m' && m'[c].id == x;
      assert m[c].id == x;
    }
  }

  /** Adding a user adds its id. */
  lemma IdsOfInsert(m: map<int, User>, chat: int, u: User)
    requires chat !in m
    ensures IdsOf(m[chat := u]) == IdsOf(m) + {u.id}
  {
    var m' := m[chat := u];
    assert m'[chat].id == u.id;
    forall x | x in IdsOf(m) ensures x in IdsOf(m') {
      var c :| c in m && m[c].id == x;
      assert m'[c].id == x;
    }
    forall x | x in IdsOf(m') ensures x in IdsOf(m) + {u.id} {
      var c :| c in m' && m'[c].id == x;
      if c != chat { assert m[c].id == x; }
    }
  }

  class Store {
    const catalog: Catalog
    var users: map<int, User>
    var values: seq<UserFieldValue>
    var nextUserId: int
    var nextValueId: int

    /** Ids of the users in the table. */
    ghost function UserIds(): set<int>
      reads this
    {
      IdsOf(users)
    }

    /** The schema's keys and references, and the counters ahead of every id in use. */
    ghost predicate Valid()
      reads this
    {
      && CatalogWf(catalog)
      && (forall c :: c in users ==> users[c].chatId == c && users[c].id < nextUserId && UserRefsOk(catalog.fields, users[c]))
      && (forall c, d :: c in users && d in users && users[c].id == users[d].id ==> c == d)
      && (forall v :: v in values ==> v.id < nextValueId && ValueRefsOk(catalog.fields, UserIds(), v))
      && (forall i, j :: 0 <= i < j < |values| ==> values[i].id < values[j].id)
    }

    /** An empty store over a fixed catalog. */
    constructor (c: Catalog)
      requires CatalogWf(c)
      ensures Valid() && catalog == c && users == map[] && values == []
      ensures nextUserId == 1 && nextValueId == 1
    {
      catalog := c;
      users := map[];
      values := [];
      nextUserId := 1;
      nextValueId := 1;
    }

    /** The pending question of a user, resolved through the field table. */
    function PendingField(u: User): (r: Option<Field>)
      ensures r.Some? ==> r.value in catalog.fields && u.currFieldId == Some(r.value.id)
      ensures r.None? <==> u.currFieldId.None? || forall f :: f in catalog.fields ==> f.id != u.currFieldId.value
    {
      if u.currFieldId.None? then None else FieldById(catalog.fields, u.currFieldId.value)
    }

    /**
     * `/start` or `/help`. A new user is refused while registration is closed, and
     * otherwise created on the first question of the start branch; an existing user
     * only gets an answer.
     */
    method StartHelp(settings: Settings, registrationOpen: bool, chatId: int, username: Option<string>,
                     entities: seq<string>, helpCommand: string, startCommand: string)
      returns (r: Result<seq<Message>, QueryError>)
      requires Valid()
      modifies this
      ensures Valid()
      ensures values == old(values) && nextValueId == old(nextValueId)
      ensures chatId in old(users) ==>
                && unchanged(this)
                && var u := users[chatId];
                   r == Success(match FirstCommand(entities, helpCommand, startCommand)
                                case None => []
                                case Some(c) => [CommandAnswer(settings, u, PendingField(u), c)])
      ensures chatId !in old(users) && !registrationOpen ==>
                unchanged(this) && r == Success([Markdown(Text(settings.registrationIsOver), NoMarkup)])
      ensures chatId !in old(users) && registrationOpen ==>
                match FirstFieldQuestion(catalog, settings.firstFieldBranch)
                case Failure(e) => unchanged(this) && r == Failure(e)
                case Success(first) =>
                  && users == old(users)[chatId := NewUser(old(nextUserId), chatId, username, Some(first.id))]
                  && nextUserId == old(nextUserId) + 1
                  && r == Success([Markdown(Filled(settings.startTemplate, first.questionMarkdown), NoMarkup)])
    {
      if chatId !in users && !registrationOpen {
        return Success([Markdown(Text(settings.registrationIsOver), NoMarkup)]);
      }
      if chatId !in users {
        var first := FirstFieldQuestion(catalog, settings.firstFieldBranch);
        if first.Failure? {
          return Failure(first.error);
        }
        var f := first.value;
        var u := NewUser(nextUserId, chatId, username, Some(f.id));
        IdsOfInsert(users, chatId, u);
        users := users[chatId := u];
        nextUserId := nextUserId + 1;
        return Success([Markdown(Filled(settings.startTemplate, f.questionMarkdown), NoMarkup)]);
      }
      var u := users[chatId];
      var replies := CommandReply(settings, u, PendingField(u), entities, helpCommand, startCommand);
      return Success(replies);
    }

    /** The answer to the first entity carrying `/help` or `/start`; none if no entity does. */
    method CommandReply(settings: Settings, u: User, curr: Option<Field>, entities: seq<string>,
                        helpCommand: string, startCommand: string)
      returns (replies: seq<Message>)
      ensures replies == match FirstCommand(entities, helpCommand, startCommand)
                         case None => []
                         case Some(c) => [CommandAnswer(settings, u, curr, c)]
    {
      var i := 0;
      while i < |entities|
        invariant 0 <= i <= |entities|
        invariant forall j :: 0 <= j < i ==> CommandOf(entities[j], helpCommand, startCommand).None?
      {
        var c := CommandOf(entities[i], helpCommand, startCommand);
        if c.Some? {
          FirstCommandAt(entities, helpCommand, startCommand, i);
          return [CommandAnswer(settings, u, curr, c.value)];
        }
        i := i + 1;
      }
      return [];
    }

    /** The first entity carrying a command decides the command. */
    static lemma FirstCommandAt(entities: seq<string>, helpCommand: string, startCommand: string, i: nat)
      requires i < |entities| && CommandOf(entities[i], helpCommand, startCommand).Some?
      requires forall j :: 0 <= j < i ==> CommandOf(entities[j], helpCommand, startCommand).None?
      ensures FirstCommand(entities, helpCommand, startCommand) == CommandOf(entities[i], helpCommand, startCommand)
    {
      var r := FirstCommand(entities, helpCommand, startCommand);
      var k :| 0 <= k < |entities| && CommandOf(entities[k], helpCommand, startCommand) == r
               && forall j :: 0 <= j < k ==> CommandOf(entities[j], helpCommand, startCommand).None?;
    }

    /**
     * Record an accepted answer `value` to `curr` for the user of `chatId`: move the
     * user to the next question of the branch (or none), and insert exactly one answer row.
     */
    method Accept(settings: Settings, chatId: int, curr: Field, value: string) returns (replies: seq<Message>)
      requires Valid() && chatId in users && curr in catalog.fields
      modifies this
      ensures Valid()
      ensures var u := old(users)[chatId];
              var next := NextFieldInBranch(catalog.fields, curr);
              && users == old(users)[chatId := Advance(u, curr, next)]
              && values == old(values) + [UserFieldValue(old(nextValueId), u.id, curr.id, value)]
              && nextValueId == old(nextValueId) + 1
              && nextUserId == old(nextUserId)
              && replies == [AdvanceReply(settings, u, next)]
    {
      var u := users[chatId];
      var next := NextFieldInBranch(catalog.fields, curr);
      replies := [AdvanceReply(settings, u, next)];
      var u' := Advance(u, curr, next);
      IdsOfUpdate(users, chatId, u');
      users := users[chatId := u'];
      values := values + [UserFieldValue(nextValueId, u.id, curr.id, value)];
      nextValueId := nextValueId + 1;
    }

    /**
     * A text message. A pending text question takes the message (rendered with its
     * links) as the answer; a pending attachment question is asked again and nothing
     * is written; without a pending question a keyboard key, if the text names one, answers.
     */
    method HandleText(settings: Settings, chatId: int, renderedText: string, keyboardKey: Option<KeyboardKey>)
      returns (replies: seq<Message>)
      requires Valid()
      modifies this
      ensures Valid()
      ensures chatId !in old(users) ==>
                unchanged(this) && replies == [Markdown(Text(settings.strangeUserError), NoMarkup)]
      ensures chatId in old(users) ==>
                var u := old(users)[chatId];
                match PendingField(u)
                case None =>
                  && unchanged(this)
                  && replies == (if keyboardKey.Some? then KeyboardKeyReply(keyboardKey.value, u.id) else [])
                case Some(curr) =>
                  if ExpectsAttachment(curr) then
                    unchanged(this) && replies == [Markdown(Question(curr.questionMarkdown), NoMarkup)]
                  else
                    var next := NextFieldInBranch(catalog.fields, curr);
                    && users == old(users)[chatId := Advance(u, curr, next)]
                    && values == old(values) + [UserFieldValue(old(nextValueId), u.id, curr.id, renderedText)]
                    && nextValueId == old(nextValueId) + 1
                    && nextUserId == old(nextUserId)
                    && replies == [AdvanceReply(settings, u, next)]
      ensures forall c :: c in old(users) ==> c in users && UserStatusRank(old(users)[c].status) <= UserStatusRank(users[c].status)
    {
      if chatId !in users {
        return [Markdown(Text(settings.strangeUserError), NoMarkup)];
      }
      var u := users[chatId];
      var curr := PendingField(u);
      if curr.Some? {
        if ExpectsAttachment(curr.value) {
          return [Markdown(Question(curr.value.questionMarkdown), NoMarkup)];
        }
        replies := Accept(settings, chatId, curr.value, renderedText);
        return;
      }
      if keyboardKey.Some? {
        return KeyboardKeyReply(keyboardKey.value, u.id);
      }
      return [];
    }

    /**
     * A photo or document. A pending attachment question takes it; the stored value
     * is the user's answer under the document-name field, a dot and the sniffed
     * extension. A pending text question is asked again and nothing is written.
     */
    method HandlePhotoDocument(settings: Settings, chatId: int, extension: Option<string>)
      returns (replies: seq<Message>)
      requires Valid()
      modifies this
      ensures Valid()
      ensures chatId !in old(users) ==>
                unchanged(this) && replies == [Markdown(Text(settings.strangeUserError), NoMarkup)]
      ensures chatId in old(users) ==>
                var u := old(users)[chatId];
                match PendingField(u)
                case None => unchanged(this) && replies == []
                case Some(curr) =>
                  if !ExpectsAttachment(curr) then
                    unchanged(this) && replies == [Markdown(Question(curr.questionMarkdown), NoMarkup)]
                  else
                    var next := NextFieldInBranch(catalog.fields, curr);
                    var filename := UserFieldValueByKey(catalog.fields, old(values), u.id, settings.userDocumentNameField);
                    && users == old(users)[chatId := Advance(u, curr, next)]
                    && values == old(values) + [UserFieldValue(old(nextValueId), u.id, curr.id, DocumentValue(filename, extension))]
                    && nextValueId == old(nextValueId) + 1
                    && nextUserId == old(nextUserId)
                    && replies == [AdvanceReply(settings, u, next)]
      ensures forall c :: c in old(users) ==> c in users && UserStatusRank(old(users)[c].status) <= UserStatusRank(users[c].status)
    {
      if chatId !in users {
        return [Markdown(Text(settings.strangeUserError), NoMarkup)];
      }
      var u := users[chatId];
      var curr := PendingField(u);
      if curr.None? {
        return [];
      }
      if !ExpectsAttachment(curr.value) {
        return [Markdown(Question(curr.value.questionMarkdown), NoMarkup)];
      }
      var filename := UserFieldValueByKey(catalog.fields, values, u.id, settings.userDocumentNameField);
      replies := Accept(settings, chatId, curr.value, DocumentValue(filename, extension));
    }

    /** Record whether the user of `chatId` has blocked the bot; no such user, no change. */
    method SetHaveBannedBot(chatId: int, haveBannedBot: bool)
      requires Valid()
      modifies this
      ensures Valid()
      ensures values == old(values) && nextUserId == old(nextUserId) && nextValueId == old(nextValueId)
      ensures chatId in old(users) ==> users == old(users)[chatId := old(users)[chatId].(haveBannedBot := haveBannedBot)]
      ensures chatId !in old(users) ==> users == old(users)
    {
      if chatId in users {
        var u := users[chatId].(haveBannedBot := haveBannedBot);
        IdsOfUpdate(users, chatId, u);
        users := users[chatId := u];
      }
    }

    /** Delivery failed because the user blocked the bot. */
    method UserBannedBot(chatId: int)
      requires Valid()
      modifies this
      ensures Valid()
      ensures values == old(values) && nextUserId == old(nextUserId) && nextValueId == old(nextValueId)
      ensures chatId in old(users) ==> users == old(users)[chatId := old(users)[chatId].(haveBannedBot := true)]
      ensures chatId !in old(users) ==> users == old(users)
    {
      SetHaveBannedBot(chatId, true);
    }

    /** The user unblocked the bot. */
    method UserUnbannedBot(chatId: int)
      requires Valid()
      modifies this
      ensures Valid()
      ensures values == old(values) && nextUserId == old(nextUserId) && nextValueId == old(nextValueId)
      ensures chatId in old(users) ==> users == old(users)[chatId := old(users)[chatId].(haveBannedBot := false)]
      ensures chatId !in old(users) ==> users == old(users)
    {
      SetHaveBannedBot(chatId, false);
    }
  }
}
