/**
 * A registration run on a small catalog, checked against the handler contracts
 * alone: a branch of A (main), B (main) and C (normal), answered in turn, with
 * one rejected answer of the wrong kind.
 */
module Scenarios {
  import opened Wrappers
  import opened CustomTypes
  import opened DbModel
  import opened Fields
  import opened UserHandlers
  import opened Router

  const A := Field(1, "a", FieldStatus.Main, 1, 1, Some("A?"), None, None)
  const B := Field(2, "b", FieldStatus.Main, 1, 2, Some("B?"), Some("yes;no"), Some("scans"))
  const C := Field(3, "c", FieldStatus.Normal, 1, 3, Some("C?"), None, None)
  const Cat := Catalog([FieldBranch(1, "main")], [A, B, C])
  /** The answer rows after A, and after B's upload. */
  const AfterA := [UserFieldValue(1, 1, 1, "alpha")]
  const AfterB := AfterA + [UserFieldValue(2, 1, 2, DocumentValue(Some("alpha"), Some("pdf")))]
  const Texts := Settings("closed", "start {template}", "main", "a", "done",
                          "restart {template}", "help {template}", "complete", "who are you")

  lemma CatalogWellFormed()
    ensures CatalogWf(Cat)
  {
  }

  lemma FirstIsA()
    ensures FirstFieldQuestion(Cat, "main") == Success(A)
  {
    assert InBranchWithKey(Cat.branches, "main", A);
    assert FirstFieldQuestion(Cat, "main").value in Cat.fields;
  }

  lemma NextFacts()
    ensures NextFieldInBranch(Cat.fields, A) == Some(B)
    ensures NextFieldInBranch(Cat.fields, B) == Some(C)
    ensures NextFieldInBranch(Cat.fields, C).None?
  {
    assert B in Cat.fields && FollowsInBranch(A, B);
    assert C in Cat.fields && FollowsInBranch(B, C);
  }

  lemma LookupFacts()
    ensures FieldById(Cat.fields, 1) == Some(A)
    ensures FieldById(Cat.fields, 2) == Some(B)
    ensures FieldById(Cat.fields, 3) == Some(C)
    ensures FieldIdHasKey(Cat.fields, 1, "a")
  {
    assert A in Cat.fields;
  }

  /** The stored name of B's upload. */
  lemma UploadName()
    ensures AfterB[1].value == "alpha.pdf"
  {
  }

  lemma RecordedName()
    ensures UserFieldValueByKey(Cat.fields, AfterA, 1, "a") == Some("alpha")
  {
    LookupFacts();
  }

  /** The store holds only the user of chat 100, at `pending` with `status`, and the answers `vals`. */
  ghost predicate Registered(store: Store, pending: Option<int>, status: UserStatus, vals: seq<UserFieldValue>)
    reads store
  {
    && store.Valid() && store.catalog == Cat
    && store.users == map[100 := User(1, 100, Some("ann"), status, false, pending)]
    && store.values == vals && store.nextValueId == |vals| + 1
  }

  /** `/start` from a new user places the user on A and records nothing. */
  method Join() returns (store: Store)
    ensures fresh(store) && Registered(store, Some(1), UserStatus.Inactive, [])
  {
    CatalogWellFormed();
    FirstIsA();
    store := new Store(Cat);
    var r := store.StartHelp(Texts, true, 100, Some("ann"), [], "/help", "/start");
    assert r == Success([Markdown(Filled("start {template}", Some("A?")), NoMarkup)]);
  }

  /** Answering A (main) moves to B (main): the user stays inactive. */
  method AnswerA(store: Store)
    requires Registered(store, Some(1), UserStatus.Inactive, [])
    modifies store
    ensures Registered(store, Some(2), UserStatus.Inactive, AfterA)
  {
    NextFacts();
    LookupFacts();
    var replies := store.HandleText(Texts, 100, "alpha", None);
    assert replies == [Markdown(Question(Some("B?")), AnswerOptionsKeyboard(Some("yes;no")))];
  }

  /** B expects an attachment: a text answer re-asks B and writes nothing. */
  method TextForB(store: Store)
    requires Registered(store, Some(2), UserStatus.Inactive, AfterA)
    modifies store
    ensures Registered(store, Some(2), UserStatus.Inactive, AfterA)
  {
    LookupFacts();
    var replies := store.HandleText(Texts, 100, "no file", None);
    assert replies == [Markdown(Question(Some("B?")), NoMarkup)];
  }

  /**
   * The attachment for B is stored under the answer to A (the document-name
   * field); leaving main B for normal C activates the user.
   */
  method UploadB(store: Store)
    requires Registered(store, Some(2), UserStatus.Inactive, AfterA)
    modifies store
    ensures Registered(store, Some(3), Active, AfterB)
  {
    NextFacts();
    LookupFacts();
    RecordedName();
    assert store.PendingField(store.users[100]) == Some(B) && ExpectsAttachment(B);
    var replies := store.HandlePhotoDocument(Texts, 100, Some("pdf"));
  }

  /** Answering the last question C completes the branch. */
  method AnswerC(store: Store)
    requires Registered(store, Some(3), Active, AfterB)
    modifies store
    ensures Registered(store, None, Active,
                       AfterB + [UserFieldValue(3, 1, 3, "gamma")])
  {
    NextFacts();
    LookupFacts();
    var replies := store.HandleText(Texts, 100, "gamma", None);
    assert replies == [Markdown(Text("done"), UserKeyboard(1))];
  }

  method RegistrationRun() {
    var store := Join();
    AnswerA(store);
    TextForB(store);
    UploadB(store);
    AnswerC(store);
    assert store.users[100].currFieldId.None? && |store.values| == 3;
  }

  /**
   * The admin switch on a freshly inserted bot status row: turning the bot off and
   * closing registration each set one column, and an unknown action changes nothing.
   */
  method SwitchOff() returns (table: BotStatusTable)
    ensures table.rows == [BotStatusRow(1, Off, false)]
  {
    table := new BotStatusTable([NewBotStatusRow(1)]);
    table.SetBotStatus("turn_off");
    assert table.rows == [BotStatusRow(1, Off, true)];
    table.SetBotStatus("deactivate_registration");
    assert table.rows == [BotStatusRow(1, Off, false)];
    table.SetBotStatus("reboot");
  }
}
