/**
 * The closed status domains of src/utils/custom_types.py, each with the string
 * string value the enum gives it and the parser back from that string.
 */
module CustomTypes {
  import opened Wrappers

  /** Run mode of the bot process. */
  datatype BotStatus = On | Off | Service | Restart | Restarting

  /** Registration status of a user. */
  datatype UserStatus = Inactive | Active

  /**
   * Status of a question. The Python enum declares only INACTIVE and NORMAL,
   * while the handlers compare against MAIN; the model follows the handlers.
   */
  datatype FieldStatus = Inactive | Normal | Main

  /** Status of a reply-keyboard key. */
  datatype KeyboardKeyStatus = Inactive | Normal | Deferred | Me

  /** The enum's string value of the status. */
  function BotStatusValue(s: BotStatus): string {
    match s
    case On => "on"
    case Off => "off"
    case Service => "service"
    case Restart => "restart"
    case Restarting => "restarting"
  }

  function ParseBotStatus(v: string): (r: Option<BotStatus>)
    ensures r.Some? ==> BotStatusValue(r.value) == v
    ensures r.None? ==> forall s :: BotStatusValue(s) != v
  {
    if v == "on" then Some(On)
    else if v == "off" then Some(Off)
    else if v == "service" then Some(Service)
    else if v == "restart" then Some(Restart)
    else if v == "restarting" then Some(Restarting)
    else None
  }

  /** The enum's string value of the status. */
  function UserStatusValue(s: UserStatus): string {
    match s
    case Inactive => "inactive"
    case Active => "active"
  }

  function ParseUserStatus(v: string): (r: Option<UserStatus>)
    ensures r.Some? ==> UserStatusValue(r.value) == v
    ensures r.None? ==> forall s :: UserStatusValue(s) != v
  {
    if v == "inactive" then Some(UserStatus.Inactive)
    else if v == "active" then Some(Active)
    else None
  }

  /** The enum's string value of the status. */
  function FieldStatusValue(s: FieldStatus): string {
    match s
    case Inactive => "inactive"
    case Normal => "normal"
    case Main => "main"
  }

  function ParseFieldStatus(v: string): (r: Option<FieldStatus>)
    ensures r.Some? ==> FieldStatusValue(r.value) == v
    ensures r.None? ==> forall s :: FieldStatusValue(s) != v
  {
    if v == "inactive" then Some(FieldStatus.Inactive)
    else if v == "normal" then Some(FieldStatus.Normal)
    else if v == "main" then Some(Main)
    else None
  }

  /** The enum's string value of the status. */
  function KeyboardKeyStatusValue(s: KeyboardKeyStatus): string {
    match s
    case Inactive => "inactive"
    case Normal => "normal"
    case Deferred => "deferred"
    case Me => "me"
  }

  function ParseKeyboardKeyStatus(v: string): (r: Option<KeyboardKeyStatus>)
    ensures r.Some? ==> KeyboardKeyStatusValue(r.value) == v
    ensures r.None? ==> forall s :: KeyboardKeyStatusValue(s) != v
  {
    if v == "inactive" then Some(KeyboardKeyStatus.Inactive)
    else if v == "normal" then Some(KeyboardKeyStatus.Normal)
    else if v == "deferred" then Some(Deferred)
    else if v == "me" then Some(Me)
    else None
  }

  /** Taking a status's value and parsing it back yields the same status, for every domain. */
  lemma StatusValuesRoundTrip(b: BotStatus, u: UserStatus, f: FieldStatus, k: KeyboardKeyStatus)
    ensures ParseBotStatus(BotStatusValue(b)) == Some(b)
    ensures ParseUserStatus(UserStatusValue(u)) == Some(u)
    ensures ParseFieldStatus(FieldStatusValue(f)) == Some(f)
    ensures ParseKeyboardKeyStatus(KeyboardKeyStatusValue(k)) == Some(k)
  {
  }

  /** The string values are pairwise distinct within each domain. */
  lemma StatusValuesDistinct()
    ensures forall a, b :: BotStatusValue(a) == BotStatusValue(b) ==> a == b
    ensures forall a, b :: UserStatusValue(a) == UserStatusValue(b) ==> a == b
    ensures forall a, b :: FieldStatusValue(a) == FieldStatusValue(b) ==> a == b
    ensures forall a, b :: KeyboardKeyStatusValue(a) == KeyboardKeyStatusValue(b) ==> a == b
  {
    forall a, b | BotStatusValue(a) == BotStatusValue(b) ensures a == b {
      StatusValuesRoundTrip(a, UserStatus.Inactive, FieldStatus.Inactive, KeyboardKeyStatus.Inactive);
      StatusValuesRoundTrip(b, UserStatus.Inactive, FieldStatus.Inactive, KeyboardKeyStatus.Inactive);
    }
    forall a, b | UserStatusValue(a) == UserStatusValue(b) ensures a == b {
      StatusValuesRoundTrip(On, a, FieldStatus.Inactive, KeyboardKeyStatus.Inactive);
      StatusValuesRoundTrip(On, b, FieldStatus.Inactive, KeyboardKeyStatus.Inactive);
    }
    forall a, b | FieldStatusValue(a) == FieldStatusValue(b) ensures a == b {
      StatusValuesRoundTrip(On, UserStatus.Inactive, a, KeyboardKeyStatus.Inactive);
      StatusValuesRoundTrip(On, UserStatus.Inactive, b, KeyboardKeyStatus.Inactive);
    }
    forall a, b | KeyboardKeyStatusValue(a) == KeyboardKeyStatusValue(b) ensures a == b {
      StatusValuesRoundTrip(On, UserStatus.Inactive, FieldStatus.Inactive, a);
      StatusValuesRoundTrip(On, UserStatus.Inactive, FieldStatus.Inactive, b);
    }
  }

  /** Rank of a user status; the handlers only ever move a user up this order. */
  function UserStatusRank(s: UserStatus): nat {
    if s == UserStatus.Inactive then 0 else 1
  }
}
