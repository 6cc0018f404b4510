/** The catalogue: the indentation and newline constants every skeleton
    uses, the 39 event kinds with the name each one is rendered with, and the
    parameter-type signature each kind's wrapper renders. */
module LSLConst {
  import opened Outcomes

  /** One indentation unit: four spaces. */
  const TAB: string := "    "
  /** The line break. */
  const NL: string := "\n"

  /** The indentation unit is four spaces, and the line break is one
      newline character. */
  lemma IndentAndNewline()
    ensures |TAB| == 4 && forall i :: 0 <= i < |TAB| ==> TAB[i] == ' '
    ensures NL == ['\n']
  {
  }

  /** One constructor per event constant of the catalogue. */
  datatype EventKind =
    | Attach
    | AtRotTarget
    | AtTarget
    | Changed
    | Collision
    | CollisionEnd
    | CollisionStart
    | Control
    | Dataserver
    | Email
    | ExperiencePermissions
    | ExperiencePermissionsDenied
    | GameControl
    | HttpRequest
    | HttpResponse
    | LandCollision
    | LandCollisionEnd
    | LandCollisionStart
    | LinksetData
    | LinkMessage
    | Listen
    | Money
    | MovingEnd
    | MovingStart
    | NotAtRotTarget
    | NotAtTarget
    | NoSensor
    | ObjectRez
    | OnRez
    | PathUpdate
    | RunTimePermissions
    | Sensor
    | StateEntry
    | StateExit
    | Timer
    | Touch
    | TouchEnd
    | TouchStart
    | TransactionResult

  /** The seven types of LSL variable data. */
  datatype LslType = String | Key | Integer | Float | Vector | Rotation | List

  function TypeName(t: LslType): string {
    match t
    case String => "string"
    case Key => "key"
    case Integer => "integer"
    case Float => "float"
    case Vector => "vector"
    case Rotation => "rotation"
    case List => "list"
  }

  /** The kind at each position of the catalogue. */
  function KindAt(i: nat): EventKind {
    match i
    case 0 => Attach
    case 1 => AtRotTarget
    case 2 => AtTarget
    case 3 => Changed
    case 4 => Collision
    case 5 => CollisionEnd
    case 6 => CollisionStart
    case 7 => Control
    case 8 => Dataserver
    case 9 => Email
    case 10 => ExperiencePermissions
    case 11 => ExperiencePermissionsDenied
    case 12 => GameControl
    case 13 => HttpRequest
    case 14 => HttpResponse
    case 15 => LandCollision
    case 16 => LandCollisionEnd
    case 17 => LandCollisionStart
    case 18 => LinksetData
    case 19 => LinkMessage
    case 20 => Listen
    case 21 => Money
    case 22 => MovingEnd
    case 23 => MovingStart
    case 24 => NotAtRotTarget
    case 25 => NotAtTarget
    case 26 => NoSensor
    case 27 => ObjectRez
    case 28 => OnRez
    case 29 => PathUpdate
    case 30 => RunTimePermissions
    case 31 => Sensor
    case 32 => StateEntry
    case 33 => StateExit
    case 34 => Timer
    case 35 => Touch
    case 36 => TouchEnd
    case 37 => TouchStart
    case _ => TransactionResult
  }

  /** Every kind, in catalogue order. */
  function AllKinds(): seq<EventKind> {
    seq(39, i requires 0 <= i => KindAt(i))
  }

  /** The value of each constant: the event name the engine renders. */
  function EventName(k: EventKind): string {
    match k
    case Attach => "attach"
    case AtRotTarget => "at_rot_target"
    case AtTarget => "at_target"
    case Changed => "changed"
    case Collision => "collision"
    case CollisionEnd => "collision_end"
    case CollisionStart => "collision_start"
    case Control => "control"
    case Dataserver => "dataserver"
    case Email => "email"
    case ExperiencePermissions => "experience_permissions"
    case ExperiencePermissionsDenied => "experience_permissions_denied"
    case GameControl => "game_control"
    case HttpRequest => "http_request"
    case HttpResponse => "http_response"
    case LandCollision => "land_collision"
    case LandCollisionEnd => "land_collision_end"
    case LandCollisionStart => "land_collision_start"
    case LinksetData => "linkset_data"
    case LinkMessage => "link_message"
    case Listen => "listen"
    case Money => "money"
    case MovingEnd => "moving_end"
    case MovingStart => "moving_start"
    case NotAtRotTarget => "not_at_rot_target"
    case NotAtTarget => "not_at_target"
    case NoSensor => "no_sensor"
    case ObjectRez => "object_rez"
    case OnRez => "on_rez"
    case PathUpdate => "path_update"
    case RunTimePermissions => "run_time_permissions"
    case Sensor => "sensor"
    case StateEntry => "state_entry"
    case StateExit => "state_exit"
    case Timer => "timer"
    case Touch => "touch"
    case TouchEnd => "touch_end"
    case TouchStart => "touch_start"
    case TransactionResult => "transaction_result"
  }

  /** The parameter types of each kind's wrapper, in order. */
  function Signature(k: EventKind): seq<LslType> {
    match k
    case Attach => [Key]
    case AtRotTarget => [Integer, Rotation, Rotation]
    case AtTarget => [Integer, Vector, Vector]
    case Changed => [Integer]
    case Collision => [Integer]
    case CollisionEnd => [Integer]
    case CollisionStart => [Integer]
    case Control => [Key, Integer, Integer]
    case Dataserver => [Key, String]
    case Email => [String, String, String, String, Integer]
    case ExperiencePermissions => [Key]
    case ExperiencePermissionsDenied => [Key, Integer]
    case GameControl => [Key, Integer, Integer, List]
    case HttpRequest => [Key, String, String]
    case HttpResponse => [Key, Integer, List, String]
    case LandCollision => [Vector]
    case LandCollisionEnd => [Vector]
    case LandCollisionStart => [Vector]
    case LinksetData => [Integer, String, String]
    case LinkMessage => [Integer, Integer, String, Key]
    case Listen => [Integer, String, Key, String]
    case Money => [Key, Integer]
    case MovingEnd => []
    case MovingStart => []
    case NotAtRotTarget => []
    case NotAtTarget => []
    case NoSensor => []
    case ObjectRez => [Key]
    case OnRez => [Integer]
    case PathUpdate => [Integer, List]
    case RunTimePermissions => [Integer]
    case Sensor => [Integer]
    case StateEntry => []
    case StateExit => []
    case Timer => []
    case Touch => [Integer]
    case TouchEnd => [Integer]
    case TouchStart => [Integer]
    case TransactionResult => [Key, Integer, String]
  }

  /** The kind whose name is `s`, if any: the inverse of `EventName`. The
      names are told apart by length first. */
  function KindNamed(s: string): Option<EventKind>
  {
    if |s| == 5 then
      if s == "email" then Some(Email) else if s == "money" then Some(Money) else if s == "timer" then Some(Timer) else if s == "touch" then Some(Touch) else None
    else if |s| == 6 then
      if s == "attach" then Some(Attach) else if s == "listen" then Some(Listen) else if s == "on_rez" then Some(OnRez) else if s == "sensor" then Some(Sensor) else None
    else if |s| == 7 then
      if s == "changed" then Some(Changed) else if s == "control" then Some(Control) else None
    else if |s| == 9 then
      if s == "at_target" then Some(AtTarget) else if s == "collision" then Some(Collision) else if s == "no_sensor" then Some(NoSensor) else if s == "touch_end" then Some(TouchEnd) else None
    else if |s| == 10 then
      if s == "dataserver" then Some(Dataserver) else if s == "moving_end" then Some(MovingEnd) else if s == "object_rez" then Some(ObjectRez) else if s == "state_exit" then Some(StateExit) else None
    else if |s| == 11 then
      if s == "path_update" then Some(PathUpdate) else if s == "state_entry" then Some(StateEntry) else if s == "touch_start" then Some(TouchStart) else None
    else if |s| == 12 then
      if s == "game_control" then Some(GameControl) else if s == "http_request" then Some(HttpRequest) else if s == "linkset_data" then Some(LinksetData) else if s == "link_message" then Some(LinkMessage) else if s == "moving_start" then Some(MovingStart) else None
    else if |s| == 13 then
      if s == "at_rot_target" then Some(AtRotTarget) else if s == "collision_end" then Some(CollisionEnd) else if s == "http_response" then Some(HttpResponse) else if s == "not_at_target" then Some(NotAtTarget) else None
    else if |s| == 14 then
      if s == "land_collision" then Some(LandCollision) else None
    else if |s| == 15 then
      if s == "collision_start" then Some(CollisionStart) else None
    else if |s| == 17 then
      if s == "not_at_rot_target" then Some(NotAtRotTarget) else None
    else if |s| == 18 then
      if s == "land_collision_end" then Some(LandCollisionEnd) else if s == "transaction_result" then Some(TransactionResult) else None
    else if |s| == 20 then
      if s == "land_collision_start" then Some(LandCollisionStart) else if s == "run_time_permissions" then Some(RunTimePermissions) else None
    else if |s| == 22 then
      if s == "experience_permissions" then Some(ExperiencePermissions) else None
    else if |s| == 29 then
      if s == "experience_permissions_denied" then Some(ExperiencePermissionsDenied) else None
    else None
  }

  /** The index of each kind in `AllKinds`. */
  function Ordinal(k: EventKind): (i: nat)
    ensures i < 39 && KindAt(i) == k
  {
    match k
    case Attach => 0 case AtRotTarget => 1 case AtTarget => 2 case Changed => 3
    case Collision => 4 case CollisionEnd => 5 case CollisionStart => 6 case Control => 7
    case Dataserver => 8 case Email => 9 case ExperiencePermissions => 10
    case ExperiencePermissionsDenied => 11 case GameControl => 12 case HttpRequest => 13
    case HttpResponse => 14 case LandCollision => 15 case LandCollisionEnd => 16
    case LandCollisionStart => 17 case LinksetData => 18 case LinkMessage => 19
    case Listen => 20 case Money => 21 case MovingEnd => 22 case MovingStart => 23
    case NotAtRotTarget => 24 case NotAtTarget => 25 case NoSensor => 26 case ObjectRez => 27
    case OnRez => 28 case PathUpdate => 29 case RunTimePermissions => 30 case Sensor => 31
    case StateEntry => 32 case StateExit => 33 case Timer => 34 case Touch => 35
    case TouchEnd => 36 case TouchStart => 37 case TransactionResult => 38
  }

  /** The catalogue lists every kind. */
  lemma CatalogueComplete(k: EventKind)
    ensures k in AllKinds()
  {
    assert AllKinds()[Ordinal(k)] == KindAt(Ordinal(k));
  }

  /** Each position of the catalogue is the ordinal of the kind listed there. */
  lemma OrdinalOfEntry(i: nat)
    requires i < |AllKinds()|
    ensures Ordinal(AllKinds()[i]) == i
  {
    assert AllKinds()[i] == KindAt(i);
  }

  /** The catalogue lists exactly 39 kinds, each of them once. */
  lemma CatalogueHas39Kinds()
    ensures |AllKinds()| == 39
    ensures forall k :: k in AllKinds()
    ensures forall i, j :: 0 <= i < j < |AllKinds()| ==> AllKinds()[i] != AllKinds()[j]
  {
    forall k ensures k in AllKinds() {
      CatalogueComplete(k);
    }
    forall i, j | 0 <= i < j < |AllKinds()| ensures AllKinds()[i] != AllKinds()[j] {
      OrdinalOfEntry(i);
      OrdinalOfEntry(j);
    }
  }

  /** What the catalogue promises of one kind's name: looking it up gives the
      kind back, and it is a non-empty run of lower-case letters and
      underscores. */
  predicate NameFacts(k: EventKind) {
    && KindNamed(EventName(k)) == Some(k)
    && EventName(k) != ""
    && forall i :: 0 <= i < |EventName(k)| ==> IsNameChar(EventName(k)[i])
  }

  // The facts are checked a few kinds at a time, so that each proof stays small.
  lemma {:induction false} NameFactsGroup0(k: EventKind)
    requires k.Attach? || k.AtRotTarget?
    ensures NameFacts(k)
  {
    match k
    case Attach => assert EventName(k) == "attach";
    case AtRotTarget => assert EventName(k) == "at_rot_target";
  }

  lemma {:induction false} NameFactsGroup1(k: EventKind)
    requires k.AtTarget? || k.Changed?
    ensures NameFacts(k)
  {
    match k
    case AtTarget => assert EventName(k) == "at_target";
    case Changed => assert EventName(k) == "changed";
  }

  lemma {:induction false} NameFactsGroup2(k: EventKind)
    requires k.Collision? || k.CollisionEnd?
    ensures NameFacts(k)
  {
    match k
    case Collision => assert EventName(k) == "collision";
    case CollisionEnd => assert EventName(k) == "collision_end";
  }

  lemma {:induction false} NameFactsGroup3(k: EventKind)
    requires k.CollisionStart? || k.Control?
    ensures NameFacts(k)
  {
    match k
    case CollisionStart => assert EventName(k) == "collision_start";
    case Control => assert EventName(k) == "control";
  }

  lemma {:induction false} NameFactsGroup4(k: EventKind)
    requires k.Dataserver? || k.Email?
    ensures NameFacts(k)
  {
    match k
    case Dataserver => assert EventName(k) == "dataserver";
    case Email => assert EventName(k) == "email";
  }

  lemma {:induction false} NameFactsGroup5(k: EventKind)
    requires k.ExperiencePermissions? || k.ExperiencePermissionsDenied?
    ensures NameFacts(k)
  {
    match k
    case ExperiencePermissions => assert EventName(k) == "experience_permissions";
    case ExperiencePermissionsDenied => assert EventName(k) == "experience_permissions_denied";
  }

  lemma {:induction false} NameFactsGroup6(k: EventKind)
    requires k.GameControl? || k.HttpRequest?
    ensures NameFacts(k)
  {
    match k
    case GameControl => assert EventName(k) == "game_control";
    case HttpRequest => assert EventName(k) == "http_request";
  }

  lemma {:induction false} NameFactsGroup7(k: EventKind)
    requires k.HttpResponse? || k.LandCollision?
    ensures NameFacts(k)
  {
    match k
    case HttpResponse => assert EventName(k) == "http_response";
    case LandCollision => assert EventName(k) == "land_collision";
  }

  lemma {:induction false} NameFactsGroup8(k: EventKind)
    requires k.LandCollisionEnd? || k.LandCollisionStart?
    ensures NameFacts(k)
  {
    match k
    case LandCollisionEnd => assert EventName(k) == "land_collision_end";
    case LandCollisionStart => assert EventName(k) == "land_collision_start";
  }

  lemma {:induction false} NameFactsGroup9(k: EventKind)
    requires k.LinksetData? || k.LinkMessage?
    ensures NameFacts(k)
  {
    match k
    case LinksetData => assert EventName(k) == "linkset_data";
    case LinkMessage => assert EventName(k) == "link_message";
  }

  lemma {:induction false} NameFactsGroup10(k: EventKind)
    requires k.Listen? || k.Money?
    ensures NameFacts(k)
  {
    match k
    case Listen => assert EventName(k) == "listen";
    case Money => assert EventName(k) == "money";
  }

  lemma {:induction false} NameFactsGroup11(k: EventKind)
    requires k.MovingEnd? || k.MovingStart?
    ensures NameFacts(k)
  {
    match k
    case MovingEnd => assert EventName(k) == "moving_end";
    case MovingStart => assert EventName(k) == "moving_start";
  }

  lemma {:induction false} NameFactsGroup12(k: EventKind)
    requires k.NotAtRotTarget? || k.NotAtTarget?
    ensures NameFacts(k)
  {
    match k
    case NotAtRotTarget => assert EventName(k) == "not_at_rot_target";
    case NotAtTarget => assert EventName(k) == "not_at_target";
  }

  lemma {:induction false} NameFactsGroup13(k: EventKind)
    requires k.NoSensor? || k.ObjectRez?
    ensures NameFacts(k)
  {
    match k
    case NoSensor => assert EventName(k) == "no_sensor";
    case ObjectRez => assert EventName(k) == "object_rez";
  }

  lemma {:induction false} NameFactsGroup14(k: EventKind)
    requires k.OnRez? || k.PathUpdate?
    ensures NameFacts(k)
  {
    match k
    case OnRez => assert EventName(k) == "on_rez";
    case PathUpdate => assert EventName(k) == "path_update";
  }

  lemma {:induction false} NameFactsGroup15(k: EventKind)
    requires k.RunTimePermissions? || k.Sensor?
    ensures NameFacts(k)
  {
    match k
    case RunTimePermissions => assert EventName(k) == "run_time_permissions";
    case Sensor => assert EventName(k) == "sensor";
  }

  lemma {:induction false} NameFactsGroup16(k: EventKind)
    requires k.StateEntry? || k.StateExit?
    ensures NameFacts(k)
  {
    match k
    case StateEntry => assert EventName(k) == "state_entry";
    case StateExit => assert EventName(k) == "state_exit";
  }

  lemma {:induction false} NameFactsGroup17(k: EventKind)
    requires k.Timer? || k.Touch?
    ensures NameFacts(k)
  {
    match k
    case Timer => assert EventName(k) == "timer";
    case Touch => assert EventName(k) == "touch";
  }

  lemma {:induction false} NameFactsGroup18(k: EventKind)
    requires k.TouchEnd? || k.TouchStart?
    ensures NameFacts(k)
  {
    match k
    case TouchEnd => assert EventName(k) == "touch_end";
    case TouchStart => assert EventName(k) == "touch_start";
  }

  lemma {:induction false} NameFactsGroup19(k: EventKind)
    requires k.TransactionResult?
    ensures NameFacts(k)
  {
    match k
    case TransactionResult => assert EventName(k) == "transaction_result";
  }

  lemma CatalogueNameFacts(k: EventKind)
    ensures NameFacts(k)
  {
    match k
    case Attach | AtRotTarget => NameFactsGroup0(k);
    case AtTarget | Changed => NameFactsGroup1(k);
    case Collision | CollisionEnd => NameFactsGroup2(k);
    case CollisionStart | Control => NameFactsGroup3(k);
    case Dataserver | Email => NameFactsGroup4(k);
    case ExperiencePermissions | ExperiencePermissionsDenied => NameFactsGroup5(k);
    case GameControl | HttpRequest => NameFactsGroup6(k);
    case HttpResponse | LandCollision => NameFactsGroup7(k);
    case LandCollisionEnd | LandCollisionStart => NameFactsGroup8(k);
    case LinksetData | LinkMessage => NameFactsGroup9(k);
    case Listen | Money => NameFactsGroup10(k);
    case MovingEnd | MovingStart => NameFactsGroup11(k);
    case NotAtRotTarget | NotAtTarget => NameFactsGroup12(k);
    case NoSensor | ObjectRez => NameFactsGroup13(k);
    case OnRez | PathUpdate => NameFactsGroup14(k);
    case RunTimePermissions | Sensor => NameFactsGroup15(k);
    case StateEntry | StateExit => NameFactsGroup16(k);
    case Timer | Touch => NameFactsGroup17(k);
    case TouchEnd | TouchStart => NameFactsGroup18(k);
    case TransactionResult => NameFactsGroup19(k);
  }

  /** Naming a kind and looking the name up gives the kind back. */
  lemma KindNamedInverse(k: EventKind)
    ensures KindNamed(EventName(k)) == Some(k)
  {
    CatalogueNameFacts(k);
  }

  /** The 39 event names are pairwise distinct. */
  lemma EventNamesDistinct(k1: EventKind, k2: EventKind)
    ensures EventName(k1) == EventName(k2) ==> k1 == k2
  {
    KindNamedInverse(k1);
    KindNamedInverse(k2);
  }

  /** `event_order` and `remote_data` are not in the catalogue. */
  lemma ExcludedNamesAbsent(k: EventKind)
    ensures EventName(k) != "event_order" && EventName(k) != "remote_data"
  {
    KindNamedInverse(k);
    assert KindNamed("event_order") == None;
    assert KindNamed("remote_data") == None;
  }

  /** An event name is made of lower-case letters and underscores only. */
  predicate IsNameChar(c: char) {
    'a' <= c <= 'z' || c == '_'
  }

  lemma EventNameChars(k: EventKind)
    ensures EventName(k) != ""
    ensures forall i :: 0 <= i < |EventName(k)| ==> IsNameChar(EventName(k)[i])
  {
    CatalogueNameFacts(k);
  }
}
