/**
 * The accounts, consents and consent-gated data of all users, with the API calls that change
 * them. A call is one atomic step; a call that is refused changes at most the audit log.
 */
module Privacy {
  import opened Wrappers
  import opened Consent

  datatype Role = Admin | Member

  datatype User = User(
    email: string, hashedPassword: string, fullName: string, phone: Option<string>,
    role: Role, isActive: bool, anonymizedAt: Option<int>)

  datatype Renter = Renter(fullName: string, licenseNumber: string, userId: Option<int>)

  datatype MessageStatus = Queued | Sent | Skipped

  datatype Message = Message(userId: int, campaign: string, status: MessageStatus, processedAt: Option<int>)

  datatype ActivityKind = LoginActivity

  datatype Activity = Activity(userId: int, action: ActivityKind)

  datatype AnalyticsEvent = AnalyticsEvent(userId: int, name: string)

  datatype AuditType =
    | GrantCall
    | RevokeCall
    | MarketingCall
    | AnalyticsCall
    | ProfileCall
    | AnonymizeCall
    | MarketingAction
    | AnalyticsAction

  datatype AuditResult = AccessDenied | SubjectNotFound | GateDenied(reason: Reason) | ResultAnonymized | ResultAlreadyAnonymized

  datatype AuditEvent = AuditEvent(eventType: AuditType, actorId: int, subjectId: int, result: AuditResult)

  datatype Db = Db(
    users: map<int, User>,
    renters: map<int, Renter>,
    rentals: map<int, int>,
    consents: map<Key, Row>,
    history: seq<Entry>,
    activity: map<int, Activity>,
    messages: map<int, Message>,
    events: map<int, AnalyticsEvent>,
    audit: seq<AuditEvent>,
    nextId: int)

  const ANONYMIZED_NAME := "Anonymized User"

  const ERASURE_SOURCE := "erasure"

  // ---------- Consents ----------

  /** The history of one (user, purpose), in log order. */
  function LogOf(history: seq<Entry>, key: Key): seq<Entry> {
    if history == [] then []
    else
      var log, last := LogOf(history[..|history| - 1], key), history[|history| - 1];
      if last.key == key then log + [last] else log
  }

  function RowOf(db: Db, key: Key): Option<Row> {
    if key in db.consents then Some(db.consents[key]) else None
  }

  function CellOf(db: Db, key: Key): Cell {
    Cell(RowOf(db, key), LogOf(db.history, key))
  }

  /** A grant or a revoke. */
  function Consented(db: Db, key: Key, request: Request, now: int): Db {
    var effect := Effect(RowOf(db, key), key, request, now);
    if effect.None? then db
    else db.(consents := db.consents[key := effect.value.0], history := db.history + [effect.value.1])
  }

  lemma ConsentedCell(db: Db, key: Key, request: Request, now: int, k: Key)
    ensures CellOf(Consented(db, key, request, now), k)
         == if k == key then Serve(CellOf(db, key), key, request, now) else CellOf(db, k)
  {
    var effect := Effect(RowOf(db, key), key, request, now);
    if effect.Some? {
      var history := db.history + [effect.value.1];
      assert history[..|db.history|] == db.history;
    }
  }

  predicate GrantedTo(db: Db, key: Key) {
    key in db.consents && db.consents[key].status.Granted?
  }

  /** Every granted consent of a user withdrawn, in the order in which the rows are returned. */
  function WithdrawAll(db: Db, user: int, order: seq<Purpose>, source: string, now: int): Db {
    if order == [] then db
    else
      var init := WithdrawAll(db, user, order[..|order| - 1], source, now);
      Consented(init, (user, order[|order| - 1]), RevokeRequest(source), now)
  }

  lemma {:induction false} WithdrawAllCells(db: Db, user: int, order: seq<Purpose>, source: string, now: int, k: Key)
    requires Distinct(order)
    ensures CellOf(WithdrawAll(db, user, order, source, now), k)
         == if k.0 == user && k.1 in order then Serve(CellOf(db, k), k, RevokeRequest(source), now) else CellOf(db, k)
    ensures db.history <= WithdrawAll(db, user, order, source, now).history
    ensures var db' := WithdrawAll(db, user, order, source, now);
            db' == db.(consents := db'.consents, history := db'.history)
  {
    if order != [] {
      var init := order[..|order| - 1];
      WithdrawAllCells(db, user, init, source, now, k);
      ConsentedCell(WithdrawAll(db, user, init, source, now), (user, order[|order| - 1]), RevokeRequest(source), now, k);
      assert order == init + [order[|order| - 1]];
    }
  }

  // ---------- Marketing ----------

  function Gate(db: Db, user: int, purpose: Purpose): GateDecision {
    Decide(RowOf(db, (user, purpose)), CURRENT_POLICY_VERSION)
  }

  function Verdict(db: Db, m: Message, now: int): Message {
    m.(status := if Gate(db, m.userId, MarketingEmail).allowed then Sent else Skipped, processedAt := Some(now))
  }

  function QueuedIds(db: Db): set<int> {
    set id | id in db.messages && db.messages[id].status.Queued?
  }

  /** Every queued message settled by the consent of this moment, all with one timestamp. */
  function Dispatched(db: Db, now: int): Db {
    db.(messages := map id | id in db.messages ::
          if db.messages[id].status.Queued? then Verdict(db, db.messages[id], now) else db.messages[id])
  }

  // ---------- Erasure ----------

  predicate Distinct(order: seq<Purpose>) {
    forall i, j :: 0 <= i < j < |order| ==> order[i] != order[j]
  }

  const PURPOSES := [MarketingEmail, OptionalAnalytics, Personalization]

  /** An order in which a query may return the consent rows of a user. */
  type RowOrder = order: seq<Purpose> | (forall p :: p in PURPOSES ==> p in order) && Distinct(order) witness PURPOSES

  /** The random replacement values, and the order in which the consent rows come back. */
  datatype Replacement = Replacement(email: string, hashedPassword: string, licenseNumber: string, order: RowOrder)

  datatype Counts = Counts(renters: nat, activity: nat, messages: nat, events: nat, consents: nat)

  function RentersOf(db: Db, user: int): set<int> {
    set id | id in db.renters && db.renters[id].userId == Some(user)
  }

  function ActivityOf(db: Db, user: int): set<int> {
    set id | id in db.activity && db.activity[id].userId == user
  }

  function MessagesOf(db: Db, user: int): set<int> {
    set id | id in db.messages && db.messages[id].userId == user
  }

  function EventsOf(db: Db, user: int): set<int> {
    set id | id in db.events && db.events[id].userId == user
  }

  function GrantedPurposes(db: Db, user: int): set<Purpose> {
    set p | p in PURPOSES && GrantedTo(db, (user, p))
  }

  function Affected(db: Db, user: int): Counts {
    Counts(
      |RentersOf(db, user)|, |ActivityOf(db, user)|, |MessagesOf(db, user)|, |EventsOf(db, user)|, |GrantedPurposes(db, user)|)
  }

  /** A replacement value collides with a unique column of another row. */
  predicate Collides(db: Db, user: int, with: Replacement) {
    || (exists u :: u in db.users && u != user && db.users[u].email == with.email)
    || (RentersOf(db, user) != {} &&
        exists r :: r in db.renters && db.renters[r].userId != Some(user) && db.renters[r].licenseNumber == with.licenseNumber)
  }

  function AnonymizedUser(user: User, with: Replacement, now: int): User {
    User(with.email, with.hashedPassword, ANONYMIZED_NAME, None, user.role, false, Some(now))
  }

  function AnonymizedRenters(renters: map<int, Renter>, user: int, licenseNumber: string): map<int, Renter> {
    map id | id in renters ::
      if renters[id].userId == Some(user)
      then renters[id].(fullName := ANONYMIZED_NAME, licenseNumber := licenseNumber)
      else renters[id]
  }

  /** Account and renter rows overwritten, behavioural rows deleted. */
  function Scrubbed(db: Db, user: int, with: Replacement, now: int): Db
    requires user in db.users
  {
    db.(
      users := db.users[user := AnonymizedUser(db.users[user], with, now)],
      renters := AnonymizedRenters(db.renters, user, with.licenseNumber),
      activity := db.activity - ActivityOf(db, user),
      messages := db.messages - MessagesOf(db, user),
      events := db.events - EventsOf(db, user))
  }

  function Erasure(db: Db, user: int, with: Replacement, now: int): Db
    requires user in db.users
  {
    WithdrawAll(Scrubbed(db, user, with, now), user, with.order, ERASURE_SOURCE, now)
  }

  // ---------- The API ----------

  datatype Call =
    | AddUser(creator: Option<int>, user: User)
    | Login(email: string, passwordMatches: bool)
    | ChangeConsent(actor: int, subject: int, purpose: Purpose, request: Request, now: int)
    | QueueEmail(actor: int, subject: int, campaign: string)
    | TrackEvent(actor: int, subject: int, name: string)
    | CreateProfile(actor: int, subject: int, fullName: string, licenseNumber: string)
    | Dispatch(actor: int, now: int, fails: bool)
    | Erase(actor: int, subject: int, with: Replacement, now: int, fails: bool)
  {
    predicate OnSubject() {
      ChangeConsent? || QueueEmail? || TrackEvent? || CreateProfile? || Erase?
    }

    function AuditType(): AuditType {
      match this
      case QueueEmail(_, _, _) => MarketingCall
      case TrackEvent(_, _, _) => AnalyticsCall
      case CreateProfile(_, _, _, _) => ProfileCall
      case Erase(_, _, _, _, _) => AnonymizeCall
      case ChangeConsent(_, _, _, request, _) => if request.GrantRequest? then GrantCall else RevokeCall
      case _ => AnonymizeCall
    }

    /** The call acts on this subject in the name of somebody else. */
    predicate ByAnotherOn(user: int) {
      OnSubject() && subject == user && actor != user
    }
  }

  /** A token authenticates while its account exists and is active. */
  predicate Authenticated(db: Db, actor: int) {
    actor in db.users && db.users[actor].isActive
  }

  predicate IsAdmin(db: Db, actor: int) {
    Authenticated(db, actor) && db.users[actor].role.Admin?
  }

  predicate MayAccess(db: Db, actor: int, subject: int) {
    Authenticated(db, actor) && (actor == subject || db.users[actor].role.Admin?) && subject in db.users
  }

  /** What a call amounts to once it has been checked. */
  datatype Change =
    | Nothing
    | Record(entry: AuditEvent)
    | NewUser(user: User)
    | NewActivity(activity: Activity)
    | NewMessage(message: Message)
    | NewEvent(event: AnalyticsEvent)
    | NewRenter(renter: Renter)
    | Consenting(key: Key, request: Request, now: int)
    | Dispatching(now: int)
    | Erasing(actor: int, subject: int, with: Replacement, now: int)

  /** A caller without access is turned away; an authenticated one leaves a trace in the audit log. */
  function Refusal(db: Db, call: Call): Change
    requires call.OnSubject()
  {
    if !Authenticated(db, call.actor) then Nothing
    else
      var denied := call.actor != call.subject && !db.users[call.actor].role.Admin?;
      Record(AuditEvent(call.AuditType(), call.actor, call.subject, if denied then AccessDenied else SubjectNotFound))
  }

  /** The consent-gated actions. */
  function Gated(db: Db, actor: int, subject: int, purpose: Purpose, auditType: AuditType, change: Change): Change {
    var gate := Gate(db, subject, purpose);
    if gate.allowed then change else Record(AuditEvent(auditType, actor, subject, GateDenied(gate.reason)))
  }

  predicate EmailTaken(db: Db, email: string) {
    exists u :: u in db.users && db.users[u].email == email
  }

  predicate ProfileTaken(db: Db, subject: int, licenseNumber: string) {
    RentersOf(db, subject) != {} || exists r :: r in db.renters && db.renters[r].licenseNumber == licenseNumber
  }

  /** user_service.authenticate: an active account with this e-mail, and a matching password. */
  ghost function LoginChange(db: Db, email: string, passwordMatches: bool): Change {
    if passwordMatches && exists u :: u in db.users && db.users[u].email == email && db.users[u].isActive then
      var u :| u in db.users && db.users[u].email == email && db.users[u].isActive;
      NewActivity(Activity(u, LoginActivity))
    else Nothing
  }

  function EraseChange(db: Db, actor: int, subject: int, with: Replacement, now: int, fails: bool): Change
    requires subject in db.users
  {
    if db.users[subject].anonymizedAt.Some? then Record(AuditEvent(AnonymizeCall, actor, subject, ResultAlreadyAnonymized))
    else if fails || Collides(db, subject, with) then Nothing
    else Erasing(actor, subject, with, now)
  }

  ghost function ChangeOf(db: Db, call: Call): Change {
    if call.OnSubject() && !MayAccess(db, call.actor, call.subject) then Refusal(db, call)
    else match call
      case AddUser(creator, user) =>
        if (creator.Some? && !IsAdmin(db, creator.value)) || EmailTaken(db, user.email) then Nothing
        else NewUser(user.(isActive := true, anonymizedAt := None))
      case Login(email, passwordMatches) => LoginChange(db, email, passwordMatches)
      case ChangeConsent(_, subject, purpose, request, now) => Consenting((subject, purpose), request, now)
      case QueueEmail(actor, subject, campaign) =>
        Gated(db, actor, subject, MarketingEmail, MarketingAction, NewMessage(Message(subject, campaign, Queued, None)))
      case TrackEvent(actor, subject, name) =>
        Gated(db, actor, subject, OptionalAnalytics, AnalyticsAction, NewEvent(AnalyticsEvent(subject, name)))
      case CreateProfile(_, subject, fullName, licenseNumber) =>
        if ProfileTaken(db, subject, licenseNumber) then Nothing else NewRenter(Renter(fullName, licenseNumber, Some(subject)))
      case Dispatch(actor, now, fails) => if !IsAdmin(db, actor) || fails then Nothing else Dispatching(now)
      case Erase(actor, subject, with, now, fails) => EraseChange(db, actor, subject, with, now, fails)
  }

  function Changed(db: Db, change: Change): Db
    requires change.Erasing? ==> change.subject in db.users
  {
    match change
    case Nothing => db
    case Record(entry) => db.(audit := db.audit + [entry])
    case NewUser(user) => db.(users := db.users[db.nextId := user], nextId := db.nextId + 1)
    case NewActivity(activity) => db.(activity := db.activity[db.nextId := activity], nextId := db.nextId + 1)
    case NewMessage(message) => db.(messages := db.messages[db.nextId := message], nextId := db.nextId + 1)
    case NewEvent(event) => db.(events := db.events[db.nextId := event], nextId := db.nextId + 1)
    case NewRenter(renter) => db.(renters := db.renters[db.nextId := renter], nextId := db.nextId + 1)
    case Consenting(key, request, now) => Consented(db, key, request, now)
    case Dispatching(now) => Dispatched(db, now)
    case Erasing(actor, subject, with, now) =>
      var db' := Erasure(db, subject, with, now);
      db'.(audit := db'.audit + [AuditEvent(AnonymizeCall, actor, subject, ResultAnonymized)])
  }

  ghost function Perform(db: Db, call: Call): Db {
    Changed(db, ChangeOf(db, call))
  }

  const EMPTY := Db(map[], map[], map[], map[], [], map[], map[], map[], [], 1)

  ghost function After(db: Db, calls: seq<Call>): Db {
    if calls == [] then db else Perform(After(db, calls[..|calls| - 1]), calls[|calls| - 1])
  }
}
