/** What an erasure leaves of its subject, and which calls can bring the subject back. */
module ErasureLaws {
  import opened Wrappers
  import opened Consent
  import opened Privacy
  import opened PrivacyLaws
  import opened ApiLaws

  /** What is left of an erased subject: its account, and its renter rows by id. */
  datatype Remains = Remains(account: User, renters: map<int, Renter>)

  function RenterRows(renters: map<int, Renter>, user: int): map<int, Renter> {
    map id | id in renters && renters[id].userId == Some(user) :: renters[id]
  }

  ghost predicate Anonymous(left: Remains) {
    && !left.account.isActive && left.account.anonymizedAt.Some?
    && left.account.fullName == ANONYMIZED_NAME && left.account.phone.None?
    && (forall id :: id in left.renters ==> left.renters[id].fullName == ANONYMIZED_NAME)
  }

  ghost predicate NoBehaviour(db: Db, user: int) {
    && (forall id :: id in db.activity ==> db.activity[id].userId != user)
    && (forall id :: id in db.messages ==> db.messages[id].userId != user)
    && (forall id :: id in db.events ==> db.events[id].userId != user)
  }

  /** Nothing of the subject is stored but these remains: no consent, no behaviour, no other renter row. */
  ghost predicate Erased(db: Db, user: int, left: Remains) {
    && user in db.users && db.users[user] == left.account && RenterRows(db.renters, user) == left.renters
    && Anonymous(left)
    && (forall p :: !GrantedTo(db, (user, p)))
    && NoBehaviour(db, user)
  }

  /** What the erasure of a user leaves: replacement values throughout, and the role and row ids. */
  function LeftBy(db: Db, user: int, with: Replacement, now: int): Remains
    requires user in db.users
  {
    Remains(
      User(with.email, with.hashedPassword, ANONYMIZED_NAME, None, db.users[user].role, false, Some(now)),
      map id | id in RentersOf(db, user) :: Renter(ANONYMIZED_NAME, with.licenseNumber, Some(user)))
  }

  lemma ErasureLeaves(db: Db, user: int, with: Replacement, now: int)
    requires user in db.users
    ensures var db' := Erasure(db, user, with, now);
            && user in db'.users && db'.users[user] == LeftBy(db, user, with, now).account
            && RenterRows(db'.renters, user) == LeftBy(db, user, with, now).renters
  {
    ErasureFrame(db, user, with, now);
    var rows, left := RenterRows(Erasure(db, user, with, now).renters, user), LeftBy(db, user, with, now).renters;
    forall id ensures (id in rows <==> id in left) && (id in rows ==> rows[id] == left[id]) {
      assert id in db.renters ==> (id in RentersOf(db, user) <==> db.renters[id].userId == Some(user));
    }
    assert rows == left;
  }

  /** Names, licence, e-mail, password, phone, consents and behaviour are all gone. */
  lemma ErasureErases(db: Db, user: int, with: Replacement, now: int)
    requires user in db.users
    ensures Erased(Erasure(db, user, with, now), user, LeftBy(db, user, with, now))
  {
    ErasureFrame(db, user, with, now);
    ErasureLeaves(db, user, with, now);
    forall p ensures !GrantedTo(Erasure(db, user, with, now), (user, p)) {
      ErasureConsents(db, user, with, now, (user, p));
    }
  }

  // ---------- One call ----------

  /** The changes that put data or a consent of the user back. */
  ghost predicate BringsBack(change: Change, user: int) {
    match change
    case NewActivity(activity) => activity.userId == user
    case NewMessage(message) => message.userId == user
    case NewEvent(event) => event.userId == user
    case NewRenter(renter) => renter.userId == Some(user)
    case Consenting(key, request, _) => key.0 == user && request.GrantRequest?
    case _ => false
  }

  lemma RowChangeErasedIff(db: Db, change: Change, user: int, left: Remains)
    requires IdsBelowNext(db) && Erased(db, user, left)
    requires change.NewActivity? || change.NewMessage? || change.NewEvent?
    ensures Erased(Changed(db, change), user, left) <==> !BringsBack(change, user)
  {
    var db' := Changed(db, change);
    match change
    case NewActivity(activity) =>
      assert db'.activity[db.nextId] == activity;
    case NewMessage(message) =>
      assert db'.messages[db.nextId] == message;
    case NewEvent(event) =>
      assert db'.events[db.nextId] == event;
  }

  lemma NewRenterErasedIff(db: Db, renter: Renter, user: int, left: Remains)
    requires IdsBelowNext(db) && Erased(db, user, left)
    ensures Erased(Changed(db, NewRenter(renter)), user, left) <==> renter.userId != Some(user)
  {
    var renters := db.renters[db.nextId := renter];
    assert db.nextId !in db.renters;
    if renter.userId == Some(user) {
      assert db.nextId in RenterRows(renters, user);
    } else {
      assert RenterRows(renters, user) == RenterRows(db.renters, user);
    }
  }

  lemma OtherRowsKeepErased(db: Db, change: Change, user: int, left: Remains)
    requires IdsBelowNext(db) && Erased(db, user, left)
    requires change.Nothing? || change.Record? || change.NewUser?
    ensures Erased(Changed(db, change), user, left)
  {
  }

  lemma ConsentErasedIff(db: Db, key: Key, request: Request, now: int, user: int, left: Remains)
    requires Erased(db, user, left)
    ensures Erased(Consented(db, key, request, now), user, left) <==> !(key.0 == user && request.GrantRequest?)
  {
    var db' := Consented(db, key, request, now);
    assert GrantedTo(db', key) <== request.GrantRequest?;
    assert key.0 == user && request.RevokeRequest? ==> db' == db;
    assert forall p :: (user, p) != key ==> GrantedTo(db', (user, p)) == GrantedTo(db, (user, p));
  }

  lemma OtherErasureKeepsErased(db: Db, other: int, with: Replacement, now: int, user: int, left: Remains)
    requires Erased(db, user, left) && other in db.users && other != user
    ensures Erased(Erasure(db, other, with, now), user, left)
  {
    var db' := Erasure(db, other, with, now);
    ErasureFrame(db, other, with, now);
    assert RenterRows(db'.renters, user) == RenterRows(db.renters, user);
    forall p ensures !GrantedTo(db', (user, p)) {
      ErasureConsents(db, other, with, now, (user, p));
    }
  }

  lemma DispatchKeepsErased(db: Db, now: int, user: int, left: Remains)
    requires Erased(db, user, left)
    ensures Erased(Dispatched(db, now), user, left)
  {
    var db' := Dispatched(db, now);
    assert forall id :: id in db'.messages ==> id in db.messages && db'.messages[id].userId == db.messages[id].userId;
  }

  lemma AuditKeepsErased(db: Db, db': Db, user: int, left: Remains)
    requires Erased(db, user, left) && db' == db.(audit := db'.audit)
    ensures Erased(db', user, left)
  {
    assert forall p :: GrantedTo(db', (user, p)) == GrantedTo(db, (user, p));
  }

  lemma ErasingOtherKeepsErased(db: Db, change: Change, user: int, left: Remains)
    requires Erased(db, user, left) && change.Erasing? && change.subject in db.users && change.subject != user
    ensures Erased(Changed(db, change), user, left)
  {
    OtherErasureKeepsErased(db, change.subject, change.with, change.now, user, left);
    AuditKeepsErased(Erasure(db, change.subject, change.with, change.now), Changed(db, change), user, left);
  }

  lemma ChangeErasedIff(db: Db, change: Change, user: int, left: Remains)
    requires IdsBelowNext(db) && Erased(db, user, left)
    requires change.Erasing? ==> change.subject in db.users && change.subject != user
    ensures Erased(Changed(db, change), user, left) <==> !BringsBack(change, user)
  {
    match change
    case Consenting(key, request, now) => ConsentErasedIff(db, key, request, now, user, left);
    case Dispatching(now) => DispatchKeepsErased(db, now, user, left);
    case Erasing(_, _, _, _) => ErasingOtherKeepsErased(db, change, user, left);
    case NewRenter(renter) => NewRenterErasedIff(db, renter, user, left);
    case Nothing => OtherRowsKeepErased(db, change, user, left);
    case Record(_) => OtherRowsKeepErased(db, change, user, left);
    case NewUser(_) => OtherRowsKeepErased(db, change, user, left);
    case _ => RowChangeErasedIff(db, change, user, left);
  }

  /**
   * The calls that undo an erasure: an administrator grants a consent of the subject, or gives it
   * a renter profile while it has none and the licence number is free.
   */
  ghost predicate Reinstates(db: Db, call: Call, user: int) {
    && call.OnSubject() && call.subject == user && IsAdmin(db, call.actor)
    && ((call.ChangeConsent? && call.request.GrantRequest?)
        || (call.CreateProfile? && !ProfileTaken(db, user, call.licenseNumber)))
  }

  lemma ReinstatesBringsBack(db: Db, call: Call, user: int, left: Remains)
    requires Erased(db, user, left)
    ensures BringsBack(ChangeOf(db, call), user) <==> Reinstates(db, call, user)
    ensures ChangeOf(db, call).Erasing? ==> ChangeOf(db, call).subject != user
  {
    assert call.OnSubject() && call.subject == user && MayAccess(db, call.actor, call.subject) ==> IsAdmin(db, call.actor);
    if call.QueueEmail? && call.subject == user {
      assert !Gate(db, user, MarketingEmail).allowed;
    } else if call.TrackEvent? && call.subject == user {
      assert !Gate(db, user, OptionalAnalytics).allowed;
    }
  }

  /** One call leaves an erased subject erased, unless it is one of those. */
  lemma StaysErasedIff(db: Db, call: Call, user: int, left: Remains)
    requires Inv(db) && Erased(db, user, left)
    ensures Erased(Perform(db, call), user, left) <==> !Reinstates(db, call, user)
  {
    ReinstatesBringsBack(db, call, user, left);
    ChangeErasedIff(db, ChangeOf(db, call), user, left);
  }

  // ---------- Whole runs ----------

  ghost predicate NeverReinstated(db: Db, user: int, calls: seq<Call>) {
    forall i :: 0 <= i < |calls| ==> !Reinstates(After(db, calls[..i]), calls[i], user)
  }

  lemma AfterNext(db: Db, calls: seq<Call>, n: nat)
    requires n < |calls|
    ensures After(db, calls[..n + 1]) == Perform(After(db, calls[..n]), calls[n])
  {
    PrefixOfPrefix(calls, n + 1, n);
  }

  lemma {:induction false} ErasedAtPrefix(db: Db, user: int, left: Remains, calls: seq<Call>, n: nat)
    requires Inv(db) && Erased(db, user, left) && NeverReinstated(db, user, calls) && n <= |calls|
    ensures Erased(After(db, calls[..n]), user, left)
  {
    if n > 0 {
      ErasedAtPrefix(db, user, left, calls, n - 1);
      CallsKeepInv(db, calls[..n - 1]);
      StaysErasedIff(After(db, calls[..n - 1]), calls[n - 1], user, left);
      AfterNext(db, calls, n - 1);
    }
  }

  /** A subject is erased throughout a run iff no call of the run reinstates it in the state it meets. */
  lemma ErasedThroughoutIff(db: Db, user: int, left: Remains, calls: seq<Call>)
    requires Inv(db) && Erased(db, user, left)
    ensures (forall n :: 0 <= n <= |calls| ==> Erased(After(db, calls[..n]), user, left)) <==> NeverReinstated(db, user, calls)
  {
    if NeverReinstated(db, user, calls) {
      forall n | 0 <= n <= |calls| ensures Erased(After(db, calls[..n]), user, left) {
        ErasedAtPrefix(db, user, left, calls, n);
      }
    } else {
      var i :| 0 <= i < |calls| && Reinstates(After(db, calls[..i]), calls[i], user);
      if Erased(After(db, calls[..i]), user, left) {
        CallsKeepInv(db, calls[..i]);
        StaysErasedIff(After(db, calls[..i]), calls[i], user, left);
        AfterNext(db, calls, i);
      }
    }
  }

  lemma OwnCallsDoNotReinstate(db: Db, call: Call, user: int, left: Remains)
    requires Erased(db, user, left) && !call.ByAnotherOn(user)
    ensures !Reinstates(db, call, user)
  {
  }

  lemma {:induction false} OwnRunsDoNotReinstate(db: Db, user: int, left: Remains, calls: seq<Call>)
    requires Inv(db) && Erased(db, user, left)
    requires forall i :: 0 <= i < |calls| ==> !calls[i].ByAnotherOn(user)
    ensures Inv(After(db, calls)) && Erased(After(db, calls), user, left)
  {
    if calls != [] {
      var init, last := calls[..|calls| - 1], calls[|calls| - 1];
      OwnRunsDoNotReinstate(db, user, left, init);
      var before := After(db, init);
      OwnCallsDoNotReinstate(before, last, user, left);
      StaysErasedIff(before, last, user, left);
      ChangeKeepsInv(before, ChangeOf(before, last));
    }
  }

  lemma ErasingErases(db: Db, change: Change)
    requires Inv(db) && change.Erasing? && change.subject in db.users
    ensures Inv(Changed(db, change))
    ensures Erased(Changed(db, change), change.subject, LeftBy(db, change.subject, change.with, change.now))
  {
    ChangeKeepsInv(db, change);
    ErasureErases(db, change.subject, change.with, change.now);
    AuditKeepsErased(
      Erasure(db, change.subject, change.with, change.now), Changed(db, change), change.subject,
      LeftBy(db, change.subject, change.with, change.now));
  }

  lemma ErasingCall(db: Db, call: Call)
    requires ChangeOf(db, call).Erasing?
    ensures call.Erase? && call.subject in db.users
    ensures ChangeOf(db, call) == Erasing(call.actor, call.subject, call.with, call.now)
  {
  }

  /** From a successful erasure on, the subject is erased throughout iff no call reinstates it. */
  lemma ErasureLastsIff(db: Db, call: Call, calls: seq<Call>)
    requires Inv(db) && ChangeOf(db, call).Erasing?
    ensures var db', left := Perform(db, call), LeftBy(db, call.subject, call.with, call.now);
            && Erased(db', call.subject, left)
            && ((forall n :: 0 <= n <= |calls| ==> Erased(After(db', calls[..n]), call.subject, left))
                <==> NeverReinstated(db', call.subject, calls))
  {
    ErasingCall(db, call);
    ErasingErases(db, Erasing(call.actor, call.subject, call.with, call.now));
    ErasedThroughoutIff(Perform(db, call), call.subject, LeftBy(db, call.subject, call.with, call.now), calls);
  }

  /** Neither a login nor an old token brings an erased subject back: only somebody else could. */
  lemma ErasureLasts(db: Db, call: Call, calls: seq<Call>)
    requires Inv(db) && ChangeOf(db, call).Erasing?
    requires forall i :: 0 <= i < |calls| ==> !calls[i].ByAnotherOn(call.subject)
    ensures Erased(After(Perform(db, call), calls), call.subject, LeftBy(db, call.subject, call.with, call.now))
  {
    ErasingCall(db, call);
    ErasingErases(db, Erasing(call.actor, call.subject, call.with, call.now));
    OwnRunsDoNotReinstate(Perform(db, call), call.subject, LeftBy(db, call.subject, call.with, call.now), calls);
  }

  // ---------- It does happen ----------

  const ADMINISTRATOR := User("admin@example.com", "hash", "Ada", None, Admin, true, None)
  const MEMBER := User("user@example.com", "hash", "Bob", None, Member, true, None)
  const REPLACEMENT := Replacement("anon@anon.invalid", "random", "anon-licence", PURPOSES)

  /** An administrator and a member sign up, and the administrator erases the member. */
  const ERASURE_CALLS := [AddUser(None, ADMINISTRATOR), AddUser(None, MEMBER), Erase(1, 2, REPLACEMENT, 10, false)]

  lemma SignUps()
    ensures After(EMPTY, ERASURE_CALLS[..2]) == EMPTY.(users := map[1 := ADMINISTRATOR, 2 := MEMBER], nextId := 3)
  {
    AfterNext(EMPTY, ERASURE_CALLS, 0);
    AfterNext(EMPTY, ERASURE_CALLS, 1);
    assert ERASURE_CALLS[..0] == [];
    assert ADMINISTRATOR.email[0] != MEMBER.email[0];
  }

  lemma MemberIsErased(db: Db)
    requires db == EMPTY.(users := map[1 := ADMINISTRATOR, 2 := MEMBER], nextId := 3)
    ensures ChangeOf(db, ERASURE_CALLS[2]) == Erasing(1, 2, REPLACEMENT, 10)
  {
    assert "anon@anon.invalid"[1] != ADMINISTRATOR.email[1];
    assert RentersOf(db, 2) == {};
  }

  lemma AdministratorRemains(db: Db)
    requires 1 in db.users && 2 in db.users && db.users[1] == ADMINISTRATOR
    ensures IsAdmin(Changed(db, Erasing(1, 2, REPLACEMENT, 10)), 1)
    ensures Changed(db, Erasing(1, 2, REPLACEMENT, 10)).renters.Keys == db.renters.Keys
  {
    ErasureFrame(db, 2, REPLACEMENT, 10);
  }

  lemma GrantGrants(db: Db, admin: int, user: int, version: string)
    requires IsAdmin(db, admin) && user in db.users
    ensures GrantedTo(Perform(db, ChangeConsent(admin, user, MarketingEmail, GrantRequest(version, "api"), 11)), (user, MarketingEmail))
  {
  }

  lemma ProfileIsStored(db: Db, admin: int, user: int, fullName: string, licence: string)
    requires IsAdmin(db, admin) && user in db.users && db.renters.Keys == {}
    ensures var profiled := Perform(db, CreateProfile(admin, user, fullName, licence));
            db.nextId in profiled.renters && profiled.renters[db.nextId] == Renter(fullName, licence, Some(user))
  {
    assert RentersOf(db, user) == {};
  }

  /** What is left of the member. */
  const MEMBER_LEFT :=
    Remains(User("anon@anon.invalid", "random", ANONYMIZED_NAME, None, Member, false, Some(10)), map[])

  lemma MemberStaysErased(db: Db, erased: Db)
    requires db == EMPTY.(users := map[1 := ADMINISTRATOR, 2 := MEMBER], nextId := 3) && Inv(db)
    requires erased == Changed(db, Erasing(1, 2, REPLACEMENT, 10))
    ensures Erased(erased, 2, MEMBER_LEFT) && IsAdmin(erased, 1) && erased.renters.Keys == {}
  {
    ErasingErases(db, Erasing(1, 2, REPLACEMENT, 10));
    AdministratorRemains(db);
    assert RentersOf(db, 2) == {};
    assert LeftBy(db, 2, REPLACEMENT, 10) == MEMBER_LEFT;
  }

  /** A reachable state in which the member has been erased. */
  lemma MemberErased()
    ensures var erased := After(EMPTY, ERASURE_CALLS);
            Erased(erased, 2, MEMBER_LEFT) && IsAdmin(erased, 1) && erased.renters.Keys == {}
  {
    var before := After(EMPTY, ERASURE_CALLS[..2]);
    SignUps();
    MemberIsErased(before);
    AfterNext(EMPTY, ERASURE_CALLS, 2);
    assert ERASURE_CALLS[..3] == ERASURE_CALLS;
    RunKeepsInv(ERASURE_CALLS[..2]);
    MemberStaysErased(before, After(EMPTY, ERASURE_CALLS));
  }

  /**
   * The administrator's grant makes the consent of the erased member GRANTED again, and a renter
   * profile, under whatever name, is stored for it.
   */
  lemma AdministratorReinstates(version: string, fullName: string, licence: string)
    ensures var erased := After(EMPTY, ERASURE_CALLS);
            var granted := Perform(erased, ChangeConsent(1, 2, MarketingEmail, GrantRequest(version, "api"), 11));
            var profiled := Perform(erased, CreateProfile(1, 2, fullName, licence));
            && Erased(erased, 2, MEMBER_LEFT)
            && GrantedTo(granted, (2, MarketingEmail))
            && erased.nextId in profiled.renters && profiled.renters[erased.nextId] == Renter(fullName, licence, Some(2))
  {
    MemberErased();
    GrantGrants(After(EMPTY, ERASURE_CALLS), 1, 2, version);
    ProfileIsStored(After(EMPTY, ERASURE_CALLS), 1, 2, fullName, licence);
  }

  /** The same with a renter profile: the row stays, under the replacement name and licence number. */
  const PROFILE_CALLS :=
    [ AddUser(None, ADMINISTRATOR), AddUser(None, MEMBER), CreateProfile(2, 2, "Bob", "B-1"),
      Erase(1, 2, REPLACEMENT, 10, false) ]

  const WITH_PROFILE := EMPTY.(
    users := map[1 := ADMINISTRATOR, 2 := MEMBER], renters := map[3 := Renter("Bob", "B-1", Some(2))], nextId := 4)

  const PROFILE_LEFT := Remains(MEMBER_LEFT.account, map[3 := Renter(ANONYMIZED_NAME, "anon-licence", Some(2))])

  lemma ProfileCreated()
    ensures After(EMPTY, PROFILE_CALLS[..3]) == WITH_PROFILE
  {
    SignUps();
    assert PROFILE_CALLS[..2] == ERASURE_CALLS[..2];
    AfterNext(EMPTY, PROFILE_CALLS, 2);
    var before := After(EMPTY, PROFILE_CALLS[..2]);
    ProfileOutcome(before, 2, 2, "Bob", "B-1");
    assert before.renters[3 := Renter("Bob", "B-1", Some(2))] == WITH_PROFILE.renters;
  }

  lemma ReplacementsAreFree()
    ensures ReplacementsFree(WITH_PROFILE, 2, REPLACEMENT)
  {
    assert REPLACEMENT.email[1] != ADMINISTRATOR.email[1];
  }

  lemma ProfileErased()
    ensures Erased(After(EMPTY, PROFILE_CALLS), 2, PROFILE_LEFT)
  {
    ProfileCreated();
    ReplacementsAreFree();
    AfterNext(EMPTY, PROFILE_CALLS, 3);
    assert PROFILE_CALLS[..4] == PROFILE_CALLS;
    EraseOutcome(WITH_PROFILE, 1, 2, REPLACEMENT, 10, false);
    ErasureErases(WITH_PROFILE, 2, REPLACEMENT, 10);
    LeftWithProfile();
    AuditKeepsErased(Erasure(WITH_PROFILE, 2, REPLACEMENT, 10), After(EMPTY, PROFILE_CALLS), 2, PROFILE_LEFT);
  }

  lemma LeftWithProfile()
    ensures LeftBy(WITH_PROFILE, 2, REPLACEMENT, 10) == PROFILE_LEFT
  {
    assert RentersOf(WITH_PROFILE, 2) == {3};
  }

  // ---------- Repeats ----------

  ghost predicate Anonymized(db: Db, user: int) {
    user in db.users && db.users[user].anonymizedAt.Some?
  }

  lemma ChangeKeepsAnonymized(db: Db, change: Change, user: int)
    requires IdsBelowNext(db) && Anonymized(db, user)
    requires change.Erasing? ==> change.subject in db.users
    ensures Anonymized(Changed(db, change), user)
  {
    if change.Erasing? {
      ErasureFrame(db, change.subject, change.with, change.now);
    }
  }

  /** The mark of an erasure is never removed, not even by what reinstates the subject. */
  lemma {:induction false} AnonymizedForGood(db: Db, user: int, calls: seq<Call>)
    requires Inv(db) && Anonymized(db, user)
    ensures Anonymized(After(db, calls), user)
  {
    if calls != [] {
      var init, last := calls[..|calls| - 1], calls[|calls| - 1];
      AnonymizedForGood(db, user, init);
      CallsKeepInv(db, init);
      ChangeKeepsAnonymized(After(db, init), ChangeOf(After(db, init), last), user);
    }
  }

  lemma AnonymizedChange(db: Db, again: Call)
    requires again.Erase? && Anonymized(db, again.subject)
    ensures var change := ChangeOf(db, again);
            && (change.Nothing? || change.Record?)
            && (MayAccess(db, again.actor, again.subject) ==>
                  change == Record(AuditEvent(AnonymizeCall, again.actor, again.subject, ResultAlreadyAnonymized)))
  {
  }

  lemma RecordOnlyAudits(db: Db, change: Change)
    requires change.Nothing? || change.Record?
    ensures Changed(db, change) == db.(audit := Changed(db, change).audit)
    ensures change.Record? ==> Changed(db, change).audit == db.audit + [change.entry]
  {
  }

  lemma AnonymizedOnlyAudits(db: Db, again: Call)
    requires again.Erase? && Anonymized(db, again.subject)
    ensures Perform(db, again) == db.(audit := Perform(db, again).audit)
    ensures MayAccess(db, again.actor, again.subject) ==>
              Perform(db, again).audit
              == db.audit + [AuditEvent(AnonymizeCall, again.actor, again.subject, ResultAlreadyAnonymized)]
  {
    AnonymizedChange(db, again);
    RecordOnlyAudits(db, ChangeOf(db, again));
  }

  /**
   * After a successful erasure and any run of calls, erasing the same user again changes nothing
   * but the audit log, which gains one event if the caller may access the subject.
   */
  lemma RepeatOnlyAudits(db: Db, call: Call, calls: seq<Call>, again: Call)
    requires Inv(db) && ChangeOf(db, call).Erasing? && again.Erase? && again.subject == call.subject
    ensures var s := After(Perform(db, call), calls);
            && Perform(s, again) == s.(audit := Perform(s, again).audit)
            && (MayAccess(s, again.actor, again.subject) ==>
                  Perform(s, again).audit
                  == s.audit + [AuditEvent(AnonymizeCall, again.actor, again.subject, ResultAlreadyAnonymized)])
  {
    ErasingCall(db, call);
    ErasingErases(db, ChangeOf(db, call));
    AnonymizedForGood(Perform(db, call), call.subject, calls);
    AnonymizedOnlyAudits(After(Perform(db, call), calls), again);
  }
}
