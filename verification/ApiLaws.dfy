/**
 * What each call does, stated on the rows it reads: who may call it, when it takes effect, what it
 * leaves, and what a refusal leaves.
 */
module ApiLaws {
  import opened Wrappers
  import opened Sets
  import opened Consent
  import opened Privacy
  import opened PrivacyLaws

  function Audited(db: Db, eventType: AuditType, actor: int, subject: int, result: AuditResult): Db {
    db.(audit := db.audit + [AuditEvent(eventType, actor, subject, result)])
  }

  /** The account behind a token. */
  ghost predicate SignedIn(db: Db, actor: int) {
    actor in db.users && db.users[actor].isActive
  }

  ghost predicate MayActFor(db: Db, actor: int, subject: int) {
    SignedIn(db, actor) && (actor == subject || db.users[actor].role == Admin)
  }

  /** A call that is not let through: nothing for a stranger, one audit event for an account. */
  ghost function TurnedAway(db: Db, eventType: AuditType, actor: int, subject: int): Db {
    if !SignedIn(db, actor) then db
    else Audited(db, eventType, actor, subject, if MayActFor(db, actor, subject) then SubjectNotFound else AccessDenied)
  }

  lemma ConsentOutcome(db: Db, actor: int, subject: int, purpose: Purpose, request: Request, now: int)
    ensures Perform(db, ChangeConsent(actor, subject, purpose, request, now))
            == if MayActFor(db, actor, subject) && subject in db.users then Consented(db, (subject, purpose), request, now)
               else TurnedAway(db, if request.GrantRequest? then GrantCall else RevokeCall, actor, subject)
  {
  }

  /** An active account's own grant is granted, in the version and from the source it names. */
  lemma OwnGrantGrants(db: Db, user: int, purpose: Purpose, version: string, source: string, now: int)
    requires user in db.users && db.users[user].isActive
    ensures var db' := Perform(db, ChangeConsent(user, user, purpose, GrantRequest(version, source), now));
            && (user, purpose) in db'.consents
            && db'.consents[(user, purpose)].status == Granted && db'.consents[(user, purpose)].policyVersion == version
  {
    ConsentOutcome(db, user, user, purpose, GrantRequest(version, source), now);
  }

  /** And its own revoke withdraws it. */
  lemma OwnRevokeWithdraws(db: Db, user: int, purpose: Purpose, source: string, now: int)
    requires user in db.users && db.users[user].isActive
    ensures !GrantedTo(Perform(db, ChangeConsent(user, user, purpose, RevokeRequest(source), now)), (user, purpose))
  {
    ConsentOutcome(db, user, user, purpose, RevokeRequest(source), now);
  }

  lemma EmailOutcome(db: Db, actor: int, subject: int, campaign: string)
    requires Inv(db)
    ensures Perform(db, QueueEmail(actor, subject, campaign))
            == if !(MayActFor(db, actor, subject) && subject in db.users) then TurnedAway(db, MarketingCall, actor, subject)
               else if LastIsCurrentGrant(LogOf(db.history, (subject, MarketingEmail)))
               then db.(messages := db.messages[db.nextId := Message(subject, campaign, Queued, None)], nextId := db.nextId + 1)
               else Audited(db, MarketingAction, actor, subject, GateDenied(Gate(db, subject, MarketingEmail).reason))
  {
    if MayAccess(db, actor, subject) {
      EmailGatedByLog(db, QueueEmail(actor, subject, campaign));
    }
  }

  lemma EventOutcome(db: Db, actor: int, subject: int, name: string)
    requires Inv(db)
    ensures Perform(db, TrackEvent(actor, subject, name))
            == if !(MayActFor(db, actor, subject) && subject in db.users) then TurnedAway(db, AnalyticsCall, actor, subject)
               else if LastIsCurrentGrant(LogOf(db.history, (subject, OptionalAnalytics)))
               then db.(events := db.events[db.nextId := AnalyticsEvent(subject, name)], nextId := db.nextId + 1)
               else Audited(db, AnalyticsAction, actor, subject, GateDenied(Gate(db, subject, OptionalAnalytics).reason))
  {
    if MayAccess(db, actor, subject) {
      EventGatedByLog(db, TrackEvent(actor, subject, name));
    }
  }

  /** No renter row has this licence number, and the subject has none at all. */
  ghost predicate ProfileFree(db: Db, subject: int, licence: string) {
    forall r :: r in db.renters ==> db.renters[r].userId != Some(subject) && db.renters[r].licenseNumber != licence
  }

  lemma HasRenterIff(db: Db, user: int)
    ensures RentersOf(db, user) != {} <==> exists r :: r in db.renters && db.renters[r].userId == Some(user)
  {
    HasMember(RentersOf(db, user));
    if r :| r in db.renters && db.renters[r].userId == Some(user) {
      assert r in RentersOf(db, user);
    }
    if r :| r in RentersOf(db, user) {
      assert r in db.renters && db.renters[r].userId == Some(user);
    }
  }

  lemma ProfileFreeIff(db: Db, subject: int, licence: string)
    ensures ProfileFree(db, subject, licence) <==> !ProfileTaken(db, subject, licence)
  {
    HasRenterIff(db, subject);
  }

  lemma ProfileOutcome(db: Db, actor: int, subject: int, fullName: string, licence: string)
    ensures Perform(db, CreateProfile(actor, subject, fullName, licence))
            == if !(MayActFor(db, actor, subject) && subject in db.users) then TurnedAway(db, ProfileCall, actor, subject)
               else if ProfileFree(db, subject, licence)
               then db.(renters := db.renters[db.nextId := Renter(fullName, licence, Some(subject))], nextId := db.nextId + 1)
               else db
  {
    ProfileFreeIff(db, subject, licence);
  }

  /** Registration is open to everybody, other accounts are added by administrators; e-mails are unique. */
  lemma AddUserOutcome(db: Db, creator: Option<int>, user: User)
    ensures Perform(db, AddUser(creator, user))
            == if (creator.None? || (SignedIn(db, creator.value) && db.users[creator.value].role == Admin))
                  && forall u :: u in db.users ==> db.users[u].email != user.email
               then db.(users := db.users[db.nextId := user.(isActive := true, anonymizedAt := None)], nextId := db.nextId + 1)
               else db
  {
  }

  /** Somebody signs in: an active account with this e-mail, and the right password. */
  ghost predicate SignsIn(db: Db, email: string, passwordMatches: bool, u: int) {
    passwordMatches && u in db.users && db.users[u].email == email && db.users[u].isActive
  }

  lemma LoginOutcome(db: Db, email: string, passwordMatches: bool)
    requires EmailsDiffer(db)
    ensures var db' := Perform(db, Login(email, passwordMatches));
            && (forall u :: SignsIn(db, email, passwordMatches, u) ==>
                  db' == db.(activity := db.activity[db.nextId := Activity(u, LoginActivity)], nextId := db.nextId + 1))
            && ((forall u :: !SignsIn(db, email, passwordMatches, u)) ==> db' == db)
  {
    if u :| SignsIn(db, email, passwordMatches, u) {
      var change := LoginChange(db, email, passwordMatches);
      assert change.NewActivity? && SignsIn(db, email, passwordMatches, change.activity.userId);
    }
  }

  /**
   * An administrator's dispatch settles every queued message at `now` by its user's log, and
   * touches nothing else; anybody else's, or one that fails, changes nothing.
   */
  lemma DispatchOutcome(db: Db, actor: int, now: int, fails: bool)
    requires Inv(db)
    ensures var db' := Perform(db, Dispatch(actor, now, fails));
            if SignedIn(db, actor) && db.users[actor].role == Admin && !fails then
              && db' == db.(messages := db'.messages) && db'.messages.Keys == db.messages.Keys
              && (forall id :: id in db.messages ==>
                    var m := db.messages[id];
                    db'.messages[id]
                    == if m.status != Queued then m
                       else if LastIsCurrentGrant(LogOf(db.history, (m.userId, MarketingEmail)))
                       then m.(status := Sent, processedAt := Some(now))
                       else m.(status := Skipped, processedAt := Some(now)))
            else db' == db
  {
    forall id | id in db.messages
      ensures Dispatched(db, now).messages[id]
              == if db.messages[id].status != Queued then db.messages[id]
                 else if LastIsCurrentGrant(LogOf(db.history, (db.messages[id].userId, MarketingEmail)))
                 then db.messages[id].(status := Sent, processedAt := Some(now))
                 else db.messages[id].(status := Skipped, processedAt := Some(now))
    {
      DispatchFollowsLog(db, now, id);
    }
  }

  /** The replacement e-mail is nobody else's, nor is the licence number if the subject has a renter row. */
  ghost predicate ReplacementsFree(db: Db, user: int, with: Replacement) {
    && (forall u :: u in db.users && u != user ==> db.users[u].email != with.email)
    && ((exists r :: r in db.renters && db.renters[r].userId == Some(user)) ==>
          forall r :: r in db.renters && db.renters[r].userId != Some(user) ==> db.renters[r].licenseNumber != with.licenseNumber)
  }

  lemma ReplacementsFreeIff(db: Db, user: int, with: Replacement)
    ensures ReplacementsFree(db, user, with) <==> !Collides(db, user, with)
  {
    HasRenterIff(db, user);
  }

  lemma EraseOutcome(db: Db, actor: int, subject: int, with: Replacement, now: int, fails: bool)
    ensures Perform(db, Erase(actor, subject, with, now, fails))
            == if !(MayActFor(db, actor, subject) && subject in db.users) then TurnedAway(db, AnonymizeCall, actor, subject)
               else if db.users[subject].anonymizedAt.Some?
               then Audited(db, AnonymizeCall, actor, subject, ResultAlreadyAnonymized)
               else if fails || !ReplacementsFree(db, subject, with) then db
               else Audited(Erasure(db, subject, with, now), AnonymizeCall, actor, subject, ResultAnonymized)
  {
    ReplacementsFreeIff(db, subject, with);
  }

  // ---------- Unique columns ----------

  ghost predicate EmailsDiffer(db: Db) {
    forall u, v :: u in db.users && v in db.users && u != v ==> db.users[u].email != db.users[v].email
  }

  ghost predicate RentersDiffer(renters: map<int, Renter>) {
    forall r, s :: r in renters && s in renters && r != s ==>
      renters[r].licenseNumber != renters[s].licenseNumber && (renters[r].userId.None? || renters[r].userId != renters[s].userId)
  }

  ghost predicate Unique(db: Db) {
    EmailsDiffer(db) && RentersDiffer(db.renters)
  }

  lemma ErasureKeepsRenters(db: Db, user: int, with: Replacement)
    requires RentersDiffer(db.renters) && ReplacementsFree(db, user, with)
    ensures RentersDiffer(AnonymizedRenters(db.renters, user, with.licenseNumber))
  {
  }

  lemma ErasureKeepsUnique(db: Db, user: int, with: Replacement, now: int)
    requires user in db.users && Unique(db) && ReplacementsFree(db, user, with)
    ensures Unique(Erasure(db, user, with, now))
  {
    ErasureFrame(db, user, with, now);
    ErasureKeepsRenters(db, user, with);
  }

  lemma ChangeKeepsUnique(db: Db, change: Change)
    requires IdsBelowNext(db) && Unique(db)
    requires change.Erasing? ==> change.subject in db.users && ReplacementsFree(db, change.subject, change.with)
    requires change.NewUser? ==> forall u :: u in db.users ==> db.users[u].email != change.user.email
    requires change.NewRenter? ==>
               change.renter.userId.Some? && ProfileFree(db, change.renter.userId.value, change.renter.licenseNumber)
    ensures Unique(Changed(db, change))
  {
    if change.Erasing? {
      ErasureKeepsUnique(db, change.subject, change.with, change.now);
    }
  }

  lemma ChangesAreFree(db: Db, call: Call)
    ensures var change := ChangeOf(db, call);
            && (change.Erasing? ==> change.subject in db.users && ReplacementsFree(db, change.subject, change.with))
            && (change.NewUser? ==> forall u :: u in db.users ==> db.users[u].email != change.user.email)
            && (change.NewRenter? ==>
                  change.renter.userId.Some? && ProfileFree(db, change.renter.userId.value, change.renter.licenseNumber))
  {
    if call.Erase? {
      ReplacementsFreeIff(db, call.subject, call.with);
    } else if call.CreateProfile? {
      ProfileFreeIff(db, call.subject, call.licenseNumber);
    }
  }

  /** In every reachable state e-mails and licence numbers are unique, and a user has one renter row at most. */
  lemma {:induction false} RunKeepsUnique(calls: seq<Call>)
    ensures Unique(After(EMPTY, calls))
  {
    if calls != [] {
      var before, last := After(EMPTY, calls[..|calls| - 1]), calls[|calls| - 1];
      RunKeepsUnique(calls[..|calls| - 1]);
      RunKeepsInv(calls[..|calls| - 1]);
      ChangesAreFree(before, last);
      ChangeKeepsUnique(before, ChangeOf(before, last));
    }
  }
}
