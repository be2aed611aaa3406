/** The service code over the tables it changes in place, with its failures and rollbacks. */
module PrivacyStore {
  import opened Wrappers
  import opened Sets
  import opened Consent
  import opened Privacy
  import opened PrivacyLaws
  import opened ApiLaws

  /** The verdict on one queued message, fixed before any row is touched. */
  datatype DispatchOutcome = DispatchOutcome(id: int, allowed: bool, processedAt: int) {
    function Status(): MessageStatus { if allowed then Sent else Skipped }
  }

  datatype Summary = Summary(sent: nat, skipped: nat)

  datatype DispatchError = GateFailed | CommitFailed

  datatype EraseStatus = Anonymized(counts: Counts) | AlreadyAnonymized | UserNotFound | RolledBack

  function Tally(outcomes: seq<DispatchOutcome>, status: MessageStatus): nat {
    if outcomes == [] then 0
    else Tally(outcomes[..|outcomes| - 1], status) + if outcomes[|outcomes| - 1].Status() == status then 1 else 0
  }

  ghost function IdsWith(outcomes: seq<DispatchOutcome>, status: MessageStatus): set<int> {
    if outcomes == [] then {}
    else
      var ids, o := IdsWith(outcomes[..|outcomes| - 1], status), outcomes[|outcomes| - 1];
      if o.Status() == status then ids + {o.id} else ids
  }

  ghost predicate DistinctIds(outcomes: seq<DispatchOutcome>) {
    forall i, j :: 0 <= i < j < |outcomes| ==> outcomes[i].id != outcomes[j].id
  }

  lemma {:induction false} IdsWithListed(outcomes: seq<DispatchOutcome>, status: MessageStatus, id: int)
    ensures id in IdsWith(outcomes, status) <==> exists i :: 0 <= i < |outcomes| && outcomes[i].id == id && outcomes[i].Status() == status
  {
    if outcomes != [] {
      var init := outcomes[..|outcomes| - 1];
      IdsWithListed(init, status, id);
      assert forall i :: 0 <= i < |init| ==> init[i] == outcomes[i];
    }
  }

  lemma {:induction false} TallyCountsIds(outcomes: seq<DispatchOutcome>, status: MessageStatus)
    requires DistinctIds(outcomes)
    ensures Tally(outcomes, status) == |IdsWith(outcomes, status)|
  {
    if outcomes != [] {
      var init, o := outcomes[..|outcomes| - 1], outcomes[|outcomes| - 1];
      TallyCountsIds(init, status);
      IdsWithListed(init, status, o.id);
    }
  }

  /** The message table once the verdicts of a batch have been applied. */
  ghost function Settling(before: map<int, Message>, outcomes: seq<DispatchOutcome>): map<int, Message>
    requires forall i :: 0 <= i < |outcomes| ==> outcomes[i].id in before
  {
    if outcomes == [] then before
    else
      var done, o := Settling(before, outcomes[..|outcomes| - 1]), outcomes[|outcomes| - 1];
      done[o.id := before[o.id].(status := o.Status(), processedAt := Some(o.processedAt))]
  }

  lemma {:induction false} SettlingAt(before: map<int, Message>, outcomes: seq<DispatchOutcome>, id: int)
    requires forall i :: 0 <= i < |outcomes| ==> outcomes[i].id in before
    requires DistinctIds(outcomes)
    ensures Settling(before, outcomes).Keys == before.Keys
    ensures (forall i :: 0 <= i < |outcomes| ==> outcomes[i].id != id) && id in before ==> Settling(before, outcomes)[id] == before[id]
    ensures forall i :: 0 <= i < |outcomes| && outcomes[i].id == id ==>
              Settling(before, outcomes)[id] == before[id].(status := outcomes[i].Status(), processedAt := Some(outcomes[i].processedAt))
  {
    if outcomes != [] {
      var init := outcomes[..|outcomes| - 1];
      assert forall i :: 0 <= i < |init| ==> init[i] == outcomes[i];
      SettlingAt(before, init, id);
    }
  }

  /** The verdicts name the queued messages once each, by the gate's answer, at one instant. */
  ghost predicate Decided(db: Db, outcomes: seq<DispatchOutcome>, now: int) {
    && DistinctIds(outcomes)
    && (forall i :: 0 <= i < |outcomes| ==>
          var o := outcomes[i];
          && o.id in db.messages && db.messages[o.id].status.Queued? && o.processedAt == now
          && o.allowed == Gate(db, db.messages[o.id].userId, MarketingEmail).allowed)
  }

  ghost predicate Complete(db: Db, outcomes: seq<DispatchOutcome>) {
    forall id :: id in QueuedIds(db) ==> exists i :: 0 <= i < |outcomes| && outcomes[i].id == id
  }

  lemma SettlingIsDispatch(db: Db, outcomes: seq<DispatchOutcome>, now: int)
    requires Decided(db, outcomes, now)
    requires Complete(db, outcomes)
    ensures Settling(db.messages, outcomes) == Dispatched(db, now).messages
  {
    var settled, dispatched := Settling(db.messages, outcomes), Dispatched(db, now).messages;
    SettlingAt(db.messages, outcomes, 0);
    assert settled.Keys == dispatched.Keys;
    forall id | id in db.messages ensures settled[id] == dispatched[id] {
      SettlingAt(db.messages, outcomes, id);
      assert db.messages[id].status.Queued? ==> id in QueuedIds(db);
    }
  }

  /** The rows of the batch that ended up in a status. */
  ghost function BatchIn(before: Db, after: Db, status: MessageStatus): set<int> {
    set id | id in QueuedIds(before) && id in after.messages && after.messages[id].status == status
  }

  lemma TallyIsBatch(db: Db, outcomes: seq<DispatchOutcome>, now: int, status: MessageStatus)
    requires Decided(db, outcomes, now)
    requires Complete(db, outcomes)
    ensures Tally(outcomes, status) == |BatchIn(db, Dispatched(db, now), status)|
  {
    TallyCountsIds(outcomes, status);
    forall id ensures id in IdsWith(outcomes, status) <==> id in BatchIn(db, Dispatched(db, now), status) {
      IdsWithListed(outcomes, status, id);
      if id in QueuedIds(db) {
        var i :| 0 <= i < |outcomes| && outcomes[i].id == id;
        assert Verdict(db, db.messages[id], now).status == outcomes[i].Status();
      }
    }
    assert IdsWith(outcomes, status) == BatchIn(db, Dispatched(db, now), status);
  }

  /** A database session: the tables as the service code sees and changes them. */
  class Session {
    var db: Db

    /** Repeating a GRANT of the same version changes nothing. */
    method GrantConsent(key: Key, policyVersion: string, source: string, now: int) returns (changed: bool)
      modifies this
      ensures db == Consented(old(db), key, GrantRequest(policyVersion, source), now)
      ensures GrantedTo(db, key) && db.consents[key].policyVersion == policyVersion
      ensures changed <==> |db.history| == |old(db).history| + 1
      ensures !changed ==> db == old(db)
    {
      var consent := RowOf(db, key);
      if consent.Some? && consent.value.status == Granted && consent.value.policyVersion == policyVersion {
        return false;
      }
      var withdrawnAt := if consent.Some? then consent.value.withdrawnAt else None;
      var row := Row(Granted, policyVersion, Some(now), withdrawnAt, now, source);
      db := db.(consents := db.consents[key := row], history := db.history + [Entry(key, Grant, policyVersion, source, now)]);
      return true;
    }

    /** Revoking a missing or withdrawn consent changes nothing. */
    method RevokeConsent(key: Key, source: string, now: int) returns (changed: bool)
      modifies this
      ensures db == Consented(old(db), key, RevokeRequest(source), now)
      ensures !GrantedTo(db, key)
      ensures changed <==> GrantedTo(old(db), key)
      ensures |db.history| == |old(db).history| + if changed then 1 else 0
      ensures !changed ==> db == old(db)
    {
      var consent := RowOf(db, key);
      if consent.None? || consent.value.status == Withdrawn {
        return false;
      }
      var row := consent.value.(status := Withdrawn, withdrawnAt := Some(now), updatedAt := now, source := source);
      db := db.(consents := db.consents[key := row], history := db.history + [Entry(key, Revoke, row.policyVersion, source, now)]);
      return true;
    }

    /** Part of the caller's transaction: the number of consents it withdraws. */
    method WithdrawAllConsents(user: int, order: RowOrder, source: string, now: int) returns (count: nat)
      modifies this
      ensures db == WithdrawAll(old(db), user, order, source, now)
      ensures count == |GrantedPurposes(old(db), user)|
    {
      count := 0;
      for i := 0 to |order|
        invariant db == WithdrawAll(old(db), user, order[..i], source, now)
        invariant |db.history| == |old(db).history| + count
      {
        assert order[..i + 1][..i] == order[..i];
        var withdrawn := RevokeConsent((user, order[i]), source, now);
        if withdrawn {
          count := count + 1;
        }
      }
      assert order[..|order|] == order;
      WithdrawAllCounts(old(db), user, order, source, now);
      ChosenIsGranted(old(db), user, order);
    }

    /** Every verdict of the batch, unless the gate fails at some message; no row is touched. */
    method DecideQueue(now: int, gateFailsAt: nat) returns (outcomes: Result<seq<DispatchOutcome>, DispatchError>)
      ensures outcomes.Err? <==> gateFailsAt < |QueuedIds(db)|
      ensures outcomes.Err? ==> outcomes.error == GateFailed
      ensures outcomes.Ok? ==> Decided(db, outcomes.value, now) && Complete(db, outcomes.value)
      ensures outcomes.Ok? ==> |outcomes.value| == |QueuedIds(db)|
    {
      var queued := QueuedIds(db);
      var verdicts: seq<DispatchOutcome> := [];
      while queued != {}
        invariant queued <= QueuedIds(db)
        invariant |verdicts| + |queued| == |QueuedIds(db)| && |verdicts| <= gateFailsAt
        invariant Decided(db, verdicts, now)
        invariant forall i :: 0 <= i < |verdicts| ==> verdicts[i].id !in queued
        invariant forall id :: id in QueuedIds(db) && id !in queued ==> exists i :: 0 <= i < |verdicts| && verdicts[i].id == id
        decreases |queued|
      {
        HasMember(queued);
        var id :| id in queued;
        if |verdicts| == gateFailsAt {
          return Err(GateFailed);
        }
        var decision := Gate(db, db.messages[id].userId, MarketingEmail);
        ghost var known := verdicts;
        verdicts := verdicts + [DispatchOutcome(id, decision.allowed, now)];
        assert forall i :: 0 <= i < |known| ==> verdicts[i] == known[i];
        assert verdicts[|known|].id == id;
        queued := queued - {id};
      }
      return Ok(verdicts);
    }

    /**
     * Decide first, change rows second: it either raises with every row as it was, or settles
     * the whole queue and reports how many rows of the batch went each way.
     */
    method DispatchPending(now: int, gateFailsAt: nat, commitFails: bool) returns (summary: Result<Summary, DispatchError>)
      modifies this
      ensures summary.Err? <==> gateFailsAt < |QueuedIds(old(db))| || commitFails
      ensures summary.Err? ==> db == old(db)
      ensures summary.Ok? ==> db == Dispatched(old(db), now)
      ensures summary.Ok? ==>
                && summary.value.sent == |BatchIn(old(db), db, Sent)|
                && summary.value.skipped == |BatchIn(old(db), db, Skipped)|
                && summary.value.sent + summary.value.skipped == |QueuedIds(old(db))|
    {
      var decided := DecideQueue(now, gateFailsAt);
      if decided.Err? {
        return Err(decided.error);
      }
      var outcomes, before := decided.value, db;
      for i := 0 to |outcomes|
        invariant forall j :: 0 <= j < |outcomes| ==> outcomes[j].id in before.messages
        invariant db == before.(messages := Settling(before.messages, outcomes[..i]))
      {
        assert outcomes[..i + 1][..i] == outcomes[..i];
        SettlingAt(before.messages, outcomes[..i], outcomes[i].id);
        var id := outcomes[i].id;
        var message := db.messages[id].(status := outcomes[i].Status(), processedAt := Some(outcomes[i].processedAt));
        db := db.(messages := db.messages[id := message]);
      }
      if commitFails {
        db := before;
        return Err(CommitFailed);
      }
      assert outcomes[..|outcomes|] == outcomes;
      SettlingIsDispatch(before, outcomes, now);
      TallyIsBatch(before, outcomes, now, Sent);
      TallyIsBatch(before, outcomes, now, Skipped);
      TalliesAddUp(outcomes);
      return Ok(Summary(Tally(outcomes, Sent), Tally(outcomes, Skipped)));
    }

    method AnonymizeRenters(user: int, with: Replacement) returns (count: nat)
      modifies this
      ensures db == old(db).(renters := AnonymizedRenters(old(db).renters, user, with.licenseNumber))
      ensures count == |RentersOf(old(db), user)|
    {
      var own, before := RentersOf(db, user), db;
      ghost var spec := AnonymizedRenters(db.renters, user, with.licenseNumber);
      count := |own|;
      while own != {}
        invariant own <= RentersOf(before, user) && db == before.(renters := db.renters) && db.renters.Keys == spec.Keys
        invariant forall id :: id in spec ==> db.renters[id] == if id in own then before.renters[id] else spec[id]
        decreases |own|
      {
        HasMember(own);
        var id :| id in own;
        var renter := db.renters[id].(fullName := ANONYMIZED_NAME, licenseNumber := with.licenseNumber);
        db := db.(renters := db.renters[id := renter]);
        own := own - {id};
      }
      assert forall id :: id in spec ==> db.renters[id] == spec[id];
      assert db.renters == spec;
    }

    /** The statements of _erase; one of them may raise, and then some tables are already changed. */
    method EraseRows(user: int, with: Replacement, now: int, raisesAt: nat) returns (counts: Option<Counts>)
      requires user in db.users
      modifies this
      ensures counts.None? <==> raisesAt < 5
      ensures counts.Some? ==> db == Erasure(old(db), user, with, now) && counts.value == Affected(old(db), user)
    {
      var account := db.users[user].(
        email := with.email, hashedPassword := with.hashedPassword, fullName := ANONYMIZED_NAME,
        phone := None, isActive := false, anonymizedAt := Some(now));
      db := db.(users := db.users[user := account]);
      if raisesAt == 0 {
        return None;
      }
      var renters := AnonymizeRenters(user, with);
      if raisesAt == 1 {
        return None;
      }
      var activity := ActivityOf(db, user);
      db := db.(activity := db.activity - activity);
      if raisesAt == 2 {
        return None;
      }
      var messages := MessagesOf(db, user);
      db := db.(messages := db.messages - messages);
      if raisesAt == 3 {
        return None;
      }
      var events := EventsOf(db, user);
      db := db.(events := db.events - events);
      if raisesAt == 4 {
        return None;
      }
      assert db == Scrubbed(old(db), user, with, now);
      assert GrantedPurposes(db, user) == GrantedPurposes(old(db), user);
      var consents := WithdrawAllConsents(user, with.order, ERASURE_SOURCE, now);
      return Some(Counts(renters, |activity|, |messages|, |events|, consents));
    }

    /**
     * One transaction. A missing user, and a failure at any statement or at the commit (which
     * also refuses a replacement value that is not unique), leave every table as it was; an
     * erased user only gains an audit event.
     */
    method AnonymizeUser(actor: int, subject: int, with: Replacement, now: int, raisesAt: nat, commitFails: bool)
      returns (status: EraseStatus)
      modifies this
      ensures status.UserNotFound? <==> subject !in old(db).users
      ensures status.UserNotFound? || status.RolledBack? ==> db == old(db)
      ensures subject in old(db).users ==>
                db == Changed(old(db), EraseChange(old(db), actor, subject, with, now, raisesAt < 5 || commitFails))
      ensures status.AlreadyAnonymized? <==> subject in old(db).users && old(db).users[subject].anonymizedAt.Some?
      ensures status.Anonymized? <==>
                && subject in old(db).users && old(db).users[subject].anonymizedAt.None?
                && raisesAt >= 5 && !commitFails && ReplacementsFree(old(db), subject, with)
      ensures status.Anonymized? ==> status.counts == Affected(old(db), subject)
    {
      if subject !in db.users {
        return UserNotFound;
      }
      if db.users[subject].anonymizedAt.Some? {
        db := db.(audit := db.audit + [AuditEvent(AnonymizeCall, actor, subject, ResultAlreadyAnonymized)]);
        return AlreadyAnonymized;
      }
      ReplacementsFreeIff(db, subject, with);
      var before, unique := db, !Collides(db, subject, with);
      var counts := EraseRows(subject, with, now, raisesAt);
      if counts.Some? {
        db := db.(audit := db.audit + [AuditEvent(AnonymizeCall, actor, subject, ResultAnonymized)]);
        if unique && !commitFails {
          return Anonymized(counts.value);
        }
      }
      db := before;
      return RolledBack;
    }
  }

  lemma {:induction false} TalliesAddUp(outcomes: seq<DispatchOutcome>)
    ensures Tally(outcomes, Sent) + Tally(outcomes, Skipped) == |outcomes|
  {
    if outcomes != [] {
      TalliesAddUp(outcomes[..|outcomes| - 1]);
    }
  }
}
