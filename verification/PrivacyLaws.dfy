/** What holds over every run of API calls. */
module PrivacyLaws {
  import opened Wrappers
  import opened Consent
  import opened Privacy

  ghost predicate Inv(db: Db) {
    && (forall key :: Consistent(key, CellOf(db, key)))
    && IdsBelowNext(db)
  }

  ghost predicate IdsBelowNext(db: Db) {
    && (forall id :: id in db.users ==> id < db.nextId)
    && (forall id :: id in db.renters ==> id < db.nextId)
    && (forall id :: id in db.activity ==> id < db.nextId)
    && (forall id :: id in db.messages ==> id < db.nextId)
    && (forall id :: id in db.events ==> id < db.nextId)
  }

  // ---------- Every call keeps the invariant ----------

  lemma ConsentedKeepsInv(db: Db, key: Key, request: Request, now: int)
    requires Inv(db)
    ensures Inv(Consented(db, key, request, now))
  {
    forall k ensures Consistent(k, CellOf(Consented(db, key, request, now), k)) {
      ConsentedCell(db, key, request, now, k);
      ServeKeepsConsistent(key, CellOf(db, key), request, now);
    }
  }

  lemma {:induction false} WithdrawAllKeepsInv(db: Db, user: int, order: seq<Purpose>, source: string, now: int)
    requires Inv(db)
    ensures Inv(WithdrawAll(db, user, order, source, now))
  {
    if order != [] {
      WithdrawAllKeepsInv(db, user, order[..|order| - 1], source, now);
      ConsentedKeepsInv(WithdrawAll(db, user, order[..|order| - 1], source, now), (user, order[|order| - 1]), RevokeRequest(source), now);
    }
  }

  /** Changes outside the two consent tables leave every row the view of its log. */
  lemma OtherTablesKeepInv(db: Db, db': Db)
    requires Inv(db) && db'.consents == db.consents && db'.history == db.history
    requires IdsBelowNext(db')
    ensures Inv(db')
  {
    forall key ensures Consistent(key, CellOf(db', key)) {
      assert CellOf(db', key) == CellOf(db, key);
    }
  }

  lemma ErasureFrame(db: Db, user: int, with: Replacement, now: int)
    requires user in db.users
    ensures var db' := Erasure(db, user, with, now);
            db' == Scrubbed(db, user, with, now).(consents := db'.consents, history := db'.history)
  {
    WithdrawAllCells(Scrubbed(db, user, with, now), user, with.order, ERASURE_SOURCE, now, (user, MarketingEmail));
  }

  lemma ErasureKeepsInv(db: Db, user: int, with: Replacement, now: int)
    requires Inv(db) && user in db.users
    ensures Inv(Erasure(db, user, with, now))
  {
    OtherTablesKeepInv(db, Scrubbed(db, user, with, now));
    WithdrawAllKeepsInv(Scrubbed(db, user, with, now), user, with.order, ERASURE_SOURCE, now);
  }

  lemma RowChangeKeepsIds(db: Db, change: Change)
    requires IdsBelowNext(db) && !change.Consenting? && !change.Erasing?
    ensures var db' := Changed(db, change);
            IdsBelowNext(db') && db'.consents == db.consents && db'.history == db.history
  {
  }

  lemma ChangeKeepsInv(db: Db, change: Change)
    requires Inv(db)
    requires change.Erasing? ==> change.subject in db.users
    ensures Inv(Changed(db, change))
  {
    if change.Consenting? {
      ConsentedKeepsInv(db, change.key, change.request, change.now);
    } else if change.Erasing? {
      ErasureKeepsInv(db, change.subject, change.with, change.now);
      OtherTablesKeepInv(Erasure(db, change.subject, change.with, change.now), Changed(db, change));
    } else {
      RowChangeKeepsIds(db, change);
      OtherTablesKeepInv(db, Changed(db, change));
    }
  }

  lemma {:induction false} CallsKeepInv(db: Db, calls: seq<Call>)
    requires Inv(db)
    ensures Inv(After(db, calls))
  {
    if calls != [] {
      CallsKeepInv(db, calls[..|calls| - 1]);
      var before := After(db, calls[..|calls| - 1]);
      ChangeKeepsInv(before, ChangeOf(before, calls[|calls| - 1]));
    }
  }

  /** In every reachable state every consent row is the view of its well-formed log. */
  lemma RunKeepsInv(calls: seq<Call>)
    ensures Inv(After(EMPTY, calls))
  {
    CallsKeepInv(EMPTY, calls);
  }

  // ---------- Marketing ----------

  ghost predicate LastIsCurrentGrant(log: seq<Entry>) {
    log != [] && log[|log| - 1].action.Grant? && log[|log| - 1].policyVersion == CURRENT_POLICY_VERSION
  }

  /** Dispatch splits the queue by the log of each user, at one instant, and touches nothing else. */
  lemma DispatchFollowsLog(db: Db, now: int, id: int)
    requires Inv(db) && id in db.messages
    ensures var m, m' := db.messages[id], Dispatched(db, now).messages[id];
            if m.status.Queued? then
              && m' == m.(status := m'.status, processedAt := Some(now))
              && (m'.status.Sent? <==> LastIsCurrentGrant(LogOf(db.history, (m.userId, MarketingEmail))))
              && (m'.status.Skipped? <==> !LastIsCurrentGrant(LogOf(db.history, (m.userId, MarketingEmail))))
            else m' == m
  {
    var key := (db.messages[id].userId, MarketingEmail);
    GateReadsTheLog(key, CellOf(db, key), CURRENT_POLICY_VERSION);
  }

  /** An e-mail is queued iff the log ends in a current GRANT; a refusal only leaves an audit event. */
  lemma EmailGatedByLog(db: Db, call: Call)
    requires Inv(db) && call.QueueEmail? && MayAccess(db, call.actor, call.subject)
    ensures var reason := Gate(db, call.subject, MarketingEmail).reason;
            Perform(db, call)
            == if LastIsCurrentGrant(LogOf(db.history, (call.subject, MarketingEmail)))
               then db.(messages := db.messages[db.nextId := Message(call.subject, call.campaign, Queued, None)], nextId := db.nextId + 1)
               else db.(audit := db.audit + [AuditEvent(MarketingAction, call.actor, call.subject, GateDenied(reason))])
  {
    var key := (call.subject, MarketingEmail);
    GateReadsTheLog(key, CellOf(db, key), CURRENT_POLICY_VERSION);
  }

  /** The same for an analytics event. */
  lemma EventGatedByLog(db: Db, call: Call)
    requires Inv(db) && call.TrackEvent? && MayAccess(db, call.actor, call.subject)
    ensures var reason := Gate(db, call.subject, OptionalAnalytics).reason;
            Perform(db, call)
            == if LastIsCurrentGrant(LogOf(db.history, (call.subject, OptionalAnalytics)))
               then db.(events := db.events[db.nextId := AnalyticsEvent(call.subject, call.name)], nextId := db.nextId + 1)
               else db.(audit := db.audit + [AuditEvent(AnalyticsAction, call.actor, call.subject, GateDenied(reason))])
  {
    var key := (call.subject, OptionalAnalytics);
    GateReadsTheLog(key, CellOf(db, key), CURRENT_POLICY_VERSION);
  }

  lemma ErasureMessages(db: Db, user: int, with: Replacement, now: int)
    requires user in db.users
    ensures var db' := Erasure(db, user, with, now);
            db'.messages == db.messages - MessagesOf(db, user) && user in db'.users && db'.users[user].anonymizedAt == Some(now)
  {
    ErasureFrame(db, user, with, now);
  }

  lemma SettledByNoChange(db: Db, change: Change, id: int)
    requires Inv(db) && id in db.messages && !db.messages[id].status.Queued?
    requires change.Erasing? ==> change.subject in db.users
    ensures var messages := Changed(db, change).messages;
            if id in messages then messages[id] == db.messages[id] else change.Erasing? && change.subject == db.messages[id].userId
  {
    if change.Erasing? {
      ErasureMessages(db, change.subject, change.with, change.now);
    }
  }

  /** A settled message is never changed; only the erasure of its user removes it. */
  lemma SettledIsFinal(db: Db, call: Call, id: int)
    requires Inv(db) && id in db.messages && !db.messages[id].status.Queued?
    ensures var messages := Perform(db, call).messages;
            if id in messages then messages[id] == db.messages[id]
            else call.Erase? && call.subject == db.messages[id].userId && ChangeOf(db, call).Erasing?
  {
    SettledByNoChange(db, ChangeOf(db, call), id);
  }

  lemma OnlyDispatchingSends(db: Db, change: Change, id: int)
    requires change.Erasing? ==> change.subject in db.users
    requires change.NewMessage? ==> change.message.status.Queued?
    requires id in Changed(db, change).messages && Changed(db, change).messages[id].status.Sent?
    requires id in db.messages ==> !db.messages[id].status.Sent?
    ensures change.Dispatching? && id in db.messages && db.messages[id].status.Queued?
  {
    if change.Erasing? {
      ErasureMessages(db, change.subject, change.with, change.now);
    }
  }

  lemma OnlyDispatchSends(db: Db, call: Call, id: int)
    requires Inv(db) && (id in db.messages ==> !db.messages[id].status.Sent?)
    ensures id in Perform(db, call).messages && Perform(db, call).messages[id].status.Sent? ==>
              && call.Dispatch? && call.actor in db.users && db.users[call.actor].isActive && db.users[call.actor].role == Admin
              && id in db.messages && db.messages[id].status.Queued?
              && LastIsCurrentGrant(LogOf(db.history, (db.messages[id].userId, MarketingEmail)))
  {
    if id in Perform(db, call).messages && Perform(db, call).messages[id].status.Sent? {
      OnlyDispatchingSends(db, ChangeOf(db, call), id);
      DispatchFollowsLog(db, call.now, id);
    }
  }

  lemma PrefixOfPrefix(calls: seq<Call>, n: nat, i: nat)
    requires i <= n <= |calls|
    ensures calls[..n][..i] == calls[..i]
  {
  }

  /**
   * Over all runs: a message that is SENT was queued when some dispatch of the run found, as the
   * last history entry of its user for MARKETING_EMAIL, a GRANT of the current policy version.
   */
  lemma {:induction false} SentOnlyUnderCurrentGrant(calls: seq<Call>, id: int) returns (i: nat)
    requires id in After(EMPTY, calls).messages && After(EMPTY, calls).messages[id].status.Sent?
    ensures i < |calls| && calls[i].Dispatch?
    ensures var before := After(EMPTY, calls[..i]);
            && calls[i].actor in before.users && before.users[calls[i].actor].isActive
            && before.users[calls[i].actor].role == Admin
            && id in before.messages && before.messages[id].status.Queued?
            && LastIsCurrentGrant(LogOf(before.history, (before.messages[id].userId, MarketingEmail)))
    ensures id in After(EMPTY, calls[..i + 1]).messages && After(EMPTY, calls[..i + 1]).messages[id] == After(EMPTY, calls).messages[id]
  {
    var init, last := calls[..|calls| - 1], calls[|calls| - 1];
    RunKeepsInv(init);
    if id in After(EMPTY, init).messages && After(EMPTY, init).messages[id].status.Sent? {
      i := SentOnlyUnderCurrentGrant(init, id);
      SettledIsFinal(After(EMPTY, init), last, id);
      PrefixOfPrefix(calls, |calls| - 1, i);
      PrefixOfPrefix(calls, |calls| - 1, i + 1);
    } else {
      OnlyDispatchSends(After(EMPTY, init), last, id);
      i := |calls| - 1;
      assert calls[..i + 1] == calls;
    }
  }

  // ---------- Erasure ----------

  function Chosen(db: Db, user: int, order: seq<Purpose>): set<Purpose> {
    set p | p in order && GrantedTo(db, (user, p))
  }

  lemma RevokeGrows(db: Db, key: Key, source: string, now: int)
    ensures |Consented(db, key, RevokeRequest(source), now).history| == |db.history| + if GrantedTo(db, key) then 1 else 0
  {
  }

  lemma {:induction false} WithdrawAllCounts(db: Db, user: int, order: seq<Purpose>, source: string, now: int)
    requires Distinct(order)
    ensures |WithdrawAll(db, user, order, source, now).history| == |db.history| + |Chosen(db, user, order)|
  {
    if order != [] {
      var init, p := order[..|order| - 1], order[|order| - 1];
      var before := WithdrawAll(db, user, init, source, now);
      assert order == init + [p] && p !in init;
      WithdrawAllCounts(db, user, init, source, now);
      RevokeGrows(before, (user, p), source, now);
      assert GrantedTo(before, (user, p)) == GrantedTo(db, (user, p)) by {
        WithdrawAllCells(db, user, init, source, now, (user, p));
        assert RowOf(before, (user, p)) == RowOf(db, (user, p));
      }
      assert Chosen(db, user, order) == Chosen(db, user, init) + if GrantedTo(db, (user, p)) then {p} else {};
    }
  }

  lemma IsAPurpose(p: Purpose)
    ensures p in PURPOSES
  {
    assert PURPOSES[0] == MarketingEmail && PURPOSES[1] == OptionalAnalytics && PURPOSES[2] == Personalization;
  }

  lemma ChosenIsGranted(db: Db, user: int, order: RowOrder)
    ensures Chosen(db, user, order) == GrantedPurposes(db, user)
  {
    forall p ensures p in Chosen(db, user, order) <==> p in GrantedPurposes(db, user) {
      IsAPurpose(p);
    }
  }

  /** One REVOKE per granted purpose of the subject, at the end of the history, and no other consent moves. */
  lemma ErasureConsents(db: Db, user: int, with: Replacement, now: int, k: Key)
    requires user in db.users
    ensures var db' := Erasure(db, user, with, now);
            && CellOf(db', k) == (if k.0 == user then Serve(CellOf(db, k), k, RevokeRequest(ERASURE_SOURCE), now) else CellOf(db, k))
            && LogOf(db'.history, k) == LogOf(db.history, k)
               + (if k.0 == user && GrantedTo(db, k) then [Entry(k, Revoke, db.consents[k].policyVersion, ERASURE_SOURCE, now)] else [])
            && (GrantedTo(db', k) <==> k.0 != user && GrantedTo(db, k))
  {
    var scrubbed := Scrubbed(db, user, with, now);
    IsAPurpose(k.1);
    WithdrawAllCells(scrubbed, user, with.order, ERASURE_SOURCE, now, k);
    assert CellOf(scrubbed, k) == CellOf(db, k);
    assert RowOf(Erasure(db, user, with, now), k) == CellOf(Erasure(db, user, with, now), k).row;
  }

  lemma ErasureHistory(db: Db, user: int, with: Replacement, now: int)
    requires user in db.users
    ensures var db' := Erasure(db, user, with, now);
            db.history <= db'.history && |db'.history| == |db.history| + Affected(db, user).consents
  {
    var scrubbed := Scrubbed(db, user, with, now);
    WithdrawAllCells(scrubbed, user, with.order, ERASURE_SOURCE, now, (user, MarketingEmail));
    WithdrawAllCounts(scrubbed, user, with.order, ERASURE_SOURCE, now);
    ChosenIsGranted(scrubbed, user, with.order);
    assert GrantedPurposes(scrubbed, user) == GrantedPurposes(db, user);
  }

  lemma Removed<V>(m: map<int, V>, gone: set<int>)
    requires gone <= m.Keys
    ensures |m - gone| + |gone| == |m|
  {
    assert (m - gone).Keys == m.Keys - gone;
  }

  lemma ErasureDeletes(db: Db, user: int, with: Replacement, now: int)
    requires user in db.users
    ensures var db' := Erasure(db, user, with, now);
            && db'.activity == db.activity - ActivityOf(db, user)
            && db'.messages == db.messages - MessagesOf(db, user)
            && db'.events == db.events - EventsOf(db, user)
  {
    ErasureFrame(db, user, with, now);
  }

  /** What is left of a table when exactly the rows of some ids are gone. */
  ghost predicate Keeps<V(!new)>(before: map<int, V>, after: map<int, V>, kept: V -> bool) {
    && (forall id :: id in after <==> id in before && kept(before[id]))
    && (forall id :: id in after ==> after[id] == before[id])
  }

  /** Nobody else's row changes, every rental stays, and exactly the subject's behavioural rows are gone. */
  lemma ErasureTouchesOnlySubject(db: Db, user: int, with: Replacement, now: int)
    requires user in db.users
    ensures var db' := Erasure(db, user, with, now);
            && db'.rentals == db.rentals && db'.audit == db.audit && db'.nextId == db.nextId
            && db'.users.Keys == db.users.Keys && (forall u :: u in db.users && u != user ==> db'.users[u] == db.users[u])
            && db'.renters.Keys == db.renters.Keys
            && (forall r :: r in db.renters && db.renters[r].userId != Some(user) ==> db'.renters[r] == db.renters[r])
            && Keeps(db.activity, db'.activity, (a: Activity) => a.userId != user)
            && Keeps(db.messages, db'.messages, (m: Message) => m.userId != user)
            && Keeps(db.events, db'.events, (e: AnalyticsEvent) => e.userId != user)
  {
    ErasureFrame(db, user, with, now);
  }

  lemma RentersOverwritten(db: Db, user: int, with: Replacement, now: int)
    requires user in db.users
    ensures var db' := Erasure(db, user, with, now);
            && RentersOf(db', user) == RentersOf(db, user)
            && (set id | id in db'.renters && db'.renters[id].userId == Some(user)) == RentersOf(db, user)
            && (forall id :: id in db'.renters && db'.renters[id].userId == Some(user) ==>
                  db'.renters[id] == Renter(ANONYMIZED_NAME, with.licenseNumber, Some(user)))
  {
    ErasureFrame(db, user, with, now);
    assert RentersOf(Erasure(db, user, with, now), user) == RentersOf(db, user);
  }

  /** The returned counts are the numbers of rows affected. */
  lemma CountsAreRowsAffected(db: Db, user: int, with: Replacement, now: int)
    requires user in db.users
    ensures var db', counts := Erasure(db, user, with, now), Affected(db, user);
            && counts.activity == |db.activity| - |db'.activity|
            && counts.messages == |db.messages| - |db'.messages|
            && counts.events == |db.events| - |db'.events|
            && counts.consents == |db'.history| - |db.history|
            && counts.renters == |set id | id in db'.renters && db'.renters[id].userId == Some(user)|
            && (forall id :: id in db'.renters && db'.renters[id].userId == Some(user) ==>
                  db'.renters[id] == Renter(ANONYMIZED_NAME, with.licenseNumber, Some(user)))
  {
    ErasureDeletes(db, user, with, now);
    ErasureHistory(db, user, with, now);
    Removed(db.activity, ActivityOf(db, user));
    Removed(db.messages, MessagesOf(db, user));
    Removed(db.events, EventsOf(db, user));
    RentersOverwritten(db, user, with, now);
  }
}
