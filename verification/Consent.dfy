/**
 * Consent of one user for one purpose: the current row, the append-only evidence log, and the
 * requests that change both. The row is a view of the log.
 */
module Consent {
  import opened Wrappers

  datatype Purpose = MarketingEmail | OptionalAnalytics | Personalization

  datatype Status = Granted | Withdrawn

  datatype Action = Grant | Revoke

  type Key = (int, Purpose)

  datatype Row = Row(
    status: Status,
    policyVersion: string,
    grantedAt: Option<int>,
    withdrawnAt: Option<int>,
    updatedAt: int,
    source: string)

  datatype Entry = Entry(key: Key, action: Action, policyVersion: string, source: string, occurredAt: int)

  datatype Request = GrantRequest(policyVersion: string, source: string) | RevokeRequest(source: string)

  /** The row and the log entry that a request writes at time `now`, or nothing if it changes nothing. */
  function Effect(row: Option<Row>, key: Key, request: Request, now: int): Option<(Row, Entry)> {
    match request
    case GrantRequest(version, source) =>
      if row.Some? && row.value.status.Granted? && row.value.policyVersion == version then None
      else
        var withdrawnAt := if row.Some? then row.value.withdrawnAt else None;
        Some((Row(Granted, version, Some(now), withdrawnAt, now, source), Entry(key, Grant, version, source, now)))
    case RevokeRequest(source) =>
      if row.None? || row.value.status.Withdrawn? then None
      else
        Some((row.value.(status := Withdrawn, withdrawnAt := Some(now), updatedAt := now, source := source),
              Entry(key, Revoke, row.value.policyVersion, source, now)))
  }

  /** The row with its log. */
  datatype Cell = Cell(row: Option<Row>, log: seq<Entry>)

  function Serve(cell: Cell, key: Key, request: Request, now: int): Cell {
    var effect := Effect(cell.row, key, request, now);
    if effect.None? then cell else Cell(Some(effect.value.0), cell.log + [effect.value.1])
  }

  /** A request served at a time. */
  datatype Served = Served(request: Request, now: int)

  function ServeAll(key: Key, requests: seq<Served>): Cell {
    if requests == [] then Cell(None, [])
    else
      var last := requests[|requests| - 1];
      Serve(ServeAll(key, requests[..|requests| - 1]), key, last.request, last.now)
  }

  // ---------- The row is the view of its log ----------

  function LastOf(log: seq<Entry>, action: Action): Option<Entry> {
    if log == [] then None
    else if log[|log| - 1].action == action then Some(log[|log| - 1])
    else LastOf(log[..|log| - 1], action)
  }

  function TimeOf(entry: Option<Entry>): Option<int> {
    if entry.Some? then Some(entry.value.occurredAt) else None
  }

  /** Status and source of the last entry, version of the last GRANT, times of the last of each kind. */
  function View(log: seq<Entry>): Option<Row> {
    if log == [] then None
    else
      var last, grant := log[|log| - 1], LastOf(log, Grant);
      Some(Row(
        if last.action.Grant? then Granted else Withdrawn,
        if grant.Some? then grant.value.policyVersion else last.policyVersion,
        TimeOf(grant),
        TimeOf(LastOf(log, Revoke)),
        last.occurredAt,
        last.source))
  }

  ghost predicate MayFollow(e: Entry, f: Entry) {
    match f.action
    case Grant => e.action.Grant? ==> e.policyVersion != f.policyVersion
    case Revoke => e.action.Grant? && e.policyVersion == f.policyVersion
  }

  /** Of this key only, and starting with a GRANT. */
  ghost predicate Rooted(key: Key, log: seq<Entry>) {
    && (forall i :: 0 <= i < |log| ==> log[i].key == key)
    && (log != [] ==> log[0].action.Grant?)
  }

  ghost predicate Chained(log: seq<Entry>) {
    forall i :: 0 < i < |log| ==> MayFollow(log[i - 1], log[i])
  }

  /**
   * Starts with a GRANT; every REVOKE withdraws the version granted just before it, so no two
   * are adjacent; adjacent GRANTs differ in version.
   */
  ghost predicate WellFormed(key: Key, log: seq<Entry>) {
    Rooted(key, log) && Chained(log)
  }

  ghost predicate Consistent(key: Key, cell: Cell) {
    WellFormed(key, cell.log) && cell.row == View(cell.log)
  }

  lemma {:induction false} GrantBelow(key: Key, log: seq<Entry>)
    requires Rooted(key, log) && log != []
    ensures LastOf(log, Grant).Some?
  {
    if log[|log| - 1].action.Revoke? {
      GrantBelow(key, log[..|log| - 1]);
    }
  }

  lemma LastOfAppended(log: seq<Entry>, e: Entry, action: Action)
    ensures LastOf(log + [e], action) == if e.action == action then Some(e) else LastOf(log, action)
  {
    assert (log + [e])[..|log|] == log;
  }

  lemma ChainAppended(log: seq<Entry>, e: Entry)
    ensures Chained(log + [e]) <==> Chained(log) && (log != [] ==> MayFollow(log[|log| - 1], e))
  {
    var longer := log + [e];
    assert forall i :: 0 <= i < |log| ==> longer[i] == log[i];
    if Chained(longer) && log != [] {
      assert MayFollow(longer[|log| - 1], longer[|log|]);
    }
    if Chained(longer) {
      forall i | 0 < i < |log| ensures MayFollow(log[i - 1], log[i]) {
        assert MayFollow(longer[i - 1], longer[i]);
      }
    }
  }

  /** Whatever came before, a request on a row that is the view of its log appends what may follow. */
  lemma EffectMayFollow(key: Key, cell: Cell, request: Request, now: int)
    requires Rooted(key, cell.log) && cell.row == View(cell.log) && Effect(cell.row, key, request, now).Some?
    ensures var e := Effect(cell.row, key, request, now).value.1;
            && e.key == key
            && (if cell.log == [] then e.action.Grant? else MayFollow(cell.log[|cell.log| - 1], e))
  {
    if cell.log != [] {
      GrantBelow(key, cell.log);
    }
  }

  /** The view of a log and one more entry. */
  function ViewAfter(log: seq<Entry>, e: Entry): Row {
    var grant := if e.action.Grant? then Some(e) else LastOf(log, Grant);
    var revoke := if e.action.Revoke? then Some(e) else LastOf(log, Revoke);
    Row(
      if e.action.Grant? then Granted else Withdrawn,
      if grant.Some? then grant.value.policyVersion else e.policyVersion,
      TimeOf(grant), TimeOf(revoke), e.occurredAt, e.source)
  }

  lemma ViewAppended(log: seq<Entry>, e: Entry)
    ensures View(log + [e]) == Some(ViewAfter(log, e))
  {
    LastOfAppended(log, e, Grant);
    LastOfAppended(log, e, Revoke);
  }

  lemma EffectIsViewed(key: Key, cell: Cell, request: Request, now: int)
    requires Rooted(key, cell.log) && cell.row == View(cell.log) && Effect(cell.row, key, request, now).Some?
    ensures var effect := Effect(cell.row, key, request, now).value;
            effect.0 == ViewAfter(cell.log, effect.1)
  {
    if cell.log != [] {
      GrantBelow(key, cell.log);
    }
  }

  lemma RootAppended(key: Key, log: seq<Entry>, e: Entry)
    requires Rooted(key, log) && e.key == key && (log == [] ==> e.action.Grant?)
    ensures Rooted(key, log + [e])
  {
  }

  /** A request keeps the row the view of its log, and breaks no chain that is whole. */
  lemma ServeKeepsView(key: Key, cell: Cell, request: Request, now: int)
    requires Rooted(key, cell.log) && cell.row == View(cell.log)
    ensures var cell' := Serve(cell, key, request, now);
            Rooted(key, cell'.log) && cell'.row == View(cell'.log) && (Chained(cell'.log) <==> Chained(cell.log))
  {
    var effect := Effect(cell.row, key, request, now);
    if effect.Some? {
      var e := effect.value.1;
      EffectMayFollow(key, cell, request, now);
      EffectIsViewed(key, cell, request, now);
      RootAppended(key, cell.log, e);
      ViewAppended(cell.log, e);
      ChainAppended(cell.log, e);
    }
  }

  lemma ServeKeepsConsistent(key: Key, cell: Cell, request: Request, now: int)
    requires Consistent(key, cell)
    ensures Consistent(key, Serve(cell, key, request, now))
  {
    ServeKeepsView(key, cell, request, now);
  }

  /** Every sequence of grants and revokes leaves a well-formed log whose view is the row. */
  lemma {:induction false} RowIsViewOfLog(key: Key, requests: seq<Served>)
    ensures Consistent(key, ServeAll(key, requests))
  {
    if requests != [] {
      RowIsViewOfLog(key, requests[..|requests| - 1]);
      var last := requests[|requests| - 1];
      ServeKeepsConsistent(key, ServeAll(key, requests[..|requests| - 1]), last.request, last.now);
    }
  }

  function Replay(log: seq<Entry>): seq<Served> {
    seq(|log|, i requires 0 <= i < |log| =>
      Served(if log[i].action.Grant? then GrantRequest(log[i].policyVersion, log[i].source) else RevokeRequest(log[i].source),
             log[i].occurredAt))
  }

  /** And every well-formed log is the log of some run: replaying its entries rebuilds it. */
  lemma {:induction false} ReplayRebuildsLog(key: Key, log: seq<Entry>)
    requires WellFormed(key, log)
    ensures ServeAll(key, Replay(log)).log == log
  {
    if log != [] {
      var init := log[..|log| - 1];
      assert Replay(log)[..|log| - 1] == Replay(init);
      assert WellFormed(key, init);
      ReplayRebuildsLog(key, init);
      RowIsViewOfLog(key, Replay(init));
      if init != [] {
        GrantBelow(key, init);
        assert MayFollow(log[|log| - 2], log[|log| - 1]);
      }
    }
  }

  // ---------- The gate ----------

  const CURRENT_POLICY_VERSION := "2026-01"

  datatype Reason = ReasonGranted | ReasonMissing | ReasonWithdrawn | ReasonVersion

  datatype GateDecision = GateDecision(allowed: bool, reason: Reason)

  function Decide(row: Option<Row>, requiredVersion: string): GateDecision {
    if row.None? then GateDecision(false, ReasonMissing)
    else if row.value.status != Granted then GateDecision(false, ReasonWithdrawn)
    else if row.value.policyVersion != requiredVersion then GateDecision(false, ReasonVersion)
    else GateDecision(true, ReasonGranted)
  }

  /** The gate answers from the log: allowed iff its last entry is a GRANT of the required version. */
  lemma GateReadsTheLog(key: Key, cell: Cell, version: string)
    requires Consistent(key, cell)
    ensures var d, log := Decide(cell.row, version), cell.log;
            && (d.allowed <==> log != [] && log[|log| - 1].action.Grant? && log[|log| - 1].policyVersion == version)
            && (d.reason == ReasonMissing <==> log == [])
            && (d.reason == ReasonWithdrawn <==> log != [] && log[|log| - 1].action.Revoke?)
            && (d.reason == ReasonVersion <==>
                  log != [] && log[|log| - 1].action.Grant? && log[|log| - 1].policyVersion != version)
  {
    if cell.log != [] {
      GrantBelow(key, cell.log);
    }
  }
}
