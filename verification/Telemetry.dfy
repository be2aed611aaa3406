/**
 * The telemetry pipeline: a durable at-least-once queue, one sequential worker, the readings
 * table with its unique (vehicle, recorded_at) constraint, and the newest-wins Redis hash per
 * vehicle. The table and the hash are written one after the other and never together; only the
 * redelivery of an unsettled message repairs a half-done update.
 */
module Telemetry {
  import opened Wrappers

  datatype Reading = Reading(recordedAt: int, latitude: real, longitude: real, fuelLevel: real, isLocked: bool)

  datatype TelemetryMessage = TelemetryMessage(vehicleId: int, reading: Reading) {
    predicate InRange() {
      && vehicleId > 0
      && -90.0 <= reading.latitude <= 90.0
      && -180.0 <= reading.longitude <= 180.0
      && 0.0 <= reading.fuelLevel <= 100.0
    }

    function Key(): (int, int) { (vehicleId, reading.recordedAt) }
  }

  /** A message body: text that is not a telemetry object, or the fields it carries. */
  datatype Body = Garbage(text: string) | Fields(message: TelemetryMessage) {
    predicate Valid() { Fields? && message.InRange() }
  }

  /** How far the worker has come with the message in its hands. */
  datatype Stage = Received | Stored | CacheStale | Handled

  datatype Current = Current(body: Body, stage: Stage)

  datatype State = State(
    vehicles: set<int>,
    rows: seq<TelemetryMessage>,
    cache: map<int, Reading>,
    ready: multiset<Body>,
    current: Option<Current>)

  /**
   * Everything that can happen. A call may fail before it takes effect, or take effect and lose
   * its reply; the worker sees an exception in both cases and requeues. `Crash` also stands for
   * an acknowledgement that never reaches the broker.
   */
  datatype Step =
    | Publish(body: Body)
    | AddVehicle(id: int)
    | Deliver(body: Body)
    | RejectInvalid
    | RejectUnknown
    | SaveFails
    | SaveLosesReply
    | SaveSucceeds
    | CacheReadFails
    | CacheReadSucceeds
    | CacheWriteFails
    | CacheWriteLosesReply
    | CacheWriteSucceeds
    | Ack
    | Crash

  // ---------- The machine ----------

  predicate HasKey(rows: seq<TelemetryMessage>, key: (int, int)) {
    exists r :: r in rows && r.Key() == key
  }

  /** INSERT ... ON CONFLICT DO NOTHING. */
  function Insert(rows: seq<TelemetryMessage>, m: TelemetryMessage): seq<TelemetryMessage> {
    if HasKey(rows, m.Key()) then rows else rows + [m]
  }

  predicate CachedSince(cache: map<int, Reading>, key: (int, int)) {
    key.0 in cache && cache[key.0].recordedAt >= key.1
  }

  function Settled(s: State): State {
    s.(current := None)
  }

  function Requeued(s: State): State {
    if s.current.None? then s else s.(ready := s.ready + multiset{s.current.value.body}, current := None)
  }

  /** A step of the world; a step that is not enabled leaves everything as it is. */
  function Apply(s: State, step: Step): State {
    match step
    case Publish(b) => s.(ready := s.ready + multiset{b})
    case AddVehicle(v) => s.(vehicles := s.vehicles + {v})
    case Deliver(b) =>
      if s.current.None? && b in s.ready
      then s.(ready := s.ready - multiset{b}, current := Some(Current(b, Received)))
      else s
    case Crash => Requeued(s)
    case _ => if s.current.None? then s else Work(s, s.current.value, step)
  }

  /** The stage at which the worker takes a step on a valid message. */
  function StageFor(step: Step): Option<Stage> {
    match step
    case RejectUnknown => Some(Received)
    case SaveFails => Some(Received)
    case SaveLosesReply => Some(Received)
    case SaveSucceeds => Some(Received)
    case CacheReadFails => Some(Stored)
    case CacheReadSucceeds => Some(Stored)
    case CacheWriteFails => Some(CacheStale)
    case CacheWriteLosesReply => Some(CacheStale)
    case CacheWriteSucceeds => Some(CacheStale)
    case Ack => Some(Handled)
    case _ => None
  }

  /** A step of the worker on the message it holds. */
  function Work(s: State, c: Current, step: Step): State {
    if !c.body.Valid() then if step.RejectInvalid? then Settled(s) else s
    else if StageFor(step) != Some(c.stage) then s
    else
      var m := c.body.message;
      match step
      case RejectUnknown => if m.vehicleId in s.vehicles then s else Settled(s)
      case SaveLosesReply => if m.vehicleId in s.vehicles then Requeued(s.(rows := Insert(s.rows, m))) else s
      case SaveSucceeds =>
        if m.vehicleId in s.vehicles then s.(rows := Insert(s.rows, m), current := Some(Current(c.body, Stored))) else s
      case CacheReadSucceeds =>
        s.(current := Some(Current(c.body, if CachedSince(s.cache, m.Key()) then Handled else CacheStale)))
      case CacheWriteLosesReply => Requeued(s.(cache := s.cache[m.vehicleId := m.reading]))
      case CacheWriteSucceeds =>
        s.(cache := s.cache[m.vehicleId := m.reading], current := Some(Current(c.body, Handled)))
      case Ack => Settled(s)
      case _ => Requeued(s)
  }

  /** The state after a whole schedule. */
  function After(s: State, steps: seq<Step>): State {
    if steps == [] then s else Apply(After(s, steps[..|steps| - 1]), steps[|steps| - 1])
  }

  predicate Unsettled(s: State, b: Body) {
    b in s.ready || (s.current.Some? && s.current.value.body == b)
  }

  predicate Drained(s: State) {
    s.ready == multiset{} && s.current.None?
  }

  predicate Empty(s: State) {
    s.rows == [] && s.cache == map[] && Drained(s)
  }

  // ---------- What every step keeps ----------

  ghost predicate UniqueKeys(rows: seq<TelemetryMessage>) {
    forall i, j :: 0 <= i < j < |rows| ==> rows[i].Key() != rows[j].Key()
  }

  /** A message that carries this (vehicle, recorded_at) has still to be settled. */
  ghost predicate Pending(s: State, key: (int, int)) {
    exists b: Body :: b.Valid() && b.message.Key() == key && Unsettled(s, b)
  }

  ghost predicate StageHolds(s: State) {
    s.current.Some? && !s.current.value.stage.Received? ==>
      var c := s.current.value;
      && c.body.Valid()
      && HasKey(s.rows, c.body.message.Key())
      && (c.stage.CacheStale? ==> !CachedSince(s.cache, c.body.message.Key()))
      && (c.stage.Handled? ==> CachedSince(s.cache, c.body.message.Key()))
  }

  ghost predicate Inv(s: State) {
    && UniqueKeys(s.rows)
    && (forall r :: r in s.rows ==> r.vehicleId in s.vehicles)
    && (forall v :: v in s.cache ==> HasKey(s.rows, (v, s.cache[v].recordedAt)))
    && (forall r :: r in s.rows ==> CachedSince(s.cache, r.Key()) || Pending(s, r.Key()))
    && StageHolds(s)
  }

  lemma InsertKeeps(rows: seq<TelemetryMessage>, m: TelemetryMessage)
    ensures UniqueKeys(rows) ==> UniqueKeys(Insert(rows, m))
    ensures HasKey(Insert(rows, m), m.Key())
    ensures forall k :: HasKey(rows, k) ==> HasKey(Insert(rows, m), k)
    ensures forall r :: r in rows ==> r in Insert(rows, m)
    ensures forall r :: r in Insert(rows, m) ==> r in rows || r == m
  {
    var rows' := Insert(rows, m);
    assert forall r :: r in rows ==> r in rows';
    if !HasKey(rows, m.Key()) {
      assert m in rows';
    }
  }

  /** The table stays, or gains the message in the worker's hands, which stays unsettled. */
  ghost predicate RowsMove(s: State, s': State) {
    || s'.rows == s.rows
    || (exists b: Body ::
          && Unsettled(s, b) && Unsettled(s', b) && Accepted(s.vehicles, b)
          && s'.rows == Insert(s.rows, b.message))
  }

  /** The hashes stay, or one of them takes a stored reading newer than its own. */
  ghost predicate CacheMoves(s: State, s': State) {
    || s'.cache == s.cache
    || (exists b: Body ::
          && Unsettled(s, b) && b.Valid() && HasKey(s.rows, b.message.Key())
          && !CachedSince(s.cache, b.message.Key())
          && s'.cache == s.cache[b.message.vehicleId := b.message.reading])
  }

  /** A message leaves the queue only when it is not acceptable, or both stored and cached. */
  ghost predicate QueueMoves(s: State, step: Step, s': State) {
    && (forall b: Body :: Unsettled(s', b) ==> Unsettled(s, b) || step == Publish(b))
    && (forall b: Body :: Unsettled(s, b) && !Unsettled(s', b) ==>
          !Accepted(s.vehicles, b) || (CachedSince(s.cache, b.message.Key()) && HasKey(s.rows, b.message.Key())))
  }

  lemma StepMovesRows(s: State, step: Step)
    ensures RowsMove(s, Apply(s, step))
  {
    var s' := Apply(s, step);
    if s'.rows != s.rows {
      var b := s.current.value.body;
      assert step.SaveSucceeds? || step.SaveLosesReply?;
      assert Unsettled(s, b) && Unsettled(s', b);
    }
  }

  lemma WorkWritesNewer(s: State, c: Current, step: Step)
    requires StageHolds(s) && s.current == Some(c) && Work(s, c, step).cache != s.cache
    ensures c.body.Valid() && HasKey(s.rows, c.body.message.Key()) && !CachedSince(s.cache, c.body.message.Key())
    ensures Work(s, c, step).cache == s.cache[c.body.message.vehicleId := c.body.message.reading]
  {
    assert step.CacheWriteSucceeds? || step.CacheWriteLosesReply?;
  }

  lemma StepMovesCache(s: State, step: Step)
    requires StageHolds(s)
    ensures CacheMoves(s, Apply(s, step))
  {
    if Apply(s, step).cache != s.cache {
      assert Apply(s, step) == Work(s, s.current.value, step);
      WorkWritesNewer(s, s.current.value, step);
      assert Unsettled(s, s.current.value.body);
    }
  }

  /** Taking a body from the broker, or handing it back, settles nothing. */
  lemma RequeueSettlesNothing(s: State, b: Body)
    ensures Unsettled(Requeued(s), b) <==> Unsettled(s, b)
  {
  }

  /** The worker lets go of its message for good only when it is unacceptable, or stored and cached. */
  lemma WorkSettles(s: State, c: Current, step: Step)
    requires StageHolds(s) && s.current == Some(c)
    ensures var s' := Work(s, c, step);
            && s'.ready == (if s'.current.None? && s'.ready != s.ready then s.ready + multiset{c.body} else s.ready)
            && (s'.current.Some? ==> s'.current.value.body == c.body)
            && (s'.current.None? && s'.ready == s.ready ==>
                  !Accepted(s.vehicles, c.body) || (CachedSince(s.cache, c.body.message.Key()) && HasKey(s.rows, c.body.message.Key())))
  {
  }

  lemma StepMovesQueue(s: State, step: Step, b: Body)
    requires StageHolds(s)
    ensures Unsettled(Apply(s, step), b) ==> Unsettled(s, b) || step == Publish(b)
    ensures Unsettled(s, b) && !Unsettled(Apply(s, step), b) ==>
              !Accepted(s.vehicles, b) || (CachedSince(s.cache, b.message.Key()) && HasKey(s.rows, b.message.Key()))
  {
    RequeueSettlesNothing(s, b);
    if s.current.Some? && !step.Publish? && !step.AddVehicle? && !step.Deliver? && !step.Crash? {
      assert Apply(s, step) == Work(s, s.current.value, step);
      WorkSettles(s, s.current.value, step);
    }
  }

  lemma StepMoves(s: State, step: Step)
    requires StageHolds(s)
    ensures RowsMove(s, Apply(s, step)) && CacheMoves(s, Apply(s, step)) && QueueMoves(s, step, Apply(s, step))
    ensures s.vehicles <= Apply(s, step).vehicles && (!step.AddVehicle? ==> Apply(s, step).vehicles == s.vehicles)
  {
    StepMovesRows(s, step);
    StepMovesCache(s, step);
    var s' := Apply(s, step);
    forall b: Body
      ensures Unsettled(s', b) ==> Unsettled(s, b) || step == Publish(b)
      ensures Unsettled(s, b) && !Unsettled(s', b) ==>
                !Accepted(s.vehicles, b) || (CachedSince(s.cache, b.message.Key()) && HasKey(s.rows, b.message.Key()))
    {
      StepMovesQueue(s, step, b);
    }
  }

  lemma WorkKeepsStage(s: State, c: Current, step: Step)
    requires StageHolds(s) && s.current == Some(c)
    ensures StageHolds(Work(s, c, step))
  {
    if c.body.Valid() {
      InsertKeeps(s.rows, c.body.message);
    }
  }

  /** What happens around the worker: messages and vehicles arrive, and a crash hands its message back. */
  lemma SurroundingSteps(s: State, b: Body, v: int)
    ensures Apply(s, Publish(b)) == s.(ready := s.ready + multiset{b})
    ensures Apply(s, AddVehicle(v)) == s.(vehicles := s.vehicles + {v})
    ensures s.current.Some? ==>
              Apply(s, Crash) == s.(ready := s.ready + multiset{s.current.value.body}, current := None)
    ensures s.current.None? && b in s.ready ==>
              Apply(s, Deliver(b)) == s.(ready := s.ready - multiset{b}, current := Some(Current(b, Received)))
  {
  }

  lemma StepKeepsStage(s: State, step: Step)
    requires StageHolds(s)
    ensures StageHolds(Apply(s, step))
  {
    if s.current.Some? && !step.Publish? && !step.AddVehicle? && !step.Deliver? && !step.Crash? {
      assert Apply(s, step) == Work(s, s.current.value, step);
      WorkKeepsStage(s, s.current.value, step);
    }
  }

  /** A stored reading that is not cached yet keeps its message in the queue. */
  lemma CoverageKept(s: State, step: Step, s': State, r: TelemetryMessage)
    requires Inv(s) && RowsMove(s, s') && CacheMoves(s, s') && QueueMoves(s, step, s') && r in s'.rows
    ensures CachedSince(s'.cache, r.Key()) || Pending(s', r.Key())
  {
    if r in s.rows && !CachedSince(s.cache, r.Key()) {
      var b: Body :| b.Valid() && b.message.Key() == r.Key() && Unsettled(s, b);
      assert Accepted(s.vehicles, b);
      assert Unsettled(s', b);
    }
  }

  lemma CacheStaysStored(s: State, s': State, v: int)
    requires Inv(s) && RowsMove(s, s') && CacheMoves(s, s') && v in s'.cache
    ensures HasKey(s'.rows, (v, s'.cache[v].recordedAt))
  {
    assert HasKey(s.rows, (v, s'.cache[v].recordedAt));
    var r :| r in s.rows && r.Key() == (v, s'.cache[v].recordedAt);
    assert r in s'.rows;
  }

  lemma StepKeepsInv(s: State, step: Step)
    requires Inv(s)
    ensures Inv(Apply(s, step))
  {
    StepMoves(s, step);
    StepKeepsStage(s, step);
    MovesKeepInv(s, step, Apply(s, step));
  }

  lemma MovesKeepInv(s: State, step: Step, s': State)
    requires Inv(s) && RowsMove(s, s') && CacheMoves(s, s') && QueueMoves(s, step, s')
    requires s.vehicles <= s'.vehicles && StageHolds(s')
    ensures Inv(s')
  {
    forall r | r in s'.rows
      ensures CachedSince(s'.cache, r.Key()) || Pending(s', r.Key())
    {
      CoverageKept(s, step, s', r);
    }
    forall v | v in s'.cache
      ensures HasKey(s'.rows, (v, s'.cache[v].recordedAt))
    {
      CacheStaysStored(s, s', v);
    }
  }

  lemma {:induction false} RunKeepsInv(s: State, steps: seq<Step>)
    requires Inv(s)
    ensures Inv(After(s, steps))
  {
    if steps != [] {
      RunKeepsInv(s, steps[..|steps| - 1]);
      StepKeepsInv(After(s, steps[..|steps| - 1]), steps[|steps| - 1]);
    }
  }

  // ---------- The cache trails the table, and what it lacks is on its way ----------

  /** SELECT ... WHERE vehicle_id = v ORDER BY recorded_at DESC LIMIT 1. */
  function Latest(rows: seq<TelemetryMessage>, v: int): Option<TelemetryMessage> {
    if rows == [] then None
    else
      var best := Latest(rows[..|rows| - 1], v);
      var r := rows[|rows| - 1];
      if r.vehicleId == v && (best.None? || best.value.reading.recordedAt < r.reading.recordedAt) then Some(r)
      else best
  }

  lemma {:induction false} LatestIsNewest(rows: seq<TelemetryMessage>, v: int)
    ensures Latest(rows, v).None? <==> forall r :: r in rows ==> r.vehicleId != v
    ensures Latest(rows, v).Some? ==> Latest(rows, v).value in rows && Latest(rows, v).value.vehicleId == v
    ensures Latest(rows, v).Some? ==>
              forall r :: r in rows && r.vehicleId == v ==> r.reading.recordedAt <= Latest(rows, v).value.reading.recordedAt
  {
    if rows != [] {
      LatestIsNewest(rows[..|rows| - 1], v);
      assert rows == rows[..|rows| - 1] + [rows[|rows| - 1]];
    }
  }

  /** After any schedule of deliveries, failures, crashes and redeliveries. */
  lemma CacheTrailsTable(s0: State, steps: seq<Step>, v: int)
    requires Empty(s0)
    ensures var s := After(s0, steps);
            && UniqueKeys(s.rows)
            && (v in s.cache ==>
                  && HasKey(s.rows, (v, s.cache[v].recordedAt))
                  && Latest(s.rows, v).Some?
                  && s.cache[v].recordedAt <= Latest(s.rows, v).value.reading.recordedAt)
            && (Latest(s.rows, v).Some? && !CachedSince(s.cache, Latest(s.rows, v).value.Key()) ==>
                  Pending(s, Latest(s.rows, v).value.Key()))
  {
    RunKeepsInv(s0, steps);
    LatestIsNewest(After(s0, steps).rows, v);
  }

  // ---------- Convergence ----------

  /** The bodies published during a schedule. */
  function Sent(steps: seq<Step>): set<Body> {
    if steps == [] then {} else SentBy(Sent(steps[..|steps| - 1]), steps[|steps| - 1])
  }

  predicate FleetFixed(steps: seq<Step>) {
    forall i :: 0 <= i < |steps| ==> !steps[i].AddVehicle?
  }

  predicate Accepted(vehicles: set<int>, b: Body) {
    b.Valid() && b.message.vehicleId in vehicles
  }

  /** No two accepted bodies give different readings for one (vehicle, recorded_at). */
  predicate OnePayloadPerKey(vehicles: set<int>, sent: set<Body>) {
    forall a, b | a in sent && b in sent && Accepted(vehicles, a) && Accepted(vehicles, b) ::
      a.message.Key() == b.message.Key() ==> a == b
  }

  /** Everything queued, stored or cached was sent. */
  ghost predicate FromSent(s: State, sent: set<Body>) {
    && (forall b :: Unsettled(s, b) ==> b in sent)
    && (forall r :: r in s.rows ==> Fields(r) in sent && Accepted(s.vehicles, Fields(r)))
    && (forall v :: v in s.cache ==>
          Fields(TelemetryMessage(v, s.cache[v])) in sent && Accepted(s.vehicles, Fields(TelemetryMessage(v, s.cache[v]))))
  }

  /** Every accepted message is still to be settled, or stored. */
  ghost predicate NothingLost(s: State, sent: set<Body>) {
    forall b :: b in sent && Accepted(s.vehicles, b) ==> Unsettled(s, b) || HasKey(s.rows, b.message.Key())
  }

  function SentBy(sent: set<Body>, step: Step): set<Body> {
    if step.Publish? then sent + {step.body} else sent
  }

  lemma MovesTraceSent(s: State, sent: set<Body>, step: Step, s': State)
    requires Inv(s) && FromSent(s, sent) && s'.vehicles == s.vehicles
    requires RowsMove(s, s') && CacheMoves(s, s') && QueueMoves(s, step, s')
    ensures FromSent(s', SentBy(sent, step))
  {
    forall v | v in s'.cache
      ensures Fields(TelemetryMessage(v, s'.cache[v])) in sent && Accepted(s.vehicles, Fields(TelemetryMessage(v, s'.cache[v])))
    {
      if v !in s.cache || s.cache[v] != s'.cache[v] {
        var b: Body :| && Unsettled(s, b) && b.Valid() && HasKey(s.rows, b.message.Key())
                       && s'.cache == s.cache[b.message.vehicleId := b.message.reading];
        assert b == Fields(TelemetryMessage(v, s'.cache[v]));
        assert b.message.vehicleId in s.vehicles;
      }
    }
    assert forall b :: Unsettled(s', b) ==> b in SentBy(sent, step);
  }

  lemma MovesLoseNothing(s: State, sent: set<Body>, step: Step, s': State)
    requires NothingLost(s, sent) && s'.vehicles == s.vehicles && RowsMove(s, s') && QueueMoves(s, step, s')
    requires step.Publish? ==> Unsettled(s', step.body)
    ensures NothingLost(s', SentBy(sent, step))
  {
    forall b | b in SentBy(sent, step) && Accepted(s.vehicles, b)
      ensures Unsettled(s', b) || HasKey(s'.rows, b.message.Key())
    {
      if HasKey(s.rows, b.message.Key()) {
        var r :| r in s.rows && r.Key() == b.message.Key();
        assert r in s'.rows;
      }
    }
  }

  lemma {:induction false} RunTracesSent(s0: State, steps: seq<Step>)
    requires Empty(s0) && FleetFixed(steps)
    ensures After(s0, steps).vehicles == s0.vehicles
    ensures FromSent(After(s0, steps), Sent(steps)) && NothingLost(After(s0, steps), Sent(steps))
  {
    if steps != [] {
      var before, step := steps[..|steps| - 1], steps[|steps| - 1];
      RunKeepsInv(s0, before);
      RunTracesSent(s0, before);
      StepMoves(After(s0, before), step);
      MovesTraceSent(After(s0, before), Sent(before), step, After(s0, steps));
      MovesLoseNothing(After(s0, before), Sent(before), step, After(s0, steps));
    }
  }

  /** The simple specification: every accepted message once, and the newest row per vehicle. */
  ghost predicate NewestOf(rows: seq<TelemetryMessage>, cache: map<int, Reading>) {
    forall v ::
      && (v in cache <==> Latest(rows, v).Some?)
      && (v in cache ==> Latest(rows, v).value == TelemetryMessage(v, cache[v]))
  }

  lemma DrainedTable(s: State, sent: set<Body>, m: TelemetryMessage)
    requires FromSent(s, sent) && NothingLost(s, sent) && OnePayloadPerKey(s.vehicles, sent) && Drained(s)
    ensures m in s.rows <==> Fields(m) in sent && Accepted(s.vehicles, Fields(m))
  {
    if Fields(m) in sent && Accepted(s.vehicles, Fields(m)) {
      assert !Unsettled(s, Fields(m));
      var r :| r in s.rows && r.Key() == m.Key();
      assert Fields(r) == Fields(m);
    }
  }

  lemma DrainedCache(s: State, sent: set<Body>, v: int)
    requires Inv(s) && FromSent(s, sent) && OnePayloadPerKey(s.vehicles, sent) && Drained(s)
    ensures v in s.cache <==> Latest(s.rows, v).Some?
    ensures v in s.cache ==> Latest(s.rows, v).value == TelemetryMessage(v, s.cache[v])
  {
    LatestIsNewest(s.rows, v);
    if Latest(s.rows, v).Some? {
      var r := Latest(s.rows, v).value;
      assert CachedSince(s.cache, r.Key());
      var held :| held in s.rows && held.Key() == (v, s.cache[v].recordedAt);
      assert Fields(r) == Fields(TelemetryMessage(v, s.cache[v]));
    }
  }

  lemma DrainedMeetsSpec(s0: State, steps: seq<Step>)
    requires Empty(s0) && FleetFixed(steps) && OnePayloadPerKey(s0.vehicles, Sent(steps))
    requires Drained(After(s0, steps))
    ensures var s := After(s0, steps);
            && UniqueKeys(s.rows)
            && (forall m :: m in s.rows <==> Fields(m) in Sent(steps) && Accepted(s0.vehicles, Fields(m)))
            && NewestOf(s.rows, s.cache)
  {
    var s := After(s0, steps);
    RunKeepsInv(s0, steps);
    RunTracesSent(s0, steps);
    forall m ensures m in s.rows <==> Fields(m) in Sent(steps) && Accepted(s0.vehicles, Fields(m)) {
      DrainedTable(s, Sent(steps), m);
    }
    forall v
      ensures v in s.cache <==> Latest(s.rows, v).Some?
      ensures v in s.cache ==> Latest(s.rows, v).value == TelemetryMessage(v, s.cache[v])
    {
      DrainedCache(s, Sent(steps), v);
    }
  }

  /** Rows are only ever added. */
  lemma {:induction false} RowsGrow(s: State, steps: seq<Step>)
    ensures s.rows <= After(s, steps).rows
  {
    if steps != [] {
      RowsGrow(s, steps[..|steps| - 1]);
      StepMovesRows(After(s, steps[..|steps| - 1]), steps[|steps| - 1]);
    }
  }

  lemma RowOccursOnce(rows: seq<TelemetryMessage>, r: TelemetryMessage)
    requires UniqueKeys(rows)
    ensures multiset(rows)[r] == if r in rows then 1 else 0
  {
    if r in rows {
      var i :| 0 <= i < |rows| && rows[i] == r;
      assert rows == rows[..i] + [r] + rows[i + 1..];
      assert r !in rows[..i] && r !in rows[i + 1..];
    }
  }

  predicate SameOutcome(s: State, t: State) {
    multiset(s.rows) == multiset(t.rows) && s.cache == t.cache
  }

  /** Two tables with the same rows, one per key, have the same newest rows. */
  lemma SameLatest(a: seq<TelemetryMessage>, b: seq<TelemetryMessage>, v: int)
    requires UniqueKeys(a) && forall r :: r in a <==> r in b
    ensures Latest(a, v) == Latest(b, v)
  {
    LatestIsNewest(a, v);
    LatestIsNewest(b, v);
    if Latest(a, v).Some? {
      var x, y := Latest(a, v).value, Latest(b, v).value;
      assert x in b && y in a && x.Key() == y.Key();
    }
  }

  lemma SameRows(a: seq<TelemetryMessage>, b: seq<TelemetryMessage>)
    requires UniqueKeys(a) && UniqueKeys(b) && forall r :: r in a <==> r in b
    ensures multiset(a) == multiset(b)
  {
    forall r ensures multiset(a)[r] == multiset(b)[r] {
      RowOccursOnce(a, r);
      RowOccursOnce(b, r);
    }
  }

  lemma SchedulesAgree(s0: State, a: seq<Step>, b: seq<Step>)
    requires Empty(s0) && FleetFixed(a) && FleetFixed(b)
    requires Drained(After(s0, a)) && Drained(After(s0, b))
    requires forall body :: Accepted(s0.vehicles, body) ==> (body in Sent(a) <==> body in Sent(b))
    requires OnePayloadPerKey(s0.vehicles, Sent(a))
    ensures SameOutcome(After(s0, a), After(s0, b))
  {
    var s, t := After(s0, a), After(s0, b);
    DrainedMeetsSpec(s0, a);
    DrainedMeetsSpec(s0, b);
    SameRows(s.rows, t.rows);
    forall v ensures Latest(s.rows, v) == Latest(t.rows, v) {
      SameLatest(s.rows, t.rows, v);
    }
    forall v
      ensures v in s.cache <==> v in t.cache
      ensures v in s.cache ==> s.cache[v] == t.cache[v]
    {
      assert Latest(s.rows, v) == Latest(t.rows, v);
    }
  }

  // ---------- Handling one delivery ----------

  /** What befalls one call: nothing, a failure before it takes effect, or a lost reply. */
  datatype Fault = NoFault | Failure | LostReply

  datatype Faults = Faults(save: Fault, read: Fault, write: Fault)

  const NO_FAULTS := Faults(NoFault, NoFault, NoFault)

  function Saving(f: Faults): seq<Step> {
    [if f.save.Failure? then SaveFails else RejectUnknown, if f.save.LostReply? then SaveLosesReply else SaveSucceeds]
  }

  function Caching(f: Faults): seq<Step> {
    [ if f.read.NoFault? then CacheReadSucceeds else CacheReadFails,
      if f.write.NoFault? then CacheWriteSucceeds else if f.write.Failure? then CacheWriteFails else CacheWriteLosesReply,
      Ack ]
  }

  /** The steps of one call to handle_message; those its branches skip do nothing. */
  function Handling(b: Body, f: Faults): seq<Step> {
    [Deliver(b)] + ([RejectInvalid] + Saving(f) + Caching(f))
  }

  lemma {:induction false} AfterConcat(s: State, a: seq<Step>, b: seq<Step>)
    ensures After(s, a + b) == After(After(s, a), b)
  {
    if b == [] {
      assert a + b == a;
    } else {
      assert (a + b)[..|a + b| - 1] == a + b[..|b| - 1];
      AfterConcat(s, a, b[..|b| - 1]);
    }
  }

  lemma {:induction false} SentConcat(a: seq<Step>, b: seq<Step>)
    ensures Sent(a + b) == Sent(a) + Sent(b)
  {
    if b == [] {
      assert a + b == a;
    } else {
      assert (a + b)[..|a + b| - 1] == a + b[..|b| - 1];
      SentConcat(a, b[..|b| - 1]);
    }
  }

  lemma AfterOne(s: State, a: Step)
    ensures After(s, [a]) == Apply(s, a)
  {
    assert [a][..0] == [];
  }

  lemma AfterTwo(s: State, a: Step, b: Step)
    ensures After(s, [a, b]) == Apply(Apply(s, a), b)
  {
    assert [a, b][..1] == [a];
    AfterOne(s, a);
  }

  lemma AfterThree(s: State, a: Step, b: Step, c: Step)
    ensures After(s, [a, b, c]) == Apply(Apply(Apply(s, a), b), c)
  {
    assert [a, b, c][..2] == [a, b];
    AfterTwo(s, a, b);
  }

  /** What handling one queued body amounts to. */
  function Outcome(s: State, b: Body, f: Faults): State {
    var gone := s.ready - multiset{b};
    if !b.Valid() then s.(ready := gone)
    else if f.save.Failure? then s
    else if b.message.vehicleId !in s.vehicles then s.(ready := gone)
    else
      var m, stored := b.message, s.(rows := Insert(s.rows, b.message));
      var written := stored.(cache := s.cache[m.vehicleId := m.reading]);
      if f.save.LostReply? || !f.read.NoFault? then stored
      else if CachedSince(s.cache, m.Key()) then stored.(ready := gone)
      else match f.write
        case NoFault => written.(ready := gone)
        case Failure => stored
        case LostReply => written
  }

  /** Empty hands take no step of the worker's. */
  predicate Idle(s: State, step: Step) {
    s.current.None? && !step.Publish? && !step.AddVehicle? && (step.Deliver? ==> step.body !in s.ready)
  }

  lemma IdleStep(s: State, step: Step)
    requires Idle(s, step)
    ensures Apply(s, step) == s
  {
  }

  lemma {:induction false} IdleRun(s: State, steps: seq<Step>)
    requires forall i :: 0 <= i < |steps| ==> Idle(s, steps[i])
    ensures After(s, steps) == s
  {
    if steps != [] {
      IdleRun(s, steps[..|steps| - 1]);
      IdleStep(s, steps[|steps| - 1]);
    }
  }

  lemma DeliverStep(s: State, b: Body)
    requires s.current.None? && b in s.ready
    ensures Apply(s, Deliver(b)) == s.(ready := s.ready - multiset{b}, current := Some(Current(b, Received)))
  {
  }

  lemma ValidityStep(received: State, b: Body)
    requires received.current == Some(Current(b, Received))
    ensures Apply(received, RejectInvalid) == if b.Valid() then received else Settled(received)
  {
  }

  lemma SavePhase(received: State, b: Body, f: Faults)
    requires received.current == Some(Current(b, Received)) && b.Valid()
    ensures var stored := received.(rows := Insert(received.rows, b.message));
            After(received, Saving(f))
            == if f.save.Failure? then Requeued(received)
               else if b.message.vehicleId !in received.vehicles then Settled(received)
               else if f.save.LostReply? then Requeued(stored)
               else stored.(current := Some(Current(b, Stored)))
  {
    AfterTwo(received, Saving(f)[0], Saving(f)[1]);
  }

  lemma ReadStep(stored: State, b: Body, f: Faults)
    requires stored.current == Some(Current(b, Stored)) && b.Valid()
    ensures var stage := if CachedSince(stored.cache, b.message.Key()) then Handled else CacheStale;
            Apply(stored, Caching(f)[0])
            == if f.read.NoFault? then stored.(current := Some(Current(b, stage))) else Requeued(stored)
  {
  }

  lemma WriteStep(stale: State, b: Body, f: Faults)
    requires stale.current == Some(Current(b, CacheStale)) && b.Valid()
    ensures var written := stale.(cache := stale.cache[b.message.vehicleId := b.message.reading]);
            Apply(stale, Caching(f)[1])
            == match f.write
               case NoFault => written.(current := Some(Current(b, Handled)))
               case Failure => Requeued(stale)
               case LostReply => Requeued(written)
  {
  }

  lemma AckStep(handled: State, b: Body, f: Faults)
    requires handled.current == Some(Current(b, Handled)) && b.Valid()
    ensures Apply(handled, Caching(f)[1]) == handled && Apply(handled, Ack) == Settled(handled)
  {
  }

  lemma CachePhase(stored: State, b: Body, f: Faults)
    requires stored.current == Some(Current(b, Stored)) && b.Valid()
    ensures var t, m := After(stored, Caching(f)), b.message;
            var written := stored.(cache := stored.cache[m.vehicleId := m.reading]);
            if !f.read.NoFault? then t == Requeued(stored)
            else if CachedSince(stored.cache, m.Key()) then t == Settled(stored)
            else if f.write.NoFault? then t == Settled(written)
            else if f.write.Failure? then t == Requeued(stored)
            else t == Requeued(written)
  {
    var h := Caching(f);
    AfterThree(stored, h[0], h[1], h[2]);
    var read := Apply(stored, h[0]);
    var wrote := Apply(read, h[1]);
    ReadStep(stored, b, f);
    if !f.read.NoFault? {
      IdleStep(read, h[1]);
      IdleStep(wrote, h[2]);
    } else if CachedSince(stored.cache, b.message.Key()) {
      AckStep(read, b, f);
    } else {
      WriteStep(read, b, f);
      if f.write.NoFault? {
        AckStep(wrote, b, f);
      } else {
        IdleStep(wrote, h[2]);
      }
    }
  }

  /** What becomes of a message in the worker's hands. */
  function ReceivedOutcome(received: State, b: Body, f: Faults): State
    requires b.Valid()
  {
    var m, stored := b.message, received.(rows := Insert(received.rows, b.message));
    var written := stored.(cache := stored.cache[m.vehicleId := m.reading]);
    if f.save.Failure? then Requeued(received)
    else if m.vehicleId !in received.vehicles then Settled(received)
    else if f.save.LostReply? || !f.read.NoFault? then Requeued(stored)
    else if CachedSince(stored.cache, m.Key()) then Settled(stored)
    else match f.write
      case NoFault => Settled(written)
      case Failure => Requeued(stored)
      case LostReply => Requeued(written)
  }

  lemma UnsavedOutcome(received: State, b: Body, f: Faults)
    requires received.current == Some(Current(b, Received)) && b.Valid()
    requires !f.save.NoFault? || b.message.vehicleId !in received.vehicles
    ensures After(After(received, Saving(f)), Caching(f)) == ReceivedOutcome(received, b, f)
  {
    SavePhase(received, b, f);
    IdleRun(After(received, Saving(f)), Caching(f));
  }

  lemma SavedOutcome(received: State, b: Body, f: Faults)
    requires received.current == Some(Current(b, Received)) && b.Valid()
    requires f.save.NoFault? && b.message.vehicleId in received.vehicles
    ensures After(After(received, Saving(f)), Caching(f)) == ReceivedOutcome(received, b, f)
  {
    SavePhase(received, b, f);
    CachePhase(received.(rows := Insert(received.rows, b.message), current := Some(Current(b, Stored))), b, f);
  }

  lemma RejectedRun(received: State, b: Body, f: Faults)
    requires received.current == Some(Current(b, Received)) && !b.Valid()
    ensures After(After(After(received, [RejectInvalid]), Saving(f)), Caching(f)) == Settled(received)
  {
    AfterOne(received, RejectInvalid);
    ValidityStep(received, b);
    IdleRun(Settled(received), Saving(f));
    IdleRun(Settled(received), Caching(f));
  }

  lemma ValidRun(received: State, b: Body, f: Faults)
    requires received.current == Some(Current(b, Received)) && b.Valid()
    ensures After(After(After(received, [RejectInvalid]), Saving(f)), Caching(f)) == ReceivedOutcome(received, b, f)
  {
    AfterOne(received, RejectInvalid);
    ValidityStep(received, b);
    if f.save.NoFault? && b.message.vehicleId in received.vehicles {
      SavedOutcome(received, b, f);
    } else {
      UnsavedOutcome(received, b, f);
    }
  }

  lemma AfterPhases(s: State, f: Faults)
    ensures After(s, [RejectInvalid] + Saving(f) + Caching(f)) == After(After(After(s, [RejectInvalid]), Saving(f)), Caching(f))
  {
    AfterConcat(s, [RejectInvalid] + Saving(f), Caching(f));
    AfterConcat(s, [RejectInvalid], Saving(f));
  }

  lemma ReceivedRun(received: State, b: Body, f: Faults)
    requires received.current == Some(Current(b, Received))
    ensures After(received, [RejectInvalid] + Saving(f) + Caching(f))
            == if b.Valid() then ReceivedOutcome(received, b, f) else Settled(received)
  {
    AfterPhases(received, f);
    if b.Valid() {
      ValidRun(received, b, f);
    } else {
      RejectedRun(received, b, f);
    }
  }

  lemma OutcomeFromReceived(s: State, received: State, b: Body, f: Faults)
    requires s.current.None? && b in s.ready
    requires received == s.(ready := s.ready - multiset{b}, current := Some(Current(b, Received)))
    ensures Outcome(s, b, f) == if b.Valid() then ReceivedOutcome(received, b, f) else Settled(received)
  {
    assert s.ready - multiset{b} + multiset{b} == s.ready;
  }

  lemma HandlingOutcome(s: State, b: Body, f: Faults)
    requires s.current.None? && b in s.ready
    ensures After(s, Handling(b, f)) == Outcome(s, b, f)
  {
    var received := s.(ready := s.ready - multiset{b}, current := Some(Current(b, Received)));
    AfterConcat(s, [Deliver(b)], [RejectInvalid] + Saving(f) + Caching(f));
    AfterOne(s, Deliver(b));
    DeliverStep(s, b);
    ReceivedRun(received, b, f);
    OutcomeFromReceived(s, received, b, f);
  }

  // ---------- Convergence holds exactly when no two payloads compete for one key ----------

  ghost predicate AlwaysConverges(vehicles: set<int>, sent: set<Body>) {
    var s0 := State(vehicles, [], map[], multiset{}, None);
    forall a, b :: FleetFixed(a) && FleetFixed(b) && Sent(a) == sent && Sent(b) == sent
      ==> Drained(After(s0, a)) && Drained(After(s0, b)) ==> SameOutcome(After(s0, a), After(s0, b))
  }

  /** Serving bodies one after the other, each published and handled without a fault. */
  function ServeAll(bodies: seq<Body>): seq<Step> {
    if bodies == [] then []
    else
      var b := bodies[|bodies| - 1];
      ServeAll(bodies[..|bodies| - 1]) + ([Publish(b)] + Handling(b, NO_FAULTS))
  }

  lemma ServeStores(s: State, b: Body, serve: seq<Step>)
    requires Drained(s) && serve == [Publish(b)] + Handling(b, NO_FAULTS)
    ensures var t := After(s, serve);
            && Drained(t) && t.vehicles == s.vehicles
            && t.rows == if Accepted(s.vehicles, b) then Insert(s.rows, b.message) else s.rows
  {
    var h := Handling(b, NO_FAULTS);
    AfterConcat(s, [Publish(b)], h);
    assert After(s, [Publish(b)]) == Apply(s, Publish(b)) by {
      assert [Publish(b)][..0] == [];
    }
    HandlingOutcome(Apply(s, Publish(b)), b, NO_FAULTS);
  }

  lemma ServeSends(b: Body)
    ensures Sent([Publish(b)] + Handling(b, NO_FAULTS)) == {b}
  {
    var publish := [Publish(b)];
    SentConcat(publish, Handling(b, NO_FAULTS));
    NothingSent(Handling(b, NO_FAULTS));
    assert publish[..0] == [] && Sent(publish) == {b};
  }

  lemma {:induction false} NothingSent(steps: seq<Step>)
    requires forall i :: 0 <= i < |steps| ==> !steps[i].Publish?
    ensures Sent(steps) == {}
  {
    if steps != [] {
      NothingSent(steps[..|steps| - 1]);
    }
  }

  lemma {:induction false} ServeAllSends(bodies: seq<Body>)
    ensures forall b :: b in Sent(ServeAll(bodies)) <==> b in bodies
  {
    if bodies != [] {
      var init, last := bodies[..|bodies| - 1], bodies[|bodies| - 1];
      ServeAllSends(init);
      SentConcat(ServeAll(init), [Publish(last)] + Handling(last, NO_FAULTS));
      ServeSends(last);
      assert bodies == init + [last];
    }
  }

  lemma {:induction false} ServeAllFixed(bodies: seq<Body>)
    ensures FleetFixed(ServeAll(bodies))
  {
    if bodies != [] {
      ServeAllFixed(bodies[..|bodies| - 1]);
    }
  }

  /** The fault-free schedule drains the queue, and the first payload for a key stays. */
  lemma {:induction false} ServeAllStores(s: State, bodies: seq<Body>)
    requires Drained(s)
    ensures var t := After(s, ServeAll(bodies));
            Drained(t) && t.vehicles == s.vehicles && s.rows <= t.rows
  {
    if bodies != [] {
      var init, b := bodies[..|bodies| - 1], bodies[|bodies| - 1];
      var serve := [Publish(b)] + Handling(b, NO_FAULTS);
      ServeAllStores(s, init);
      AfterConcat(s, ServeAll(init), serve);
      ServeStores(After(s, ServeAll(init)), b, serve);
    }
  }

  lemma Enumerate(bodies: set<Body>) returns (order: seq<Body>)
    ensures forall b :: b in order <==> b in bodies
  {
    if bodies == {} {
      order := [];
    } else {
      var b :| b in bodies;
      var rest := Enumerate(bodies - {b});
      order := rest + [b];
      assert forall c :: c in order <==> c in rest || c == b;
    }
  }

  /** A schedule that handles `first` before anything else ends with its payload in the table. */
  lemma FirstPayloadWins(s0: State, sent: set<Body>, first: Body) returns (steps: seq<Step>)
    requires Empty(s0) && first in sent && Accepted(s0.vehicles, first)
    ensures FleetFixed(steps) && Sent(steps) == sent
    ensures Drained(After(s0, steps)) && first.message in After(s0, steps).rows
  {
    var order := Enumerate(sent);
    steps := ServeAll([first]) + ServeAll(order);
    ServeAllSends([first]);
    ServeAllSends(order);
    SentConcat(ServeAll([first]), ServeAll(order));
    ServeAllFixed([first]);
    ServeAllFixed(order);
    assert [first][..0] == [] && ServeAll([first]) == [Publish(first)] + Handling(first, NO_FAULTS);
    ServeStores(s0, first, ServeAll([first]));
    ServeAllStores(After(s0, ServeAll([first])), order);
    AfterConcat(s0, ServeAll([first]), ServeAll(order));
    assert After(s0, steps).rows[0] == first.message;
  }

  /** For a fixed fleet, all drained schedules of a set of bodies agree iff no two payloads compete. */
  lemma ConvergesIffOnePayloadPerKey(vehicles: set<int>, sent: set<Body>)
    ensures AlwaysConverges(vehicles, sent) <==> OnePayloadPerKey(vehicles, sent)
  {
    var s0 := State(vehicles, [], map[], multiset{}, None);
    if OnePayloadPerKey(vehicles, sent) {
      forall a, b | FleetFixed(a) && FleetFixed(b) && Sent(a) == sent && Sent(b) == sent
        ensures Drained(After(s0, a)) && Drained(After(s0, b)) ==> SameOutcome(After(s0, a), After(s0, b))
      {
        if Drained(After(s0, a)) && Drained(After(s0, b)) {
          SchedulesAgree(s0, a, b);
        }
      }
    } else {
      var x, y :| x in sent && y in sent && Accepted(vehicles, x) && Accepted(vehicles, y)
        && x.message.Key() == y.message.Key() && x != y;
      var a := FirstPayloadWins(s0, sent, x);
      var b := FirstPayloadWins(s0, sent, y);
      RunKeepsInv(s0, a);
      RowOccursOnce(After(s0, a).rows, x.message);
      RunKeepsInv(s0, b);
      assert x.message !in After(s0, b).rows;
      RowOccursOnce(After(s0, b).rows, x.message);
      assert !SameOutcome(After(s0, a), After(s0, b));
    }
  }
}
