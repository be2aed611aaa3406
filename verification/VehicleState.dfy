/** The two read paths above the pipeline: one vehicle, and the whole fleet in one batch. */
module VehicleState {
  import opened Wrappers
  import opened Telemetry

  datatype Source = FromCache | FromDatabase

  datatype VehicleStateRead = VehicleStateRead(vehicleId: int, reading: Reading, source: Source, degraded: bool)

  /** Redis answers, is unreachable (the retried errors, after the last retry), or fails otherwise. */
  datatype Redis = Answers | Unreachable | Broken

  datatype ReadError = NoTelemetry | DependencyUnavailable | RedisFailure

  datatype Vehicle = Vehicle(id: int, licensePlate: string, model: string, status: string, stationId: int)

  datatype Position = Position(vehicle: Vehicle, reading: Reading, source: Source)

  datatype FleetPositions = FleetPositions(positions: seq<Position>, withoutTelemetry: seq<int>, degraded: bool)

  // ---------- One vehicle ----------

  function FromReading(r: TelemetryMessage, degraded: bool): VehicleStateRead {
    VehicleStateRead(r.vehicleId, r.reading, FromDatabase, degraded)
  }

  /** `resilient` says whether a retry policy is configured. */
  function GetVehicleState(rows: seq<TelemetryMessage>, cache: map<int, Reading>, v: int, resilient: bool, redis: Redis)
    : Result<VehicleStateRead, ReadError>
  {
    var latest := Latest(rows, v);
    if redis.Broken? || (redis.Unreachable? && !resilient) then Err(RedisFailure)
    else if redis.Unreachable? then
      if latest.None? then Err(DependencyUnavailable) else Ok(FromReading(latest.value, true))
    else if v in cache then Ok(VehicleStateRead(v, cache[v], FromCache, false))
    else if latest.None? then Err(NoTelemetry)
    else Ok(FromReading(latest.value, false))
  }

  /** The hash when Redis answers and has one, else the newest row; the mark and the source say which. */
  lemma CacheFirst(rows: seq<TelemetryMessage>, cache: map<int, Reading>, v: int, resilient: bool, redis: Redis)
    ensures var read := GetVehicleState(rows, cache, v, resilient, redis);
            && (redis.Answers? && v in cache ==> read == Ok(VehicleStateRead(v, cache[v], FromCache, false)))
            && (read.Ok? ==> (read.value.source == FromDatabase <==> redis.Unreachable? || v !in cache))
            && (read.Ok? ==> (read.value.degraded <==> redis.Unreachable?) && read.value.vehicleId == v)
            && (read.Ok? && read.value.source == FromDatabase ==>
                  Latest(rows, v) == Some(TelemetryMessage(v, read.value.reading)))
            && (read.Ok? ==> !redis.Broken? && (redis.Unreachable? ==> resilient))
  {
    LatestIsNewest(rows, v);
  }

  /** The same of a position of the batch. */
  ghost predicate FromRightSource(p: Position, rows: seq<TelemetryMessage>, cache: map<int, Reading>, redis: Redis) {
    if redis.Answers? && p.vehicle.id in cache then p.source == FromCache && p.reading == cache[p.vehicle.id]
    else p.source == FromDatabase && Latest(rows, p.vehicle.id) == Some(TelemetryMessage(p.vehicle.id, p.reading))
  }

  // ---------- The fleet ----------

  function CachedStates(cache: map<int, Reading>, ids: set<int>): map<int, Reading> {
    map v | v in ids && v in cache :: cache[v]
  }

  /** DISTINCT ON (vehicle_id) ... ORDER BY recorded_at DESC. */
  function LatestReadings(rows: seq<TelemetryMessage>, ids: set<int>): map<int, TelemetryMessage> {
    map v | v in ids && Latest(rows, v).Some? :: Latest(rows, v).value
  }

  /** The per-vehicle read that the batch has to agree with. */
  ghost function SingleRead(rows: seq<TelemetryMessage>, cache: map<int, Reading>, redis: Redis, v: int): Option<VehicleStateRead> {
    var r := GetVehicleState(rows, cache, v, true, redis);
    if r.Ok? then Some(r.value) else None
  }

  ghost function Located(vehicles: seq<Vehicle>, rows: seq<TelemetryMessage>, cache: map<int, Reading>, redis: Redis): seq<Position> {
    if vehicles == [] then []
    else
      var init, v := Located(vehicles[..|vehicles| - 1], rows, cache, redis), vehicles[|vehicles| - 1];
      var read := SingleRead(rows, cache, redis, v.id);
      if read.Some? then init + [Position(v, read.value.reading, read.value.source)] else init
  }

  ghost function Missing(vehicles: seq<Vehicle>, rows: seq<TelemetryMessage>, cache: map<int, Reading>, redis: Redis): seq<int> {
    if vehicles == [] then []
    else
      var init, v := Missing(vehicles[..|vehicles| - 1], rows, cache, redis), vehicles[|vehicles| - 1];
      if SingleRead(rows, cache, redis, v.id).None? then init + [v.id] else init
  }

  /**
   * Hashes from one pipeline round trip, rows from one query after it. Together they answer exactly
   * what a read per vehicle would.
   */
  method GetFleetPositions(vehicles: seq<Vehicle>, rows: seq<TelemetryMessage>, cache: map<int, Reading>, redis: Redis)
    returns (fleet: Result<FleetPositions, ReadError>)
    ensures fleet.Err? <==> redis.Broken? && vehicles != []
    ensures fleet.Err? ==> fleet.error == RedisFailure
    ensures fleet.Ok? && !redis.Broken? ==>
              && fleet.value.positions == Located(vehicles, rows, cache, redis)
              && fleet.value.withoutTelemetry == Missing(vehicles, rows, cache, redis)
    ensures fleet.Ok? ==> (fleet.value.degraded <==> redis.Unreachable? && vehicles != [])
    ensures fleet.Ok? ==>
              forall i :: 0 <= i < |fleet.value.positions| ==> FromRightSource(fleet.value.positions[i], rows, cache, redis)
    ensures fleet.Ok? && vehicles == [] ==> fleet.value.positions == [] && fleet.value.withoutTelemetry == []
  {
    var ids := set v | v in vehicles :: v.id;
    var cached: map<int, Reading>, degraded := map[], false;
    if vehicles != [] {
      if redis.Broken? {
        return Err(RedisFailure);
      }
      if redis.Answers? {
        cached := CachedStates(cache, ids);
      } else {
        degraded := true;
      }
    }
    var readings := LatestReadings(rows, set v | v in ids && v !in cached);

    var positions: seq<Position>, without: seq<int> := [], [];
    for i := 0 to |vehicles|
      invariant positions == Located(vehicles[..i], rows, cache, redis)
      invariant without == Missing(vehicles[..i], rows, cache, redis)
      invariant forall j :: 0 <= j < |positions| ==> FromRightSource(positions[j], rows, cache, redis)
    {
      var vehicle := vehicles[i];
      assert vehicle in vehicles && vehicle.id in ids;
      assert vehicles[..i + 1][..i] == vehicles[..i];
      LatestIsNewest(rows, vehicle.id);
      if vehicle.id in cached {
        positions := positions + [Position(vehicle, cached[vehicle.id], FromCache)];
      } else if vehicle.id in readings {
        var state := FromReading(readings[vehicle.id], degraded);
        positions := positions + [Position(vehicle, state.reading, state.source)];
      } else {
        without := without + [vehicle.id];
      }
    }
    assert vehicles[..|vehicles|] == vehicles;
    return Ok(FleetPositions(positions, without, degraded));
  }

  // ---------- What the batch promises ----------

  ghost function Ids(vehicles: seq<Vehicle>): seq<int> {
    seq(|vehicles|, i requires 0 <= i < |vehicles| => vehicles[i].id)
  }

  ghost function PositionIds(positions: seq<Position>): seq<int> {
    seq(|positions|, i requires 0 <= i < |positions| => positions[i].vehicle.id)
  }

  ghost predicate Ascending(ids: seq<int>) {
    forall i, j :: 0 <= i < j < |ids| ==> ids[i] < ids[j]
  }

  lemma IdsGrow(vehicles: seq<Vehicle>)
    requires vehicles != [] && Ascending(Ids(vehicles))
    ensures var init, id := vehicles[..|vehicles| - 1], vehicles[|vehicles| - 1].id;
            && Ids(vehicles) == Ids(init) + [id] && Ascending(Ids(init))
            && (forall x :: x in Ids(init) ==> x < id)
  {
    var init := vehicles[..|vehicles| - 1];
    assert Ids(vehicles) == Ids(init) + [vehicles[|vehicles| - 1].id];
    assert forall i :: 0 <= i < |init| ==> Ids(init)[i] == Ids(vehicles)[i] < Ids(vehicles)[|init|];
  }

  lemma AscendingGrows(ids: seq<int>, id: int)
    requires Ascending(ids) && forall x :: x in ids ==> x < id
    ensures Ascending(ids + [id])
  {
    forall i, j | 0 <= i < j < |ids + [id]| ensures (ids + [id])[i] < (ids + [id])[j] {
      assert (ids + [id])[i] == ids[i] && ids[i] in ids;
    }
  }

  lemma {:induction false} LocatedInOrder(vehicles: seq<Vehicle>, rows: seq<TelemetryMessage>, cache: map<int, Reading>, redis: Redis)
    requires Ascending(Ids(vehicles))
    ensures var located := PositionIds(Located(vehicles, rows, cache, redis));
            && Ascending(located)
            && (forall v :: v in located <==> v in Ids(vehicles) && SingleRead(rows, cache, redis, v).Some?)
  {
    if vehicles != [] {
      var init, v := vehicles[..|vehicles| - 1], vehicles[|vehicles| - 1];
      IdsGrow(vehicles);
      LocatedInOrder(init, rows, cache, redis);
      var before, after := Located(init, rows, cache, redis), Located(vehicles, rows, cache, redis);
      if SingleRead(rows, cache, redis, v.id).Some? {
        assert PositionIds(after) == PositionIds(before) + [v.id];
        AscendingGrows(PositionIds(before), v.id);
      }
    }
  }

  lemma {:induction false} MissingInOrder(vehicles: seq<Vehicle>, rows: seq<TelemetryMessage>, cache: map<int, Reading>, redis: Redis)
    requires Ascending(Ids(vehicles))
    ensures var missing := Missing(vehicles, rows, cache, redis);
            && Ascending(missing)
            && (forall v :: v in missing <==> v in Ids(vehicles) && SingleRead(rows, cache, redis, v).None?)
  {
    if vehicles != [] {
      var init, v := vehicles[..|vehicles| - 1], vehicles[|vehicles| - 1];
      IdsGrow(vehicles);
      MissingInOrder(init, rows, cache, redis);
      AscendingGrows(Missing(init, rows, cache, redis), v.id);
    }
  }

  lemma AscendingOccursOnce(ids: seq<int>, v: int)
    requires Ascending(ids)
    ensures multiset(ids)[v] == if v in ids then 1 else 0
  {
    if v in ids {
      var i :| 0 <= i < |ids| && ids[i] == v;
      assert ids == ids[..i] + [v] + ids[i + 1..];
      assert forall j :: 0 <= j < i ==> ids[j] != v;
      assert forall j :: i < j < |ids| ==> ids[j] != v;
      assert multiset(ids[..i])[v] == 0 && multiset(ids[i + 1..])[v] == 0;
    }
  }

  /** Every vehicle is reported once, on one side only, and both sides keep the id order. */
  lemma FleetPartition(vehicles: seq<Vehicle>, rows: seq<TelemetryMessage>, cache: map<int, Reading>, redis: Redis)
    requires Ascending(Ids(vehicles))
    ensures var located, missing := PositionIds(Located(vehicles, rows, cache, redis)), Missing(vehicles, rows, cache, redis);
            && Ascending(located) && Ascending(missing)
            && multiset(located) + multiset(missing) == multiset(Ids(vehicles))
  {
    LocatedInOrder(vehicles, rows, cache, redis);
    MissingInOrder(vehicles, rows, cache, redis);
    var located, missing := PositionIds(Located(vehicles, rows, cache, redis)), Missing(vehicles, rows, cache, redis);
    forall v ensures multiset(located)[v] + multiset(missing)[v] == multiset(Ids(vehicles))[v] {
      AscendingOccursOnce(located, v);
      AscendingOccursOnce(missing, v);
      AscendingOccursOnce(Ids(vehicles), v);
    }
  }

  lemma {:induction false} LocatedAgrees(
    vehicles: seq<Vehicle>, rows: seq<TelemetryMessage>, cache: map<int, Reading>, redis: Redis, p: Position)
    requires p in Located(vehicles, rows, cache, redis)
    ensures p.vehicle in vehicles
    ensures var read := GetVehicleState(rows, cache, p.vehicle.id, true, redis);
            read.Ok? && read.value.reading == p.reading && read.value.source == p.source
  {
    var init := vehicles[..|vehicles| - 1];
    if p in Located(init, rows, cache, redis) {
      LocatedAgrees(init, rows, cache, redis, p);
    }
  }

  // ---------- Reads while the worker runs ----------
  //
  // A read asks Redis first and PostgreSQL later: the hashes are those after some steps of the
  // pipeline, the rows those after any number of further steps.

  lemma CachedIsStored(s0: State, steps: seq<Step>, later: seq<Step>, v: int)
    requires Empty(s0) && v in After(s0, steps).cache
    ensures HasKey(After(s0, steps + later).rows, (v, After(s0, steps).cache[v].recordedAt))
  {
    var cached := After(s0, steps).cache[v];
    CacheTrailsTable(s0, steps, v);
    AfterConcat(s0, steps, later);
    RowsGrow(After(s0, steps), later);
    var r :| r in After(s0, steps).rows && r.Key() == (v, cached.recordedAt);
    assert r in After(s0, steps + later).rows;
  }

  /** A vehicle is readable exactly when it has a stored reading by the time of the query. */
  lemma ReadableIffStored(s0: State, steps: seq<Step>, later: seq<Step>, redis: Redis, v: int)
    requires Empty(s0) && !redis.Broken?
    ensures var rows, cache := After(s0, steps + later).rows, After(s0, steps).cache;
            SingleRead(rows, cache, redis, v).Some? <==> exists r :: r in rows && r.vehicleId == v
  {
    if v in After(s0, steps).cache {
      CachedIsStored(s0, steps, later, v);
    }
    LatestIsNewest(After(s0, steps + later).rows, v);
  }

  /** How a read of one vehicle ends depends only on Redis and on the table. */
  lemma ReadEndings(s0: State, steps: seq<Step>, later: seq<Step>, v: int, resilient: bool, redis: Redis)
    requires Empty(s0)
    ensures var rows, cache := After(s0, steps + later).rows, After(s0, steps).cache;
            var read, stored := GetVehicleState(rows, cache, v, resilient, redis), exists r :: r in rows && r.vehicleId == v;
            && (read == Err(RedisFailure) <==> redis.Broken? || (redis.Unreachable? && !resilient))
            && (read == Err(DependencyUnavailable) <==> redis.Unreachable? && resilient && !stored)
            && (read == Err(NoTelemetry) <==> redis.Answers? && !stored)
            && (read.Ok? ==> read.value.vehicleId == v && (read.value.degraded <==> redis.Unreachable?))
            && (read.Ok? && read.value.source == FromDatabase ==> Some(TelemetryMessage(v, read.value.reading)) == Latest(rows, v))
            && (redis.Answers? && v in cache ==> read == Ok(VehicleStateRead(v, cache[v], FromCache, false)))
            && (read.Ok? ==> (read.value.source == FromDatabase <==> redis.Unreachable? || v !in cache))
  {
    CacheFirst(After(s0, steps + later).rows, After(s0, steps).cache, v, resilient, redis);
    if v in After(s0, steps).cache {
      CachedIsStored(s0, steps, later, v);
    }
    LatestIsNewest(After(s0, steps + later).rows, v);
  }

  /** The whole batch: the located vehicles are those with a stored reading by the time of the query. */
  lemma LocatedIffStored(s0: State, steps: seq<Step>, later: seq<Step>, vehicles: seq<Vehicle>, redis: Redis, v: int)
    requires Empty(s0) && !redis.Broken? && Ascending(Ids(vehicles)) && v in Ids(vehicles)
    ensures var rows, cache := After(s0, steps + later).rows, After(s0, steps).cache;
            && (v in PositionIds(Located(vehicles, rows, cache, redis)) <==> exists r :: r in rows && r.vehicleId == v)
            && (v in Missing(vehicles, rows, cache, redis) <==> forall r :: r in rows ==> r.vehicleId != v)
  {
    var rows, cache := After(s0, steps + later).rows, After(s0, steps).cache;
    LocatedInOrder(vehicles, rows, cache, redis);
    MissingInOrder(vehicles, rows, cache, redis);
    ReadableIffStored(s0, steps, later, redis, v);
  }

  /** Whatever a read returns is a stored reading of that vehicle, never anything newer than the table. */
  lemma ReadIsAStoredReading(s0: State, steps: seq<Step>, later: seq<Step>, redis: Redis, v: int)
    requires Empty(s0) && FleetFixed(steps + later) && OnePayloadPerKey(s0.vehicles, Sent(steps + later))
    requires SingleRead(After(s0, steps + later).rows, After(s0, steps).cache, redis, v).Some?
    ensures var rows, cache := After(s0, steps + later).rows, After(s0, steps).cache;
            TelemetryMessage(v, SingleRead(rows, cache, redis, v).value.reading) in rows
  {
    LatestIsNewest(After(s0, steps + later).rows, v);
    if redis.Answers? && v in After(s0, steps).cache {
      CachedReadingIsStored(s0, steps, later, v);
    }
  }

  lemma CachedReadingIsStored(s0: State, steps: seq<Step>, later: seq<Step>, v: int)
    requires Empty(s0) && FleetFixed(steps + later) && OnePayloadPerKey(s0.vehicles, Sent(steps + later))
    requires v in After(s0, steps).cache
    ensures TelemetryMessage(v, After(s0, steps).cache[v]) in After(s0, steps + later).rows
  {
    assert forall i :: 0 <= i < |steps| ==> steps[i] == (steps + later)[i];
    CachedIsStored(s0, steps, later, v);
    RunTracesSent(s0, steps);
    RunTracesSent(s0, steps + later);
    SentConcat(steps, later);
    var cached := After(s0, steps).cache[v];
    var r :| r in After(s0, steps + later).rows && r.Key() == (v, cached.recordedAt);
    assert Fields(r) == Fields(TelemetryMessage(v, cached));
  }

  /** Once the queue has drained, Redis up or down, every read is the newest stored reading. */
  lemma SettledReadsAreNewest(s0: State, steps: seq<Step>, redis: Redis, v: int)
    requires Empty(s0) && FleetFixed(steps) && OnePayloadPerKey(s0.vehicles, Sent(steps))
    requires Drained(After(s0, steps)) && !redis.Broken?
    ensures var s := After(s0, steps);
            var read := SingleRead(s.rows, s.cache, redis, v);
            && (read.Some? <==> Latest(s.rows, v).Some?)
            && (read.Some? ==> Latest(s.rows, v).value == TelemetryMessage(v, read.value.reading))
  {
    DrainedMeetsSpec(s0, steps);
    LatestIsNewest(After(s0, steps).rows, v);
  }

  /** The whole fleet after any settled schedule: the newest reading of every vehicle that has one. */
  lemma SettledFleet(s0: State, steps: seq<Step>, vehicles: seq<Vehicle>, redis: Redis, p: Position)
    requires Empty(s0) && FleetFixed(steps) && OnePayloadPerKey(s0.vehicles, Sent(steps))
    requires Drained(After(s0, steps)) && !redis.Broken?
    requires p in Located(vehicles, After(s0, steps).rows, After(s0, steps).cache, redis)
    ensures Latest(After(s0, steps).rows, p.vehicle.id) == Some(TelemetryMessage(p.vehicle.id, p.reading))
  {
    var s := After(s0, steps);
    LocatedAgrees(vehicles, s.rows, s.cache, redis, p);
    SettledReadsAreNewest(s0, steps, redis, p.vehicle.id);
  }
}
