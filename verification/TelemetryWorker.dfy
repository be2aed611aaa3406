/** The worker's code over the table, the Redis hashes and the queue it changes in place. */
module TelemetryWorker {
  import opened Wrappers
  import opened Telemetry

  datatype SaveError = UnknownVehicle | CallFailed

  datatype Settlement = Acked | Rejected | Nacked

  /** The steps of a sequence of deliveries, each with the faults it meets. */
  ghost function Schedule(deliveries: seq<(Body, Faults)>): seq<Step> {
    if deliveries == [] then []
    else
      var d := deliveries[|deliveries| - 1];
      Schedule(deliveries[..|deliveries| - 1]) + Handling(d.0, d.1)
  }

  lemma ScheduleExtends(s: State, deliveries: seq<(Body, Faults)>, i: nat)
    requires i < |deliveries|
    ensures After(s, Schedule(deliveries[..i + 1]))
            == After(After(s, Schedule(deliveries[..i])), Handling(deliveries[i].0, deliveries[i].1))
  {
    assert deliveries[..i + 1][..i] == deliveries[..i];
    AfterConcat(s, Schedule(deliveries[..i]), Handling(deliveries[i].0, deliveries[i].1));
  }

  /** A body that is not queued is not delivered. */
  lemma UnqueuedDoesNothing(s: State, b: Body, f: Faults)
    requires s.current.None? && b !in s.ready
    ensures After(s, Handling(b, f)) == s
  {
    IdleRun(s, Handling(b, f));
  }

  /** A telemetry object of a positive vehicle id, with a position on the globe and a fuel level in percent. */
  predicate Acceptable(b: Body) {
    && b.Fields? && b.message.vehicleId > 0
    && -90.0 <= b.message.reading.latitude <= 90.0 && -180.0 <= b.message.reading.longitude <= 180.0
    && 0.0 <= b.message.reading.fuelLevel <= 100.0
  }

  class Worker {
    var vehicles: set<int>
    var rows: seq<TelemetryMessage>
    var cache: map<int, Reading>
    var ready: multiset<Body>

    /** The world between two messages. */
    ghost function View(): State
      reads this
    {
      State(vehicles, rows, cache, ready, None)
    }

    /** Stores a reading; the value says whether the row is new. */
    method SaveReading(m: TelemetryMessage, fault: Fault) returns (saved: Result<bool, SaveError>)
      modifies this`rows
      ensures saved.Err? && saved.error.UnknownVehicle? <==> !fault.Failure? && m.vehicleId !in vehicles
      ensures saved.Err? && saved.error.CallFailed? <==> fault.Failure? || (fault.LostReply? && m.vehicleId in vehicles)
      ensures saved.Ok? ==> saved.value == !HasKey(old(rows), m.Key())
      ensures rows == if m.vehicleId in vehicles && !fault.Failure? then Insert(old(rows), m) else old(rows)
    {
      if fault.Failure? {
        return Err(CallFailed);
      }
      if m.vehicleId !in vehicles {
        return Err(UnknownVehicle);
      }
      var conflict := HasKey(rows, m.Key());
      if !conflict {
        rows := rows + [m];
      }
      if fault.LostReply? {
        return Err(CallFailed);
      }
      return Ok(!conflict);
    }

    /** Overwrites the hash unless it is at least as new; the value says whether it was written. */
    method UpdateVehicleState(m: TelemetryMessage, read: Fault, write: Fault) returns (updated: Result<bool, SaveError>)
      modifies this`cache
      ensures updated.Err? <==> !read.NoFault? || (!CachedSince(old(cache), m.Key()) && !write.NoFault?)
      ensures updated.Err? ==> updated.error.CallFailed?
      ensures updated.Ok? ==> updated.value == !CachedSince(old(cache), m.Key()) && CachedSince(cache, m.Key())
      ensures cache == if read.NoFault? && !CachedSince(old(cache), m.Key()) && !write.Failure?
                       then old(cache)[m.vehicleId := m.reading] else old(cache)
    {
      if !read.NoFault? {
        return Err(CallFailed);
      }
      if m.vehicleId in cache && cache[m.vehicleId].recordedAt >= m.reading.recordedAt {
        return Ok(false);
      }
      if write.Failure? {
        return Err(CallFailed);
      }
      cache := cache[m.vehicleId := m.reading];
      if write.LostReply? {
        return Err(CallFailed);
      }
      return Ok(true);
    }

    /** The guarded part of the handler: the table first, then the hash. */
    method Process(m: TelemetryMessage, faults: Faults) returns (done: Result<bool, SaveError>)
      modifies this`rows, this`cache
      ensures done.Err? && done.error.UnknownVehicle? <==> !faults.save.Failure? && m.vehicleId !in vehicles
      ensures rows == if m.vehicleId in vehicles && !faults.save.Failure? then Insert(old(rows), m) else old(rows)
      ensures var reached := m.vehicleId in vehicles && faults.save.NoFault? && faults.read.NoFault?;
              && (done.Ok? <==> reached && (CachedSince(old(cache), m.Key()) || faults.write.NoFault?))
              && cache == (if reached && !CachedSince(old(cache), m.Key()) && !faults.write.Failure?
                           then old(cache)[m.vehicleId := m.reading] else old(cache))
      ensures done.Ok? ==> HasKey(rows, m.Key()) && CachedSince(cache, m.Key())
    {
      var saved := SaveReading(m, faults.save);
      if saved.Err? {
        return saved;
      }
      assert m in rows || HasKey(rows, m.Key());
      done := UpdateVehicleState(m, faults.read, faults.write);
    }

    /** Handles one delivery and settles it: the world moves by exactly the steps of that handling. */
    method HandleMessage(body: Body, faults: Faults) returns (settled: Settlement)
      requires body in ready
      modifies this
      ensures View() == After(old(View()), Handling(body, faults))
      ensures ready == if settled.Nacked? then old(ready) else old(ready) - multiset{body}
      ensures settled.Acked? ==> Acceptable(body) && HasKey(rows, body.message.Key()) && CachedSince(cache, body.message.Key())
      ensures settled.Rejected? <==> !Acceptable(body) || (!faults.save.Failure? && body.message.vehicleId !in vehicles)
      ensures faults == NO_FAULTS ==> !settled.Nacked?
    {
      HandlingOutcome(View(), body, faults);
      if !body.Valid() {
        ready := ready - multiset{body};
        return Rejected;
      }
      var done := Process(body.message, faults);
      if done.Err? && done.error.CallFailed? {
        return Nacked;
      }
      ready := ready - multiset{body};
      return if done.Err? then Rejected else Acked;
    }

    /** The consume loop over whatever the broker delivers; it only delivers what is queued. */
    method Consume(deliveries: seq<(Body, Faults)>)
      modifies this
      ensures View() == After(old(View()), Schedule(deliveries))
      ensures Inv(old(View())) ==> Inv(View())
    {
      for i := 0 to |deliveries|
        invariant View() == After(old(View()), Schedule(deliveries[..i]))
      {
        ScheduleExtends(old(View()), deliveries, i);
        var body, faults := deliveries[i].0, deliveries[i].1;
        if body in ready {
          var _ := HandleMessage(body, faults);
        } else {
          UnqueuedDoesNothing(View(), body, faults);
        }
      }
      assert deliveries[..|deliveries|] == deliveries;
      if Inv(old(View())) {
        RunKeepsInv(old(View()), Schedule(deliveries));
      }
    }
  }
}
