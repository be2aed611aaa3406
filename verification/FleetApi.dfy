/**
 * The handlers above the allocator and the two cached lists. A handler commits its change and
 * then deletes the key of the list it changed; a request that fails raises before that.
 */
module FleetApi {
  import opened Wrappers
  import opened Sets
  import opened Allocator
  import L = ListCache

  // ---------- Lists ----------

  function Least(ids: set<int>): (least: int)
    requires ids != {}
    ensures least in ids && forall x :: x in ids ==> least <= x
  {
    assert exists least :: least in ids && forall x :: x in ids ==> least <= x by {
      var least := LeastExists(ids);
    }
    var least :| least in ids && forall x :: x in ids ==> least <= x;
    least
  }

  /** ORDER BY id. */
  function InOrder(ids: set<int>): (order: seq<int>)
    ensures forall x :: x in order <==> x in ids
    decreases |ids|
  {
    if ids == {} then [] else [Least(ids)] + InOrder(ids - {Least(ids)})
  }

  /** The body of a list endpoint: the rows of a table in the order of their ids. */
  function Listing<V>(rows: map<int, V>): seq<(int, V)> {
    var ids := InOrder(rows.Keys);
    seq(|ids|, i requires 0 <= i < |ids| => assert ids[i] in ids; (ids[i], rows[ids[i]]))
  }

  lemma {:induction false} OrderAscends(ids: set<int>)
    ensures forall i, j :: 0 <= i < j < |InOrder(ids)| ==> InOrder(ids)[i] < InOrder(ids)[j]
    decreases |ids|
  {
    if ids != {} {
      var rest := InOrder(ids - {Least(ids)});
      OrderAscends(ids - {Least(ids)});
      assert forall j :: 0 <= j < |rest| ==> rest[j] in rest;
    }
  }

  /** A list shows its rows, each once, by ascending id. */
  lemma ListingShowsRows<V>(rows: map<int, V>)
    ensures forall id, row :: (id, row) in Listing(rows) <==> id in rows && rows[id] == row
    ensures forall i, j :: 0 <= i < j < |Listing(rows)| ==> Listing(rows)[i].0 < Listing(rows)[j].0
  {
    var ids := InOrder(rows.Keys);
    OrderAscends(rows.Keys);
    forall id | id in rows ensures (id, rows[id]) in Listing(rows) {
      assert id in ids;
      var i :| 0 <= i < |ids| && ids[i] == id;
      assert Listing(rows)[i] == (id, rows[id]);
    }
    forall id, row | (id, row) in Listing(rows) ensures id in rows && rows[id] == row {
      var i :| 0 <= i < |ids| && Listing(rows)[i] == (id, row);
      assert ids[i] in ids;
    }
  }

  // ---------- Requests ----------

  type VehicleList = seq<(int, Vehicle)>

  type StationList = seq<(int, int)>

  datatype World = World(fleet: Fleet, vehicles: L.State<VehicleList>, stations: L.State<StationList>)

  /** A Redis call of a request may fail; a failed call has no effect here. */
  datatype Request =
    | Handle(step: Step, deleteFails: bool)
    | ListVehicles(reader: int, getFails: bool, setFails: bool)
    | ListStations(reader: int, getFails: bool, setFails: bool)
    | Wait(seconds: real)

  /** Which handler calls invalidate for which list. */
  predicate InvalidatesVehicles(step: Step) {
    step.CreateVehicle? || step.StartRental? || step.EndRental?
  }

  predicate InvalidatesStations(step: Step) {
    step.CreateStation?
  }

  /** A transaction commits the table behind a list, and the handler deletes the key or does not. */
  function Committed<P>(list: L.State<P>, payload: P, deleted: bool): L.State<P> {
    var committed := L.Apply(list, L.Commit(payload));
    if deleted then L.Apply(committed, L.Delete(true)) else committed
  }

  function Handled(w: World, step: Step, deleteFails: bool): World {
    if ErrorOf(w.fleet, step).Some? then w
    else
      var fleet := Apply(w.fleet, step);
      World(
        fleet,
        Committed(w.vehicles, Listing(fleet.vehicles), InvalidatesVehicles(step) && !deleteFails),
        Committed(w.stations, Listing(fleet.stations), InvalidatesStations(step) && !deleteFails))
  }

  function Perform(w: World, request: Request): World {
    match request
    case Handle(step, deleteFails) => Handled(w, step, deleteFails)
    case ListVehicles(reader, getFails, setFails) =>
      w.(vehicles := L.ReadThrough(w.vehicles, reader, getFails, if setFails then L.Lost else L.Applied))
    case ListStations(reader, getFails, setFails) =>
      w.(stations := L.ReadThrough(w.stations, reader, getFails, if setFails then L.Lost else L.Applied))
    case Wait(seconds) => w.(vehicles := L.Apply(w.vehicles, L.Tick(seconds)), stations := L.Apply(w.stations, L.Tick(seconds)))
  }

  function AfterRequests(w: World, requests: seq<Request>): World {
    if requests == [] then w
    else Perform(AfterRequests(w, requests[..|requests| - 1]), requests[|requests| - 1])
  }

  // ---------- A key is deleted exactly when its rows change ----------

  lemma VehiclesChangeIff(f: Fleet, step: Step)
    requires Inv(f)
    ensures Apply(f, step).vehicles != f.vehicles <==> ErrorOf(f, step).None? && InvalidatesVehicles(step)
  {
    if ErrorOf(f, step).None? {
      match step
      case CreateVehicle(_, _, _) => assert f.nextId !in f.vehicles && f.nextId in Apply(f, step).vehicles;
      case StartRental(_, vehicle) => assert Apply(f, step).vehicles[vehicle].status != f.vehicles[vehicle].status;
      case EndRental(rental, station, now) =>
        EndKeepsRentedOnce(f, rental, station, now);
        assert Apply(f, step).vehicles[f.rentals[rental].vehicleId].status != f.vehicles[f.rentals[rental].vehicleId].status;
      case _ =>
    }
  }

  lemma StationsChangeIff(f: Fleet, step: Step)
    requires Inv(f)
    ensures Apply(f, step).stations != f.stations <==> ErrorOf(f, step).None? && InvalidatesStations(step)
  {
    if step.CreateStation? {
      assert f.nextId !in f.stations && f.nextId in Apply(f, step).stations;
    }
  }

  // ---------- Coherence ----------

  /** A list endpoint shows these rows, from the cache or not. */
  ghost predicate Shows<V>(list: L.State<seq<(int, V)>>, rows: map<int, V>) {
    L.Coherent(list) && L.Table(list) == Listing(rows)
  }

  ghost predicate Coherent(w: World) {
    Inv(w.fleet) && Shows(w.vehicles, w.fleet.vehicles) && Shows(w.stations, w.fleet.stations)
  }

  lemma CommittedShows<V>(list: L.State<seq<(int, V)>>, rows: map<int, V>, rows': map<int, V>, deleted: bool)
    requires Shows(list, rows) && (rows' != rows ==> deleted)
    ensures Shows(Committed(list, Listing(rows'), deleted), rows')
  {
  }

  /** A request keeps both lists coherent, unless its own delete fails after it changed the rows. */
  lemma RequestKeepsCoherent(w: World, request: Request)
    requires Coherent(w) && (request.Handle? ==> !request.deleteFails)
    ensures Coherent(Perform(w, request))
  {
    match request
    case Handle(step, _) =>
      if ErrorOf(w.fleet, step).None? {
        StepKeepsInv(w.fleet, step);
        VehiclesChangeIff(w.fleet, step);
        StationsChangeIff(w.fleet, step);
        var fleet := Apply(w.fleet, step);
        CommittedShows(w.vehicles, w.fleet.vehicles, fleet.vehicles, InvalidatesVehicles(step));
        CommittedShows(w.stations, w.fleet.stations, fleet.stations, InvalidatesStations(step));
      }
    case ListVehicles(reader, getFails, setFails) =>
      L.ReadKeepsCoherent(w.vehicles, reader, getFails, if setFails then L.Lost else L.Applied);
    case ListStations(reader, getFails, setFails) =>
      L.ReadKeepsCoherent(w.stations, reader, getFails, if setFails then L.Lost else L.Applied);
    case Wait(_) =>
  }

  /**
   * Requests that do not overlap and whose deletes reach Redis, other Redis calls failing or not:
   * after every sequence of them a cached list is the listing of its table.
   */
  lemma {:induction false} SequentialIsCoherent(w: World, requests: seq<Request>)
    requires Coherent(w)
    requires forall i :: 0 <= i < |requests| && requests[i].Handle? ==> !requests[i].deleteFails
    ensures Coherent(AfterRequests(w, requests))
  {
    if requests != [] {
      SequentialIsCoherent(w, requests[..|requests| - 1]);
      RequestKeepsCoherent(AfterRequests(w, requests[..|requests| - 1]), requests[|requests| - 1]);
    }
  }

  /** So every list that is served then is the current one. */
  lemma SequentialServesCurrent(w: World, requests: seq<Request>, reader: int, getFails: bool, setFails: bool)
    requires Coherent(w)
    requires forall i :: 0 <= i < |requests| && requests[i].Handle? ==> !requests[i].deleteFails
    ensures var s := AfterRequests(w, requests);
            var v, t := Perform(s, ListVehicles(reader, getFails, setFails)), Perform(s, ListStations(reader, getFails, setFails));
            && |v.vehicles.served| == |s.vehicles.served| + 1 && |t.stations.served| == |s.stations.served| + 1
            && v.vehicles.served[|s.vehicles.served|].payload == Listing(s.fleet.vehicles)
            && t.stations.served[|s.stations.served|].payload == Listing(s.fleet.stations)
  {
    var s := AfterRequests(w, requests);
    SequentialIsCoherent(w, requests);
    L.ReadKeepsCoherent(s.vehicles, reader, getFails, if setFails then L.Lost else L.Applied);
    L.ReadKeepsCoherent(s.stations, reader, getFails, if setFails then L.Lost else L.Applied);
  }

  /** A delete that fails after a change leaves a cached list stale: the condition on deletes is needed. */
  lemma FailedDeleteIsStale(w: World, step: Step)
    requires Coherent(w) && w.vehicles.entry.Some?
    ensures L.CacheCurrent(Handled(w, step, true).vehicles) <==> Apply(w.fleet, step).vehicles == w.fleet.vehicles
  {
    var f, g := w.fleet.vehicles, Apply(w.fleet, step).vehicles;
    ListingShowsRows(f);
    ListingShowsRows(g);
    if g != f && Listing(g) == Listing(f) {
      SameListing(f, g);
    }
  }

  lemma SameListing<V>(a: map<int, V>, b: map<int, V>)
    requires Listing(a) == Listing(b)
    ensures a == b
  {
    ListingShowsRows(a);
    ListingShowsRows(b);
    forall id ensures (id in a <==> id in b) && (id in a && id in b ==> a[id] == b[id]) {
      assert id in a ==> (id, a[id]) in Listing(a);
      assert id in b ==> (id, b[id]) in Listing(b);
    }
  }

  // ---------- Whatever fails, a stale list is not served for long ----------

  /** The steps of a request on the cached vehicle list. */
  function VehicleSteps(w: World, request: Request): seq<L.Step<VehicleList>> {
    match request
    case Handle(step, deleteFails) =>
      if ErrorOf(w.fleet, step).Some? then []
      else if InvalidatesVehicles(step) && !deleteFails then [L.Commit(Listing(Apply(w.fleet, step).vehicles)), L.Delete(true)]
      else [L.Commit(Listing(Apply(w.fleet, step).vehicles))]
    case ListVehicles(reader, getFails, setFails) => L.ReadSteps(reader, getFails, if setFails then L.Lost else L.Applied)
    case ListStations(_, _, _) => []
    case Wait(seconds) => [L.Tick(seconds)]
  }

  lemma RequestIsRun(w: World, request: Request)
    ensures Perform(w, request).vehicles == L.After(w.vehicles, VehicleSteps(w, request))
  {
    var steps := VehicleSteps(w, request);
    if request.ListVehicles? {
      L.ReadIsRun(w.vehicles, request.reader, request.getFails, if request.setFails then L.Lost else L.Applied);
    } else if |steps| > 0 {
      assert steps[..1][..0] == [];
      assert L.After(w.vehicles, steps[..1]) == L.Apply(w.vehicles, steps[0]);
      assert |steps| == 1 ==> steps[..1] == steps;
    }
  }

  lemma WaitPassesTime(w: World, seconds: real)
    requires seconds >= 0.0
    ensures var t := Perform(w, Wait(seconds));
            && t == w.(vehicles := t.vehicles, stations := t.stations)
            && t.vehicles == w.vehicles.(now := w.vehicles.now + seconds)
            && t.stations == w.stations.(now := w.stations.now + seconds)
  {
  }

  lemma {:induction false} RequestsAreRun(w: World, requests: seq<Request>) returns (steps: seq<L.Step<VehicleList>>)
    ensures AfterRequests(w, requests).vehicles == L.After(w.vehicles, steps)
  {
    if requests == [] {
      steps := [];
    } else {
      var init, last := requests[..|requests| - 1], requests[|requests| - 1];
      var before := RequestsAreRun(w, init);
      RequestIsRun(AfterRequests(w, init), last);
      L.AfterConcat(w.vehicles, before, VehicleSteps(AfterRequests(w, init), last));
      steps := before + VehicleSteps(AfterRequests(w, init), last);
    }
  }

  lemma ReadKeepsVersions<P>(s: L.State<P>, reader: int, getFails: bool, outcome: L.SetOutcome)
    ensures var t := L.ReadThrough(s, reader, getFails, outcome);
            t.table == s.table && t.past == s.past
  {
  }

  /** A request leaves the versions of the vehicle list, or adds the listing of the fleet it leaves. */
  lemma RequestAddsListing(w: World, request: Request)
    ensures var t := Perform(w, request);
            || L.Versions(t.vehicles) == L.Versions(w.vehicles)
            || (&& t.vehicles.now == w.vehicles.now
                && L.Versions(t.vehicles) == L.Versions(w.vehicles) + [L.Version(w.vehicles.now, Listing(t.fleet.vehicles))])
  {
    if request.ListVehicles? {
      ReadKeepsVersions(w.vehicles, request.reader, request.getFails, if request.setFails then L.Lost else L.Applied);
    }
  }

  /** This world was reached when the version began, and the version lists its vehicles. */
  ghost predicate Began(w: World, version: L.Version<VehicleList>) {
    w.vehicles.now == version.since && Listing(w.fleet.vehicles) == version.payload
  }

  /** Every version of the vehicle list is the listing of an earlier world of the run. */
  lemma {:induction false} VersionBegan(w: World, requests: seq<Request>, j: nat) returns (n: nat)
    requires w.vehicles.past == [] && Began(w, w.vehicles.table)
    requires j < |L.Versions(AfterRequests(w, requests).vehicles)|
    ensures n <= |requests| && Began(AfterRequests(w, requests[..n]), L.Versions(AfterRequests(w, requests).vehicles)[j])
  {
    if requests == [] {
      n := 0;
    } else {
      var m := |requests| - 1;
      RequestAddsListing(AfterRequests(w, requests[..m]), requests[m]);
      if j < |L.Versions(AfterRequests(w, requests[..m]).vehicles)| {
        n := VersionBegan(w, requests[..m], j);
        assert requests[..m][..n] == requests[..n];
      } else {
        n := |requests|;
        assert requests[..n] == requests;
      }
    }
  }

  /**
   * Deletes may fail: a vehicle list served at T was the table's at an instant t no earlier than
   * T - TTL - gap, and it is the listing of the fleet that some earlier world of the run had by t.
   */
  lemma StaleAtMost(w: World, requests: seq<Request>, i: nat) returns (t: real, n: nat)
    requires L.Initial(w.vehicles) && Began(w, w.vehicles.table)
    requires i < |AfterRequests(w, requests).vehicles.served|
    ensures var list := AfterRequests(w, requests).vehicles;
            var r := list.served[i];
            && L.WasTable(list, r.payload, t) && r.at - w.vehicles.ttl - (r.setAt - r.loadedAt) <= t <= r.at
            && n <= |requests|
            && AfterRequests(w, requests[..n]).vehicles.now <= t
            && r.payload == Listing(AfterRequests(w, requests[..n]).fleet.vehicles)
  {
    var steps := RequestsAreRun(w, requests);
    t := L.BoundedStaleness(w.vehicles, steps, i);
    var list := AfterRequests(w, requests).vehicles;
    var j: nat :| L.HeldAt(L.Versions(list), j, t) && L.Versions(list)[j].payload == list.served[i].payload;
    n := VersionBegan(w, requests, j);
  }

  // ---------- Where runs start, and a run that goes stale ----------

  function FreshList<P>(ttl: real, now: real, payload: P): L.State<P> {
    L.State(ttl, now, L.Version(now, payload), [], None, map[], [], [])
  }

  /** A fleet before its first rental, and nothing cached. */
  function Start(f: Fleet, ttl: real, now: real): World {
    World(f, FreshList(ttl, now, Listing(f.vehicles)), FreshList(ttl, now, Listing(f.stations)))
  }

  lemma StartIsCoherent(f: Fleet, ttl: real, now: real)
    requires Initial(f) && ttl >= 0.0
    ensures var w := Start(f, ttl, now);
            Coherent(w) && L.Initial(w.vehicles) && L.Initial(w.stations) && Began(w, w.vehicles.table)
  {
    InitialInv(f);
  }

  const NO_FLEET := Fleet(map[], map[], {}, map[], 1)

  /** A station, a read that caches the empty vehicle list, and a vehicle whose delete fails. */
  const STALE_RUN := [
    Handle(CreateStation(1), false), ListVehicles(7, false, false), Handle(CreateVehicle("A", "M", 1), true)]

  lemma ReadBeforeCreation(ttl: real)
    requires ttl > 0.0
    ensures var w := AfterRequests(Start(NO_FLEET, ttl, 0.0), STALE_RUN[..2]);
            && Coherent(w) && L.Live(w.vehicles)
            && w.fleet == NO_FLEET.(stations := map[1 := 1], nextId := 2)
  {
    var w := Start(NO_FLEET, ttl, 0.0);
    StartIsCoherent(NO_FLEET, ttl, 0.0);
    assert STALE_RUN[..2][..1] == STALE_RUN[..1] && STALE_RUN[..1][..0] == [];
    assert AfterRequests(w, STALE_RUN[..1]) == Perform(w, STALE_RUN[0]);
    SequentialIsCoherent(w, STALE_RUN[..2]);
    L.MissFills(Perform(w, STALE_RUN[0]).vehicles, 7, false, L.Applied);
  }

  lemma FailedDeleteHappens(ttl: real)
    requires ttl > 0.0
    ensures var w := AfterRequests(Start(NO_FLEET, ttl, 0.0), STALE_RUN);
            w.vehicles.entry.Some? && !L.CacheCurrent(w.vehicles) && L.Live(w.vehicles)
  {
    var before := AfterRequests(Start(NO_FLEET, ttl, 0.0), STALE_RUN[..2]);
    ReadBeforeCreation(ttl);
    VehiclesChangeIff(before.fleet, CreateVehicle("A", "M", 1));
    FailedDeleteIsStale(before, CreateVehicle("A", "M", 1));
  }

  // ---------- The handlers ----------

  class Api {
    const rentals: RentalService
    var vehicles: L.State<VehicleList>
    var stations: L.State<StationList>

    constructor (rentals: RentalService, vehicles: L.State<VehicleList>, stations: L.State<StationList>)
      ensures this.rentals == rentals && this.vehicles == vehicles && this.stations == stations
    {
      this.rentals, this.vehicles, this.stations := rentals, vehicles, stations;
    }

    ghost function View(): World
      reads this, rentals
    {
      World(rentals.fleet, vehicles, stations)
    }

    /** The tables behind both lists are what the transaction left. */
    method Commit()
      modifies this
      ensures vehicles == L.Apply(old(vehicles), L.Commit(Listing(rentals.fleet.vehicles)))
      ensures stations == L.Apply(old(stations), L.Commit(Listing(rentals.fleet.stations)))
    {
      vehicles := vehicles.(past := L.Versions(vehicles), table := L.Version(vehicles.now, Listing(rentals.fleet.vehicles)));
      stations := stations.(past := L.Versions(stations), table := L.Version(stations.now, Listing(rentals.fleet.stations)));
    }

    method CreateStation(capacity: int, deleteFails: bool) returns (id: int)
      modifies this, rentals
      ensures View() == Perform(old(View()), Handle(Step.CreateStation(capacity), deleteFails))
      ensures id == old(rentals.fleet).nextId && rentals.fleet.stations == old(rentals.fleet).stations[id := capacity]
      ensures !deleteFails ==> stations.entry.None?
    {
      var fleet := rentals.fleet;
      id := fleet.nextId;
      rentals.fleet := fleet.(stations := fleet.stations[id := capacity], nextId := id + 1);
      Commit();
      if !deleteFails {
        stations := stations.(entry := None);
      }
    }

    method InvalidateVehicles(fails: bool)
      modifies this`vehicles
      ensures vehicles == if fails then old(vehicles) else L.Apply(old(vehicles), L.Delete(true))
    {
      if !fails {
        vehicles := vehicles.(entry := None);
      }
    }

    method StartRental(renter: int, vehicle: int, deleteFails: bool) returns (rental: Result<int, Error>)
      modifies this, rentals
      ensures View() == Perform(old(View()), Handle(Step.StartRental(renter, vehicle), deleteFails))
      ensures rental.Ok? <==>
                && vehicle in old(rentals.fleet).vehicles && old(rentals.fleet).vehicles[vehicle].status == Available
                && renter in old(rentals.fleet).renters
      ensures rental.Err? ==> View() == old(View())
      ensures rental.Ok? && !deleteFails ==> vehicles.entry.None?
    {
      rental := rentals.StartRental(renter, vehicle);
      if rental.Err? {
        return;
      }
      Commit();
      InvalidateVehicles(deleteFails);
    }

    method EndRental(rental: int, station: int, now: int, deleteFails: bool) returns (error: Option<Error>)
      modifies this, rentals
      ensures View() == Perform(old(View()), Handle(Step.EndRental(rental, station, now), deleteFails))
      ensures error.None? <==> EndsProperly(old(rentals.fleet), rental, station)
      ensures error.Some? ==> View() == old(View())
      ensures error.None? && !deleteFails ==> vehicles.entry.None?
    {
      error := rentals.EndRental(rental, station, now);
      if error.Some? {
        return;
      }
      Commit();
      InvalidateVehicles(deleteFails);
    }

    method CreateVehicle(plate: string, model: string, station: int, deleteFails: bool) returns (id: Result<int, Error>)
      modifies this, rentals
      ensures View() == Perform(old(View()), Handle(Step.CreateVehicle(plate, model, station), deleteFails))
      ensures id == Err(NotFound) <==> station !in old(rentals.fleet).stations
      ensures id == Err(IntegrityError) <==>
                && station in old(rentals.fleet).stations
                && exists v :: v in old(rentals.fleet).vehicles && old(rentals.fleet).vehicles[v].licensePlate == plate
      ensures id.Err? ==> id.error == NotFound || id.error == IntegrityError
      ensures id.Ok? ==> id.value == old(rentals.fleet).nextId
      ensures id.Err? ==> View() == old(View())
      ensures id.Ok? && !deleteFails ==> vehicles.entry.None?
      ensures id.Ok? ==> id.value in rentals.fleet.vehicles
                         && rentals.fleet.vehicles[id.value] == Vehicle(plate, model, Available, station)
    {
      var fleet := rentals.fleet;
      if station !in fleet.stations {
        return Err(NotFound);
      }
      if PlateTaken(fleet, plate) {
        return Err(IntegrityError);
      }
      id := Ok(fleet.nextId);
      rentals.fleet := fleet.(
        vehicles := fleet.vehicles[fleet.nextId := Vehicle(plate, model, Available, station)], nextId := fleet.nextId + 1);
      Commit();
      InvalidateVehicles(deleteFails);
    }
  }
}
