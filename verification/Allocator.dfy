/**
 * Vehicles, rentals and station capacities. Each request is one atomic transaction; a request
 * that fails leaves every row as it was.
 */
module Allocator {
  import opened Wrappers
  import opened Sets

  datatype VehicleStatus = Available | Rented | Maintenance

  datatype Vehicle = Vehicle(licensePlate: string, model: string, status: VehicleStatus, stationId: int)

  datatype RentalStatus = Active | Completed | Cancelled

  datatype Rental = Rental(
    renterId: int, vehicleId: int, startStationId: int, endStationId: Option<int>, endedAt: Option<int>, status: RentalStatus)

  /** `stations` maps a station to its capacity. */
  datatype Fleet = Fleet(
    stations: map<int, int>, vehicles: map<int, Vehicle>, renters: set<int>, rentals: map<int, Rental>, nextId: int)

  datatype Error = NotFound | VehicleNotAvailable | StationFull | IntegrityError | AttributeError

  datatype Step =
    | AddRenter
    | CreateStation(capacity: int)
    | CreateVehicle(licensePlate: string, model: string, stationId: int)
    | StartRental(renterId: int, vehicleId: int)
    | EndRental(rentalId: int, stationId: int, now: int)

  // ---------- Requests ----------

  function ParkedIn(vehicles: map<int, Vehicle>, station: int): set<int> {
    set v | v in vehicles && vehicles[v].stationId == station && vehicles[v].status != Rented
  }

  function Parked(f: Fleet, station: int): set<int> {
    ParkedIn(f.vehicles, station)
  }

  function HasFreeSlot(f: Fleet, station: int): bool
    requires station in f.stations
  {
    |Parked(f, station)| < f.stations[station]
  }

  predicate PlateTaken(f: Fleet, plate: string) {
    exists v :: v in f.vehicles && f.vehicles[v].licensePlate == plate
  }

  /** Why a request fails, if it does. */
  function ErrorOf(f: Fleet, step: Step): Option<Error> {
    match step
    case AddRenter => None
    case CreateStation(_) => None
    case CreateVehicle(plate, _, station) =>
      if station !in f.stations then Some(NotFound)
      else if PlateTaken(f, plate) then Some(IntegrityError)
      else None
    case StartRental(renter, vehicle) =>
      if vehicle !in f.vehicles then Some(NotFound)
      else if f.vehicles[vehicle].status != Available then Some(VehicleNotAvailable)
      else if renter !in f.renters then Some(IntegrityError)
      else None
    case EndRental(rental, station, _) =>
      if rental !in f.rentals then Some(NotFound)
      else if f.rentals[rental].status != Active then Some(VehicleNotAvailable)
      else if station !in f.stations then Some(NotFound)
      else if !HasFreeSlot(f, station) then Some(StationFull)
      else if f.rentals[rental].vehicleId !in f.vehicles then Some(AttributeError)
      else None
  }

  function Started(f: Fleet, renter: int, vehicle: int): Fleet
    requires vehicle in f.vehicles
  {
    var v := f.vehicles[vehicle];
    f.(vehicles := f.vehicles[vehicle := v.(status := Rented)],
       rentals := f.rentals[f.nextId := Rental(renter, vehicle, v.stationId, None, None, Active)],
       nextId := f.nextId + 1)
  }

  function Ended(f: Fleet, rental: int, station: int, now: int): Fleet
    requires rental in f.rentals && f.rentals[rental].vehicleId in f.vehicles
  {
    var r := f.rentals[rental];
    f.(rentals := f.rentals[rental := r.(endedAt := Some(now), endStationId := Some(station), status := Completed)],
       vehicles := f.vehicles[r.vehicleId := f.vehicles[r.vehicleId].(status := Available, stationId := station)])
  }

  /** Foreign keys of the rentals and vehicles, and ids not yet given out. */
  ghost predicate KeysValid(f: Fleet) {
    && (forall v :: v in f.vehicles ==> f.vehicles[v].stationId in f.stations && v < f.nextId)
    && (forall r :: r in f.rentals ==> f.rentals[r].vehicleId in f.vehicles && r < f.nextId)
    && (forall s :: s in f.stations ==> s < f.nextId)
  }

  function Apply(f: Fleet, step: Step): Fleet {
    if ErrorOf(f, step).Some? then f
    else match step
      case AddRenter => f.(renters := f.renters + {f.nextId}, nextId := f.nextId + 1)
      case CreateStation(capacity) => f.(stations := f.stations[f.nextId := capacity], nextId := f.nextId + 1)
      case CreateVehicle(plate, model, station) =>
        f.(vehicles := f.vehicles[f.nextId := Vehicle(plate, model, Available, station)], nextId := f.nextId + 1)
      case StartRental(renter, vehicle) => Started(f, renter, vehicle)
      case EndRental(rental, station, now) => Ended(f, rental, station, now)
  }

  // ---------- The invariant ----------

  function ActiveRentals(f: Fleet): set<int> {
    set r | r in f.rentals && f.rentals[r].status == Active
  }

  function ActiveOn(f: Fleet, vehicle: int): set<int> {
    set r | r in f.rentals && f.rentals[r].status == Active && f.rentals[r].vehicleId == vehicle
  }

  /** A vehicle is RENTED exactly when exactly one ACTIVE rental names it, and otherwise none does. */
  ghost predicate RentedOnce(f: Fleet) {
    forall v :: v in f.vehicles ==> |ActiveOn(f, v)| == if f.vehicles[v].status == Rented then 1 else 0
  }

  ghost predicate Inv(f: Fleet) {
    KeysValid(f) && RentedOnce(f)
  }

  lemma StartKeepsRentedOnce(f: Fleet, renter: int, vehicle: int)
    requires Inv(f) && vehicle in f.vehicles && f.vehicles[vehicle].status == Available
    ensures RentedOnce(Started(f, renter, vehicle))
  {
    var f' := Started(f, renter, vehicle);
    forall v | v in f.vehicles
      ensures |ActiveOn(f', v)| == if f'.vehicles[v].status == Rented then 1 else 0
    {
      if v == vehicle {
        assert f.nextId !in f.rentals;
        assert ActiveOn(f', v) == ActiveOn(f, v) + {f.nextId};
      } else {
        assert ActiveOn(f', v) == ActiveOn(f, v);
      }
    }
  }

  lemma EndKeepsRentedOnce(f: Fleet, rental: int, station: int, now: int)
    requires Inv(f) && rental in f.rentals && f.rentals[rental].status == Active
    ensures RentedOnce(Ended(f, rental, station, now))
    ensures f.vehicles[f.rentals[rental].vehicleId].status == Rented
  {
    var f', vehicle := Ended(f, rental, station, now), f.rentals[rental].vehicleId;
    assert rental in ActiveOn(f, vehicle);
    forall v | v in f.vehicles
      ensures |ActiveOn(f', v)| == if f'.vehicles[v].status == Rented then 1 else 0
    {
      assert ActiveOn(f', v) == ActiveOn(f, v) - {rental};
    }
  }

  lemma NoneActiveOn(f: Fleet, vehicle: int)
    requires KeysValid(f) && vehicle !in f.vehicles
    ensures ActiveOn(f, vehicle) == {}
  {
    assert forall r :: r in f.rentals ==> f.rentals[r].vehicleId != vehicle;
  }

  lemma StepKeepsInv(f: Fleet, step: Step)
    requires Inv(f)
    ensures Inv(Apply(f, step))
  {
    var f' := Apply(f, step);
    if ErrorOf(f, step).None? {
      match step
      case StartRental(renter, vehicle) => StartKeepsRentedOnce(f, renter, vehicle);
      case EndRental(rental, station, now) => EndKeepsRentedOnce(f, rental, station, now);
      case CreateVehicle(_, _, _) =>
        forall v | v in f'.vehicles
          ensures |ActiveOn(f', v)| == if f'.vehicles[v].status == Rented then 1 else 0
        {
          assert ActiveOn(f', v) == ActiveOn(f, v);
          if v == f.nextId {
            NoneActiveOn(f, v);
          }
        }
      case _ =>
        forall v | v in f'.vehicles
          ensures |ActiveOn(f', v)| == if f'.vehicles[v].status == Rented then 1 else 0
        {
          assert ActiveOn(f', v) == ActiveOn(f, v);
        }
    }
  }

  /** A fleet before its first rental; vehicles may be in maintenance. */
  ghost predicate Initial(f: Fleet) {
    KeysValid(f) && f.rentals == map[] && forall v :: v in f.vehicles ==> f.vehicles[v].status != Rented
  }

  function After(f: Fleet, steps: seq<Step>): Fleet {
    if steps == [] then f else Apply(After(f, steps[..|steps| - 1]), steps[|steps| - 1])
  }

  lemma AfterNext(f: Fleet, steps: seq<Step>, n: nat)
    requires n < |steps|
    ensures After(f, steps[..n + 1]) == Apply(After(f, steps[..n]), steps[n])
  {
    assert steps[..n + 1][..n] == steps[..n];
  }

  lemma InitialInv(f: Fleet)
    requires Initial(f)
    ensures Inv(f)
  {
    forall v | v in f.vehicles ensures |ActiveOn(f, v)| == 0 {
      assert ActiveOn(f, v) == {};
    }
  }

  lemma {:induction false} RunKeepsInv(f: Fleet, steps: seq<Step>)
    requires Initial(f)
    ensures Inv(After(f, steps))
  {
    if steps == [] {
      InitialInv(f);
    } else {
      RunKeepsInv(f, steps[..|steps| - 1]);
      StepKeepsInv(After(f, steps[..|steps| - 1]), steps[|steps| - 1]);
    }
  }

  // ---------- Conservation ----------

  function NotRented(f: Fleet, stations: set<int>): set<int> {
    set v | v in f.vehicles && f.vehicles[v].status != Rented && f.vehicles[v].stationId in stations
  }

  lemma {:induction false} ParkedAddUp(f: Fleet, stations: set<int>)
    ensures Sum(stations, s => |Parked(f, s)|) == |NotRented(f, stations)|
  {
    if stations != {} {
      var s := Pick(stations);
      ParkedAddUp(f, stations - {s});
      assert NotRented(f, stations) == NotRented(f, stations - {s}) + Parked(f, s);
      DisjointSizes(NotRented(f, stations - {s}), Parked(f, s));
    }
  }

  function RentedAmong(f: Fleet, vehicles: set<int>): set<int> {
    set v | v in vehicles && v in f.vehicles && f.vehicles[v].status == Rented
  }

  function ActiveAmong(f: Fleet, vehicles: set<int>): set<int> {
    set r | r in f.rentals && f.rentals[r].status == Active && f.rentals[r].vehicleId in vehicles
  }

  lemma RentedAdds(f: Fleet, rest: set<int>, v: int)
    requires v in f.vehicles && v !in rest
    ensures |RentedAmong(f, rest + {v})| == |RentedAmong(f, rest)| + if f.vehicles[v].status == Rented then 1 else 0
  {
    if f.vehicles[v].status == Rented {
      assert RentedAmong(f, rest + {v}) == RentedAmong(f, rest) + {v};
    } else {
      assert RentedAmong(f, rest + {v}) == RentedAmong(f, rest);
    }
  }

  lemma ActiveAdds(f: Fleet, rest: set<int>, v: int)
    requires v !in rest
    ensures |ActiveAmong(f, rest + {v})| == |ActiveAmong(f, rest)| + |ActiveOn(f, v)|
  {
    assert ActiveAmong(f, rest + {v}) == ActiveAmong(f, rest) + ActiveOn(f, v);
    DisjointSizes(ActiveAmong(f, rest), ActiveOn(f, v));
  }

  lemma {:induction false} ActiveMatchRented(f: Fleet, vehicles: set<int>)
    requires Inv(f) && vehicles <= f.vehicles.Keys
    ensures |ActiveAmong(f, vehicles)| == |RentedAmong(f, vehicles)|
  {
    if vehicles != {} {
      var v := Pick(vehicles);
      var rest := vehicles - {v};
      ActiveMatchRented(f, rest);
      ActiveAdds(f, rest, v);
      RentedAdds(f, rest, v);
      assert vehicles == rest + {v};
    }
  }

  lemma AllRentalsOnFleet(f: Fleet)
    requires KeysValid(f)
    ensures ActiveAmong(f, f.vehicles.Keys) == ActiveRentals(f)
  {
    assert forall r :: r in f.rentals ==> f.rentals[r].vehicleId in f.vehicles.Keys;
  }

  lemma RentedOrParked(f: Fleet)
    requires KeysValid(f)
    ensures RentedAmong(f, f.vehicles.Keys) + NotRented(f, f.stations.Keys) == f.vehicles.Keys
    ensures RentedAmong(f, f.vehicles.Keys) !! NotRented(f, f.stations.Keys)
  {
    assert forall v :: v in f.vehicles ==> f.vehicles[v].stationId in f.stations.Keys;
  }

  /** Parked vehicles summed over the stations, plus the active rentals, are all the vehicles. */
  lemma Conservation(f: Fleet)
    requires Inv(f)
    ensures Sum(f.stations.Keys, s => |Parked(f, s)|) + |ActiveRentals(f)| == |f.vehicles|
  {
    var rented, parked := RentedAmong(f, f.vehicles.Keys), NotRented(f, f.stations.Keys);
    ParkedAddUp(f, f.stations.Keys);
    ActiveMatchRented(f, f.vehicles.Keys);
    AllRentalsOnFleet(f);
    RentedOrParked(f);
    DisjointSizes(rented, parked);
  }

  lemma RunConserves(f: Fleet, steps: seq<Step>)
    requires Initial(f)
    ensures var g := After(f, steps);
            && RentedOnce(g)
            && Sum(g.stations.Keys, s => |Parked(g, s)|) + |ActiveRentals(g)| == |g.vehicles|
  {
    RunKeepsInv(f, steps);
    Conservation(After(f, steps));
  }

  // ---------- Returns ----------

  /** A return adds its vehicle to the station it ends at, within capacity, and moves nothing else. */
  lemma ReturnRespectsCapacity(f: Fleet, rental: int, station: int, now: int)
    requires Inv(f) && ErrorOf(f, EndRental(rental, station, now)).None?
    ensures var g, vehicle := Apply(f, EndRental(rental, station, now)), f.rentals[rental].vehicleId;
            && vehicle !in Parked(f, station)
            && Parked(g, station) == Parked(f, station) + {vehicle}
            && |Parked(g, station)| == |Parked(f, station)| + 1 <= g.stations[station]
            && ActiveRentals(g) == ActiveRentals(f) - {rental}
            && (forall s :: s != station ==> Parked(g, s) == Parked(f, s))
  {
    EndKeepsRentedOnce(f, rental, station, now);
    var g := Apply(f, EndRental(rental, station, now));
    assert Parked(g, station) == Parked(f, station) + {f.rentals[rental].vehicleId};
  }

  lemma AddedParks(vehicles: map<int, Vehicle>, id: int, vehicle: Vehicle, station: int)
    requires id !in vehicles && vehicle.status == Available
    ensures |ParkedIn(vehicles[id := vehicle], station)| == |ParkedIn(vehicles, station)| + if vehicle.stationId == station then 1 else 0
  {
    var added := if vehicle.stationId == station then {id} else {};
    assert ParkedIn(vehicles[id := vehicle], station) == ParkedIn(vehicles, station) + added;
  }

  lemma CreationParks(f: Fleet, step: Step, station: int)
    requires KeysValid(f) && step.CreateVehicle? && ErrorOf(f, step).None?
    ensures |Parked(Apply(f, step), station)| == |Parked(f, station)| + if step.stationId == station then 1 else 0
  {
    var vehicle := Vehicle(step.licensePlate, step.model, Available, step.stationId);
    assert f.nextId !in f.vehicles;
    AddedParks(f.vehicles, f.nextId, vehicle, station);
  }

  lemma StartFreesSlot(f: Fleet, renter: int, vehicle: int, station: int)
    requires vehicle in f.vehicles
    ensures Parked(Started(f, renter, vehicle), station) == Parked(f, station) - {vehicle}
  {
  }

  /** A station that was within capacity goes past it only when a vehicle is created there. */
  lemma OnlyCreationOverfills(f: Fleet, step: Step, station: int)
    requires Inv(f) && station in f.stations
    requires |Parked(f, station)| <= f.stations[station]
    ensures var g := Apply(f, step);
            && station in g.stations && g.stations[station] == f.stations[station]
            && (|Parked(g, station)| > g.stations[station] <==>
                  ErrorOf(f, step).None? && step.CreateVehicle? && step.stationId == station && !HasFreeSlot(f, station))
  {
    var g := Apply(f, step);
    if ErrorOf(f, step).None? {
      match step
      case EndRental(rental, s, now) => ReturnRespectsCapacity(f, rental, s, now);
      case StartRental(renter, vehicle) =>
        StartFreesSlot(f, renter, vehicle, station);
        Fewer(Parked(g, station), Parked(f, station));
      case CreateVehicle(_, _, _) => CreationParks(f, step, station);
      case _ => assert Parked(g, station) == Parked(f, station);
    }
  }

  /** And a reachable fleet does get there: two vehicles created at a station for one. */
  lemma CreationOverfills()
    ensures var f := Fleet(map[], map[], {}, map[], 1);
            var steps := [CreateStation(1), CreateVehicle("A", "M", 1), CreateVehicle("B", "M", 1)];
            && Initial(f) && 1 in After(f, steps).stations
            && |Parked(After(f, steps), 1)| > After(f, steps).stations[1]
  {
    var f := Fleet(map[], map[], {}, map[], 1);
    var steps := [CreateStation(1), CreateVehicle("A", "M", 1), CreateVehicle("B", "M", 1)];
    var founded := f.(stations := map[1 := 1], nextId := 2);
    var a, b := Vehicle("A", "M", Available, 1), Vehicle("B", "M", Available, 1);
    var one := founded.(vehicles := map[2 := a], nextId := 3);
    var two := one.(vehicles := map[2 := a, 3 := b], nextId := 4);
    AfterNext(f, steps, 0);
    AfterNext(f, steps, 1);
    AfterNext(f, steps, 2);
    assert Apply(f, steps[0]) == founded;
    assert Apply(founded, steps[1]) == one;
    assert "A"[0] != "B"[0];
    assert Apply(one, steps[2]) == two;
    assert steps[..3] == steps;
    assert Parked(two, 1) == {2, 3};
  }

  /** With capacity for the whole fleet, every active rental can end at some station, in every reachable state. */
  lemma SomeStationAccepts(f: Fleet, steps: seq<Step>, rental: int, now: int) returns (station: int)
    requires Initial(f)
    requires var g := After(f, steps);
             && rental in ActiveRentals(g)
             && Sum(g.stations.Keys, s => if s in g.stations then g.stations[s] else 0) >= |g.vehicles|
    ensures ErrorOf(After(f, steps), EndRental(rental, station, now)).None?
  {
    var g := After(f, steps);
    RunKeepsInv(f, steps);
    Conservation(g);
    assert |ActiveRentals(g)| > 0;
    station := SmallerSomewhere(g.stations.Keys, s => |Parked(g, s)|, s => if s in g.stations then g.stations[s] else 0);
  }

  /** A rental that starts and ends leaves its vehicle as it was, but at the station it ended at. */
  lemma StartThenEnd(f: Fleet, renter: int, vehicle: int, station: int, now: int)
    requires Inv(f) && ErrorOf(f, StartRental(renter, vehicle)).None?
    ensures var g := Apply(f, StartRental(renter, vehicle));
            var h := Apply(g, EndRental(f.nextId, station, now));
            ErrorOf(g, EndRental(f.nextId, station, now)).None? ==>
              && h.vehicles == f.vehicles[vehicle := f.vehicles[vehicle].(stationId := station)]
              && h.rentals == f.rentals[f.nextId :=
                   Rental(renter, vehicle, f.vehicles[vehicle].stationId, Some(station), Some(now), Completed)]
              && ActiveRentals(h) == ActiveRentals(f)
  {
    var g := Apply(f, StartRental(renter, vehicle));
    var h := Apply(g, EndRental(f.nextId, station, now));
    assert f.nextId !in f.rentals;
    if ErrorOf(g, EndRental(f.nextId, station, now)).None? {
      assert h.vehicles == f.vehicles[vehicle := f.vehicles[vehicle].(stationId := station)];
      assert ActiveRentals(h) == ActiveRentals(f);
    }
  }

  /** The station it started at takes it back at once, unless creations had overfilled that station. */
  lemma StartStationTakesItBack(f: Fleet, renter: int, vehicle: int, now: int)
    requires Inv(f) && ErrorOf(f, StartRental(renter, vehicle)).None?
    ensures var g, home := Apply(f, StartRental(renter, vehicle)), f.vehicles[vehicle].stationId;
            ErrorOf(g, EndRental(f.nextId, home, now)).None? <==> |Parked(f, home)| <= f.stations[home]
  {
    var home := f.vehicles[vehicle].stationId;
    StartFreesSlot(f, renter, vehicle, home);
    assert vehicle in Parked(f, home);
  }

  // ---------- When requests succeed ----------

  /** A return succeeds for an active rental of an existing vehicle, at an existing station with room. */
  predicate EndsProperly(f: Fleet, rental: int, station: int) {
    && rental in f.rentals && f.rentals[rental].status == Active && f.rentals[rental].vehicleId in f.vehicles
    && station in f.stations && |ParkedIn(f.vehicles, station)| < f.stations[station]
  }

  lemma CreationErrors(f: Fleet, plate: string, model: string, station: int)
    ensures var error := ErrorOf(f, CreateVehicle(plate, model, station));
            && (error.None? <==> station in f.stations && forall v :: v in f.vehicles ==> f.vehicles[v].licensePlate != plate)
            && (error == Some(NotFound) <==> station !in f.stations)
            && (error == Some(IntegrityError) <==>
                  station in f.stations && exists v :: v in f.vehicles && f.vehicles[v].licensePlate == plate)
  {
  }

  ghost predicate PlatesDiffer(f: Fleet) {
    forall v, w :: v in f.vehicles && w in f.vehicles && v != w ==> f.vehicles[v].licensePlate != f.vehicles[w].licensePlate
  }

  lemma StepKeepsPlates(f: Fleet, step: Step)
    requires PlatesDiffer(f)
    ensures PlatesDiffer(Apply(f, step))
  {
  }

  /** No two vehicles of a run ever have one licence plate. */
  lemma {:induction false} RunKeepsPlates(f: Fleet, steps: seq<Step>)
    requires PlatesDiffer(f)
    ensures PlatesDiffer(After(f, steps))
  {
    if steps != [] {
      RunKeepsPlates(f, steps[..|steps| - 1]);
      StepKeepsPlates(After(f, steps[..|steps| - 1]), steps[|steps| - 1]);
    }
  }

  const FIRST_FLEET := Fleet(map[1 := 2], map[2 := Vehicle("A", "M", Available, 1)], {3}, map[], 4)

  const FIRST_STEPS := [CreateStation(2), CreateVehicle("A", "M", 1), AddRenter, StartRental(3, 2), EndRental(4, 1, 9)]

  lemma FirstFleet()
    ensures After(Fleet(map[], map[], {}, map[], 1), FIRST_STEPS[..3]) == FIRST_FLEET
  {
    var f := Fleet(map[], map[], {}, map[], 1);
    assert FIRST_STEPS[..0] == [];
    AfterNext(f, FIRST_STEPS, 0);
    assert After(f, FIRST_STEPS[..1]) == f.(stations := map[1 := 2], nextId := 2);
    AfterNext(f, FIRST_STEPS, 1);
    assert After(f, FIRST_STEPS[..2]).vehicles == FIRST_FLEET.vehicles;
    AfterNext(f, FIRST_STEPS, 2);
  }

  lemma StartsAndEnds()
    ensures Apply(Apply(FIRST_FLEET, FIRST_STEPS[3]), FIRST_STEPS[4])
            == FIRST_FLEET.(rentals := map[4 := Rental(3, 2, 1, Some(1), Some(9), Completed)], nextId := 5)
  {
    var started := Apply(FIRST_FLEET, FIRST_STEPS[3]);
    assert started.rentals == map[4 := Rental(3, 2, 1, None, None, Active)];
    assert started.vehicles == map[2 := Vehicle("A", "M", Rented, 1)];
    assert Parked(started, 1) == {};
    assert Apply(started, FIRST_STEPS[4]).vehicles == FIRST_FLEET.vehicles;
  }

  /** A fleet from nothing: the renter rents the vehicle and brings it back. */
  lemma FirstRental()
    ensures After(Fleet(map[], map[], {}, map[], 1), FIRST_STEPS)
            == FIRST_FLEET.(rentals := map[4 := Rental(3, 2, 1, Some(1), Some(9), Completed)], nextId := 5)
  {
    var f := Fleet(map[], map[], {}, map[], 1);
    FirstFleet();
    StartsAndEnds();
    AfterNext(f, FIRST_STEPS, 3);
    AfterNext(f, FIRST_STEPS, 4);
    assert FIRST_STEPS[..5] == FIRST_STEPS;
  }

  // ---------- The services over the rows they change ----------

  class RentalService {
    var fleet: Fleet

    method StartRental(renter: int, vehicle: int) returns (rental: Result<int, Error>)
      modifies this
      ensures fleet == Apply(old(fleet), Step.StartRental(renter, vehicle))
      ensures rental.Ok? <==>
                && vehicle in old(fleet).vehicles && old(fleet).vehicles[vehicle].status == Available
                && renter in old(fleet).renters
      ensures rental == Err(NotFound) <==> vehicle !in old(fleet).vehicles
      ensures rental == Err(VehicleNotAvailable) <==>
                vehicle in old(fleet).vehicles && old(fleet).vehicles[vehicle].status != Available
      ensures rental == Err(IntegrityError) <==>
                && vehicle in old(fleet).vehicles && old(fleet).vehicles[vehicle].status == Available
                && renter !in old(fleet).renters
      ensures rental.Ok? ==> rental.value == old(fleet).nextId
      ensures rental.Ok? ==>
                && vehicle in old(fleet).vehicles && old(fleet).vehicles[vehicle].status == Available
                && fleet.vehicles == old(fleet).vehicles[vehicle := old(fleet).vehicles[vehicle].(status := Rented)]
                && fleet.rentals == old(fleet).rentals[rental.value :=
                     Rental(renter, vehicle, old(fleet).vehicles[vehicle].stationId, None, None, Active)]
      ensures rental.Err? ==> fleet == old(fleet)
    {
      if vehicle !in fleet.vehicles {
        return Err(NotFound);
      }
      var row := fleet.vehicles[vehicle];
      if row.status != Available {
        return Err(VehicleNotAvailable);
      }
      var id := fleet.nextId;
      if renter !in fleet.renters {
        return Err(IntegrityError);
      }
      fleet := fleet.(vehicles := fleet.vehicles[vehicle := row.(status := Rented)]);
      fleet := fleet.(rentals := fleet.rentals[id := Rental(renter, vehicle, row.stationId, None, None, Active)], nextId := id + 1);
      return Ok(id);
    }

    method EndRental(rental: int, station: int, now: int) returns (error: Option<Error>)
      modifies this
      ensures fleet == Apply(old(fleet), Step.EndRental(rental, station, now))
      ensures error == ErrorOf(old(fleet), Step.EndRental(rental, station, now))
      ensures error.None? <==> EndsProperly(old(fleet), rental, station)
      ensures error == Some(VehicleNotAvailable) <==>
                rental in old(fleet).rentals && old(fleet).rentals[rental].status != Active
      ensures error == Some(NotFound) <==>
                || rental !in old(fleet).rentals
                || (old(fleet).rentals[rental].status == Active && station !in old(fleet).stations)
      ensures error == Some(StationFull) <==>
                && rental in old(fleet).rentals && old(fleet).rentals[rental].status == Active
                && station in old(fleet).stations && |ParkedIn(old(fleet).vehicles, station)| >= old(fleet).stations[station]
      ensures error.Some? ==> fleet == old(fleet)
      ensures error.None? ==>
                && rental in old(fleet).rentals && rental in fleet.rentals
                && fleet.rentals[rental].status == Completed && fleet.rentals[rental].endStationId == Some(station)
                && fleet.rentals[rental].endedAt == Some(now)
                && fleet.rentals[rental].startStationId == old(fleet).rentals[rental].startStationId
    {
      if rental !in fleet.rentals {
        return Some(NotFound);
      }
      var row := fleet.rentals[rental];
      if row.status != Active {
        return Some(VehicleNotAvailable);
      }
      if station !in fleet.stations {
        return Some(NotFound);
      }
      if !HasFreeSlot(fleet, station) {
        return Some(StationFull);
      }
      if row.vehicleId !in fleet.vehicles {
        return Some(AttributeError);
      }
      var vehicle := fleet.vehicles[row.vehicleId];
      fleet := fleet.(rentals := fleet.rentals[rental := row.(endedAt := Some(now), endStationId := Some(station), status := Completed)]);
      fleet := fleet.(vehicles := fleet.vehicles[row.vehicleId := vehicle.(status := Available, stationId := station)]);
      return None;
    }
  }
}
