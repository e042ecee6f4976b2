/**
  Parking garage, as in lld/python/solutions/parking-garage.py.

  A parking lot is a list of levels; a level is a list of numbered spots, each for
  one vehicle type and either empty or holding one vehicle. Parking a vehicle takes
  the first empty spot of its type, trying the levels in the order they were added;
  unparking frees the first spot holding that very vehicle, level by level.
  Only spot occupancy is modelled. Entry and exit times, invoices, fees and
  payment, printing and the singleton access are left out: the calls that would
  stamp times, print or bill are taken to succeed.
*/
module ParkingSolutions {
  import opened Common

  datatype VehicleType = Car | Motorcycle | Truck

  datatype ParkingError =
    | SpotUnavailable  // "Invalid vehicle type or spot already occupied."
    | SpotEmpty        // "Parking spot is already empty"

  /** A vehicle is known by its identity: two vehicles with the same plate differ. */
  class Vehicle {
    const licensePlate: string
    const vehicleType: VehicleType

    constructor (licensePlate: string, vehicleType: VehicleType)
      ensures this.licensePlate == licensePlate && this.vehicleType == vehicleType
    {
      this.licensePlate := licensePlate;
      this.vehicleType := vehicleType;
    }
  }

  // ---------------------------------------------------------------- first match

  /** The index of the first true entry, if any. */
  function First(marks: seq<bool>): Option<nat>
  {
    if marks == [] then None
    else if marks[0] then Some(0)
    else match First(marks[1..])
      case None => None
      case Some(k) => Some(k + 1)
  }

  lemma {:induction false} FirstSpec(marks: seq<bool>)
    ensures First(marks).Some? ==>
      First(marks).value < |marks| && marks[First(marks).value]
      && forall k :: 0 <= k < First(marks).value ==> !marks[k]
    ensures First(marks).None? <==> forall k :: 0 <= k < |marks| ==> !marks[k]
  {
    if marks != [] && !marks[0] {
      FirstSpec(marks[1..]);
      assert forall k :: 0 < k < |marks| ==> marks[k] == marks[1..][k - 1];
    }
  }

  /** When exactly one entry is true, that entry is the first. */
  lemma FirstOnly(marks: seq<bool>, k: nat)
    requires k < |marks| && marks[k]
    requires forall j :: 0 <= j < |marks| && j != k ==> !marks[j]
    ensures First(marks) == Some(k)
  {
    FirstSpec(marks);
  }

  // ---------------------------------------------------------------- one level, as values

  /** The spots of a level a vehicle of type `t` may take. */
  function Fits(occupants: seq<Option<Vehicle>>, types: seq<VehicleType>, t: VehicleType): (r: seq<bool>)
    requires |occupants| == |types|
    ensures |r| == |occupants|
    ensures forall k :: 0 <= k < |r| ==> r[k] == (occupants[k].None? && types[k] == t)
  {
    seq(|occupants|, k requires 0 <= k < |occupants| => occupants[k].None? && types[k] == t)
  }

  /** The spots of a level holding vehicle `v`. */
  function Holds(occupants: seq<Option<Vehicle>>, v: Vehicle): (r: seq<bool>)
    ensures |r| == |occupants|
    ensures forall k :: 0 <= k < |r| ==> r[k] == (occupants[k] == Some(v))
  {
    seq(|occupants|, k requires 0 <= k < |occupants| => occupants[k] == Some(v))
  }

  /** `Level.park_vehicle` on the occupants of a level: the first free spot of the
      vehicle's type takes it. */
  function ParkOnLevel(occupants: seq<Option<Vehicle>>, types: seq<VehicleType>, v: Vehicle): seq<Option<Vehicle>>
    requires |occupants| == |types|
  {
    var k := First(Fits(occupants, types, v.vehicleType));
    if k.Some? && k.value < |occupants| then occupants[k.value := Some(v)] else occupants
  }

  /** `Level.unpark_vehicle` on the occupants of a level: the first spot holding the
      vehicle is freed. */
  function UnparkFromLevel(occupants: seq<Option<Vehicle>>, v: Vehicle): seq<Option<Vehicle>>
  {
    var k := First(Holds(occupants, v));
    if k.Some? && k.value < |occupants| then occupants[k.value := None] else occupants
  }

  /** Parking succeeds exactly when some spot of the vehicle's type is free; it then
      fills the first such spot, which had no free spot of that type before it, and
      changes nothing else; otherwise nothing changes. */
  lemma ParkOnLevelSpec(occupants: seq<Option<Vehicle>>, types: seq<VehicleType>, v: Vehicle)
    requires |occupants| == |types|
    ensures var after := ParkOnLevel(occupants, types, v);
      |after| == |occupants|
      && ((exists k :: 0 <= k < |occupants| && occupants[k].None? && types[k] == v.vehicleType) <==>
        exists k :: 0 <= k < |occupants| && occupants[k].None? && types[k] == v.vehicleType
          && (forall j :: 0 <= j < k ==> !(occupants[j].None? && types[j] == v.vehicleType))
          && after == occupants[k := Some(v)])
      && ((forall k :: 0 <= k < |occupants| ==> !(occupants[k].None? && types[k] == v.vehicleType)) ==>
        after == occupants)
  {
    FirstSpec(Fits(occupants, types, v.vehicleType));
  }

  /** Parking a vehicle not yet on the level and then unparking it gives back the
      level as it was. */
  lemma LevelRoundTrip(occupants: seq<Option<Vehicle>>, types: seq<VehicleType>, v: Vehicle)
    requires |occupants| == |types|
    requires forall k :: 0 <= k < |occupants| ==> occupants[k] != Some(v)
    ensures UnparkFromLevel(ParkOnLevel(occupants, types, v), v) == occupants
  {
    var fits := Fits(occupants, types, v.vehicleType);
    FirstSpec(fits);
    var k := First(fits);
    if k.Some? {
      var after := occupants[k.value := Some(v)];
      FirstOnly(Holds(after, v), k.value);
      assert after[k.value := None] == occupants;
    } else {
      FirstSpec(Holds(occupants, v));
    }
  }

  // ---------------------------------------------------------------- spots

  class ParkingSpot {
    const spotNumber: int
    const vehicleType: VehicleType
    var parkedVehicle: Option<Vehicle>

    /** A new spot is empty. */
    constructor (spotNumber: int, vehicleType: VehicleType)
      ensures this.spotNumber == spotNumber && this.vehicleType == vehicleType
      ensures parkedVehicle == None
    {
      this.spotNumber := spotNumber;
      this.vehicleType := vehicleType;
      parkedVehicle := None;
    }

    predicate IsAvailable()
      reads this
    {
      parkedVehicle.None?
    }

    /** `park_vehicle`: an empty spot of the vehicle's type takes it; anything else
        raises and leaves the spot as it was. */
    method Park(vehicle: Vehicle) returns (outcome: Outcome<ParkingError>)
      modifies this
      ensures old(parkedVehicle).None? && vehicle.vehicleType == vehicleType ==>
        outcome == Pass && parkedVehicle == Some(vehicle)
      ensures !(old(parkedVehicle).None? && vehicle.vehicleType == vehicleType) ==>
        outcome == Fail(SpotUnavailable) && parkedVehicle == old(parkedVehicle)
    {
      if IsAvailable() && vehicle.vehicleType == vehicleType {
        parkedVehicle := Some(vehicle);
        return Pass;
      }
      return Fail(SpotUnavailable);
    }

    /** `unpark_vehicle`: an occupied spot is emptied; an empty one raises. */
    method Unpark() returns (outcome: Outcome<ParkingError>)
      modifies this
      ensures old(parkedVehicle).Some? ==> outcome == Pass && parkedVehicle == None
      ensures old(parkedVehicle).None? ==> outcome == Fail(SpotEmpty) && parkedVehicle == None
    {
      if !IsAvailable() {
        parkedVehicle := None;
        return Pass;
      }
      return Fail(SpotEmpty);
    }
  }

  // ---------------------------------------------------------------- levels

  /** The spot types of a level built with the given number of spots per type:
      motorcycles first, then cars, then trucks. */
  function Layout(motorcycles: nat, cars: nat, trucks: nat): (r: seq<VehicleType>)
    ensures |r| == motorcycles + cars + trucks
  {
    seq(motorcycles, _ => Motorcycle) + seq(cars, _ => Car) + seq(trucks, _ => Truck)
  }

  /** `num` new empty spots of type `t`, numbered on from `number`. */
  method CreateBlock(number: int, num: nat, t: VehicleType) returns (block: seq<ParkingSpot>)
    ensures |block| == num && Distinct(block)
    ensures forall k :: 0 <= k < num ==>
      fresh(block[k]) && block[k].spotNumber == number + k && block[k].vehicleType == t
      && block[k].parkedVehicle == None
  {
    block := [];
    for k := 0 to num
      invariant |block| == k && Distinct(block)
      invariant forall j :: 0 <= j < k ==>
        fresh(block[j]) && block[j].spotNumber == number + j && block[j].vehicleType == t
        && block[j].parkedVehicle == None
    {
      var spot := new ParkingSpot(number + k, t);
      block := block + [spot];
    }
  }

  class Level {
    const floor: int
    const spots: seq<ParkingSpot>

    /** The vehicle in each spot, in list order. */
    function Occupants(): (r: seq<Option<Vehicle>>)
      reads spots
      ensures |r| == |spots| && forall k :: 0 <= k < |spots| ==> r[k] == spots[k].parkedVehicle
    {
      seq(|spots|, k reads spots requires 0 <= k < |spots| => spots[k].parkedVehicle)
    }

    /** The type of each spot, in list order. */
    function Types(): (r: seq<VehicleType>)
      ensures |r| == |spots| && forall k :: 0 <= k < |spots| ==> r[k] == spots[k].vehicleType
    {
      seq(|spots|, k requires 0 <= k < |spots| => spots[k].vehicleType)
    }

    /** A level of empty spots numbered from 1: the motorcycle block, then the cars,
        then the trucks. The spot counts are given rather than derived from the
        total. */
    constructor (floor: int, motorcycles: nat, cars: nat, trucks: nat)
      ensures this.floor == floor && Distinct(spots)
      ensures Types() == Layout(motorcycles, cars, trucks)
      ensures forall k :: 0 <= k < |spots| ==> fresh(spots[k]) && spots[k].spotNumber == k + 1
      ensures forall k :: 0 <= k < |spots| ==> Occupants()[k] == None
    {
      var bikes := CreateBlock(1, motorcycles, Motorcycle);
      var carSpots := CreateBlock(1 + motorcycles, cars, Car);
      var truckSpots := CreateBlock(1 + motorcycles + cars, trucks, Truck);
      var all := bikes + carSpots + truckSpots;
      forall i, j | 0 <= i < j < |all|
        ensures all[i] != all[j]
      {
        if i < motorcycles && motorcycles <= j {
          assert fresh(all[i]) && all[i] in bikes;
        }
      }
      this.floor := floor;
      spots := all;
      new;
      assert Types() == Layout(motorcycles, cars, trucks);
    }

    /** `park_vehicle`: the first empty spot of the vehicle's type takes it. */
    method Park(vehicle: Vehicle) returns (parked: bool)
      requires Distinct(spots)
      modifies spots
      ensures Occupants() == ParkOnLevel(old(Occupants()), Types(), vehicle)
      ensures parked == First(Fits(old(Occupants()), Types(), vehicle.vehicleType)).Some?
    {
      ghost var fits := Fits(Occupants(), Types(), vehicle.vehicleType);
      FirstSpec(fits);
      for i := 0 to |spots|
        invariant Occupants() == old(Occupants())
        invariant forall k :: 0 <= k < i ==> !fits[k]
      {
        var spot := spots[i];
        if spot.IsAvailable() && spot.vehicleType == vehicle.vehicleType {
          assert First(fits) == Some(i);
          var outcome := ParkAt(i, vehicle);
          if outcome.Pass? {
            return true;
          }
        }
      }
      return false;
    }

    /** `spot.park_vehicle(vehicle)` on the i-th spot; the others are untouched. */
    method ParkAt(i: nat, vehicle: Vehicle) returns (outcome: Outcome<ParkingError>)
      requires Distinct(spots) && i < |spots|
      requires spots[i].parkedVehicle.None? && spots[i].vehicleType == vehicle.vehicleType
      modifies spots[i]
      ensures outcome == Pass && Occupants() == old(Occupants())[i := Some(vehicle)]
    {
      outcome := spots[i].Park(vehicle);
    }

    /** `unpark_vehicle`: the first spot holding the vehicle is freed; without one,
        nothing happens and there is no invoice. */
    method Unpark(vehicle: Vehicle) returns (found: bool)
      requires Distinct(spots)
      modifies spots
      ensures Occupants() == UnparkFromLevel(old(Occupants()), vehicle)
      ensures found == First(Holds(old(Occupants()), vehicle)).Some?
    {
      ghost var holds := Holds(Occupants(), vehicle);
      FirstSpec(holds);
      for i := 0 to |spots|
        invariant Occupants() == old(Occupants())
        invariant forall k :: 0 <= k < i ==> !holds[k]
      {
        var spot := spots[i];
        if !spot.IsAvailable() && spot.parkedVehicle == Some(vehicle) {
          assert First(holds) == Some(i);
          UnparkAt(i);
          return true;
        }
      }
      return false;
    }

    /** `spot.unpark_vehicle()` on the i-th spot; the others are untouched. */
    method UnparkAt(i: nat)
      requires Distinct(spots) && i < |spots|
      modifies spots[i]
      ensures Occupants() == old(Occupants())[i := None]
    {
      var _ := spots[i].Unpark();
    }
  }

  // ---------------------------------------------------------------- the lot

  class ParkingLot {
    var levels: seq<Level>

    /** Each level's spots are distinct, and no spot belongs to two levels. */
    predicate Valid()
      reads this
    {
      (forall i :: 0 <= i < |levels| ==> Distinct(levels[i].spots))
      && forall i, j, a, b :: 0 <= i < j < |levels| && 0 <= a < |levels[i].spots| && 0 <= b < |levels[j].spots| ==>
        levels[i].spots[a] != levels[j].spots[b]
    }

    constructor ()
      ensures levels == [] && Valid()
    {
      levels := [];
    }

    /** `add_level`, for a level sharing no spot with the lot's. */
    method AddLevel(level: Level)
      requires Valid() && Distinct(level.spots)
      requires forall i, a, b :: 0 <= i < |levels| && 0 <= a < |levels[i].spots| && 0 <= b < |level.spots| ==>
        levels[i].spots[a] != level.spots[b]
      modifies this
      ensures levels == old(levels) + [level] && Valid()
    {
      levels := levels + [level];
    }

    ghost function Spots(): set<ParkingSpot>
      reads this
    {
      set i, a | 0 <= i < |levels| && 0 <= a < |levels[i].spots| :: levels[i].spots[a]
    }

    /** The occupants of every level, in level order. */
    ghost function Occupancy(): (r: seq<seq<Option<Vehicle>>>)
      reads this, Spots()
      ensures |r| == |levels| && forall i :: 0 <= i < |levels| ==> r[i] == levels[i].Occupants()
    {
      seq(|levels|, i reads this, Spots() requires 0 <= i < |levels| => levels[i].Occupants())
    }

    /** The spot types of every level, in level order. */
    function Types(): (r: seq<seq<VehicleType>>)
      reads this
      ensures |r| == |levels| && forall i :: 0 <= i < |levels| ==> r[i] == levels[i].Types()
    {
      seq(|levels|, i reads this requires 0 <= i < |levels| => levels[i].Types())
    }

    /** `park_vehicle`: the levels are tried in order and the first with a free spot
        of the vehicle's type parks it there; false when no level can. */
    method Park(vehicle: Vehicle) returns (parked: bool)
      requires Valid()
      modifies Spots()
      ensures parked == First(LevelsFit(old(Occupancy()), Types(), vehicle.vehicleType)).Some?
      ensures forall i :: 0 <= i < |levels| ==>
        levels[i].Occupants() == ParkInLot(old(Occupancy()), Types(), vehicle)[i]
    {
      ghost var before := Occupancy();
      ghost var mask := LevelsFit(before, Types(), vehicle.vehicleType);
      FirstSpec(mask);
      for i := 0 to |levels|
        invariant forall j :: 0 <= j < i ==> !mask[j]
        invariant forall j :: 0 <= j < |levels| ==> levels[j].Occupants() == before[j]
      {
        var ok := ParkOnLevelAt(i, vehicle);
        if ok {
          assert First(mask) == Some(i);
          return true;
        }
      }
      return false;
    }

    /** `level.park_vehicle(vehicle)` on level i; the other levels are untouched. */
    method ParkOnLevelAt(i: nat, vehicle: Vehicle) returns (parked: bool)
      requires Valid() && i < |levels|
      modifies levels[i].spots
      ensures parked == First(Fits(old(levels[i].Occupants()), levels[i].Types(), vehicle.vehicleType)).Some?
      ensures levels[i].Occupants() == ParkOnLevel(old(levels[i].Occupants()), levels[i].Types(), vehicle)
      ensures forall j :: 0 <= j < |levels| && j != i ==> levels[j].Occupants() == old(levels[j].Occupants())
    {
      parked := levels[i].Park(vehicle);
      OtherLevelsKept(i);
    }

    /** `unpark_vehicle`: the levels are tried in order and the first holding the
        vehicle frees its spot; false when none holds it. */
    method Unpark(vehicle: Vehicle) returns (unparked: bool)
      requires Valid()
      modifies Spots()
      ensures unparked == First(LevelsHold(old(Occupancy()), vehicle)).Some?
      ensures forall i :: 0 <= i < |levels| ==>
        levels[i].Occupants() == UnparkFromLot(old(Occupancy()), vehicle)[i]
    {
      ghost var before := Occupancy();
      ghost var mask := LevelsHold(before, vehicle);
      FirstSpec(mask);
      for i := 0 to |levels|
        invariant forall j :: 0 <= j < i ==> !mask[j]
        invariant forall j :: 0 <= j < |levels| ==> levels[j].Occupants() == before[j]
      {
        var ok := UnparkFromLevelAt(i, vehicle);
        if ok {
          assert First(mask) == Some(i);
          return true;
        }
      }
      return false;
    }

    /** `level.unpark_vehicle(vehicle)` on level i; the other levels are untouched. */
    method UnparkFromLevelAt(i: nat, vehicle: Vehicle) returns (found: bool)
      requires Valid() && i < |levels|
      modifies levels[i].spots
      ensures found == First(Holds(old(levels[i].Occupants()), vehicle)).Some?
      ensures levels[i].Occupants() == UnparkFromLevel(old(levels[i].Occupants()), vehicle)
      ensures forall j :: 0 <= j < |levels| && j != i ==> levels[j].Occupants() == old(levels[j].Occupants())
    {
      found := levels[i].Unpark(vehicle);
      OtherLevelsKept(i);
    }

    /** Spots of other levels are outside level i's, so changing level i's spots
        leaves them alone. */
    twostate lemma OtherLevelsKept(i: nat)
      requires Valid() && i < |levels| && unchanged(this)
      requires forall o :: o in old(Spots()) && o !in levels[i].spots ==> unchanged(o)
      ensures forall j :: 0 <= j < |levels| && j != i ==> levels[j].Occupants() == old(levels[j].Occupants())
    {
      forall j | 0 <= j < |levels| && j != i
        ensures levels[j].Occupants() == old(levels[j].Occupants())
      {
        forall a | 0 <= a < |levels[j].spots|
          ensures levels[j].spots[a].parkedVehicle == old(levels[j].spots[a].parkedVehicle)
        {
          assert levels[j].spots[a] in old(Spots());
          assert levels[j].spots[a] !in levels[i].spots;
        }
      }
    }
  }

  // ---------------------------------------------------------------- the lot, as values

  /** The levels with a free spot of type `t`. */
  function LevelsFit(occupancy: seq<seq<Option<Vehicle>>>, types: seq<seq<VehicleType>>, t: VehicleType): (r: seq<bool>)
    requires |occupancy| == |types| && forall i :: 0 <= i < |types| ==> |occupancy[i]| == |types[i]|
    ensures |r| == |occupancy|
    ensures forall i :: 0 <= i < |r| ==> r[i] == First(Fits(occupancy[i], types[i], t)).Some?
  {
    seq(|occupancy|, i requires 0 <= i < |occupancy| => First(Fits(occupancy[i], types[i], t)).Some?)
  }

  /** The levels holding vehicle `v`. */
  function LevelsHold(occupancy: seq<seq<Option<Vehicle>>>, v: Vehicle): (r: seq<bool>)
    ensures |r| == |occupancy|
    ensures forall i :: 0 <= i < |r| ==> r[i] == First(Holds(occupancy[i], v)).Some?
  {
    seq(|occupancy|, i requires 0 <= i < |occupancy| => First(Holds(occupancy[i], v)).Some?)
  }

  /** `ParkingLot.park_vehicle` on the occupants of every level. */
  function ParkInLot(occupancy: seq<seq<Option<Vehicle>>>, types: seq<seq<VehicleType>>, v: Vehicle)
    : (r: seq<seq<Option<Vehicle>>>)
    requires |occupancy| == |types| && forall i :: 0 <= i < |types| ==> |occupancy[i]| == |types[i]|
    ensures |r| == |occupancy|
  {
    var i := First(LevelsFit(occupancy, types, v.vehicleType));
    if i.Some? && i.value < |occupancy| then occupancy[i.value := ParkOnLevel(occupancy[i.value], types[i.value], v)]
    else occupancy
  }

  /** `ParkingLot.unpark_vehicle` on the occupants of every level. */
  function UnparkFromLot(occupancy: seq<seq<Option<Vehicle>>>, v: Vehicle): (r: seq<seq<Option<Vehicle>>>)
    ensures |r| == |occupancy|
  {
    var i := First(LevelsHold(occupancy, v));
    if i.Some? && i.value < |occupancy| then occupancy[i.value := UnparkFromLevel(occupancy[i.value], v)]
    else occupancy
  }

  /** Parking puts the vehicle on the first level with a free spot of its type,
      that level changes as `ParkOnLevel` says, and every other level is left as it
      was; when no level has such a spot, nothing changes. */
  lemma ParkInLotSpec(occupancy: seq<seq<Option<Vehicle>>>, types: seq<seq<VehicleType>>, v: Vehicle)
    requires |occupancy| == |types| && forall i :: 0 <= i < |types| ==> |occupancy[i]| == |types[i]|
    ensures var after := ParkInLot(occupancy, types, v);
      (forall i :: 0 <= i < |occupancy| ==> !First(Fits(occupancy[i], types[i], v.vehicleType)).Some?) ==>
        after == occupancy
    ensures forall i ::
      (0 <= i < |occupancy| && First(Fits(occupancy[i], types[i], v.vehicleType)).Some?
       && forall j :: 0 <= j < i ==> !First(Fits(occupancy[j], types[j], v.vehicleType)).Some?)
      ==> ParkInLot(occupancy, types, v) == occupancy[i := ParkOnLevel(occupancy[i], types[i], v)]
  {
    var mask := LevelsFit(occupancy, types, v.vehicleType);
    FirstSpec(mask);
    forall i | 0 <= i < |occupancy| && mask[i] && (forall j :: 0 <= j < i ==> !mask[j])
      ensures First(mask) == Some(i)
    {
    }
  }

  /** A vehicle that a level's parking placed there is one the level holds. */
  lemma {:induction false} ParkedIsHeld(occupants: seq<Option<Vehicle>>, types: seq<VehicleType>, v: Vehicle)
    requires |occupants| == |types| && First(Fits(occupants, types, v.vehicleType)).Some?
    ensures First(Holds(ParkOnLevel(occupants, types, v), v)).Some?
  {
    var k := First(Fits(occupants, types, v.vehicleType));
    FirstSpec(Fits(occupants, types, v.vehicleType));
    var after := ParkOnLevel(occupants, types, v);
    assert after[k.value] == Some(v);
    FirstSpec(Holds(after, v));
  }

  /** Parking a vehicle that is nowhere in the lot and then unparking it gives back
      the lot as it was. */
  lemma LotRoundTrip(occupancy: seq<seq<Option<Vehicle>>>, types: seq<seq<VehicleType>>, v: Vehicle)
    requires |occupancy| == |types| && forall i :: 0 <= i < |types| ==> |occupancy[i]| == |types[i]|
    requires forall i, k :: 0 <= i < |occupancy| && 0 <= k < |occupancy[i]| ==> occupancy[i][k] != Some(v)
    ensures UnparkFromLot(ParkInLot(occupancy, types, v), v) == occupancy
  {
    var fit := LevelsFit(occupancy, types, v.vehicleType);
    FirstSpec(fit);
    var after := ParkInLot(occupancy, types, v);
    forall i | 0 <= i < |occupancy|
      ensures !First(Holds(occupancy[i], v)).Some?
    {
      FirstSpec(Holds(occupancy[i], v));
    }
    var held := LevelsHold(after, v);
    if First(fit).Some? {
      var i := First(fit).value;
      ParkedIsHeld(occupancy[i], types[i], v);
      FirstOnly(held, i);
      LevelRoundTrip(occupancy[i], types[i], v);
      assert after[i := UnparkFromLevel(after[i], v)] == occupancy;
    } else {
      FirstSpec(held);
    }
  }
}
