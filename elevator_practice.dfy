/**
  Elevator cars and their dispatcher, as in lld/python/practice/elevator-system.py.

  Each car keeps a bounded FIFO of requests, a floor, a direction and a running flag.
  Threads, locks, the condition variable and the one-second sleeps are not modelled:
  a call that would block waiting for a request is excluded by a precondition, and
  the worker loop stops where the source would wait for the next request.
  The floor-by-floor progress lines the source prints are returned as a trace.
*/
module ElevatorPractice {
  import opened Common

  datatype Direction = Up | Down

  datatype Request = Request(sourceFloor: int, destinationFloor: int)

  /** The exception the controller raises: `self.elevators[0]` on an empty fleet. */
  datatype ControllerError = IndexError

  /** The queue after offering r to a car of the given capacity: appended below capacity, dropped otherwise. */
  function Enqueue(q: seq<Request>, r: Request, capacity: int): seq<Request>
  {
    if |q| < capacity then q + [r] else q
  }

  /** A queue that a car of this capacity can hold. */
  predicate WithinCapacity(q: seq<Request>, capacity: int)
  {
    q == [] || |q| <= capacity
  }

  lemma EnqueueKeepsCapacity(q: seq<Request>, r: Request, capacity: int)
    requires WithinCapacity(q, capacity)
    ensures WithinCapacity(Enqueue(q, r, capacity), capacity)
    ensures |q| >= capacity ==> Enqueue(q, r, capacity) == q
    ensures |q| < capacity ==> |Enqueue(q, r, capacity)| == |q| + 1
    ensures |q| < capacity ==> Enqueue(q, r, capacity)[..|q|] == q && Enqueue(q, r, capacity)[|q|] == r
  {
  }

  /** The floors a car passes through, one per step, travelling from `from` to `to`. */
  function Path(from: int, to: int): seq<int>
    decreases Abs(to - from)
  {
    if from == to then []
    else if from < to then [from + 1] + Path(from + 1, to)
    else [from - 1] + Path(from - 1, to)
  }

  /** Each step of a path moves exactly one floor towards the target, and the path ends at it. */
  lemma {:induction false} PathSteps(from: int, to: int)
    ensures |Path(from, to)| == Abs(to - from)
    ensures forall i :: 0 <= i < |Path(from, to)| ==>
      Path(from, to)[i] == if from < to then from + i + 1 else from - i - 1
    ensures Path(from, to) != [] ==> Path(from, to)[|Path(from, to)| - 1] == to
    decreases Abs(to - from)
  {
    if from < to {
      PathSteps(from + 1, to);
    } else if from > to {
      PathSteps(from - 1, to);
    }
  }

  /** The direction shown after moving from `from` to `to`; unchanged when no step is taken. */
  function MoveDirection(from: int, to: int, d: Direction): Direction
  {
    if from < to then Up else if from > to then Down else d
  }

  /** The floors passed while serving r from floor f: the pickup leg (skipped when already at the
      source), then the drop-off leg (skipped when source and destination agree). */
  function ServeTrace(f: int, r: Request): seq<int>
  {
    (if f != r.sourceFloor then Path(f, r.sourceFloor) else [])
    + (if r.sourceFloor != r.destinationFloor then Path(r.sourceFloor, r.destinationFloor) else [])
  }

  /** The direction after serving r from floor f with direction d. */
  function ServeDirection(f: int, d: Direction, r: Request): Direction
  {
    MoveDirection(r.sourceFloor, r.destinationFloor, MoveDirection(f, r.sourceFloor, d))
  }

  /** A request from the car's own floor to that same floor passes no floor at all. */
  lemma NoOpLegs(f: int, r: Request)
    requires r.sourceFloor == f && r.destinationFloor == f
    ensures ServeTrace(f, r) == []
  {
  }

  /** Serving a request moves at most one floor per step along the trace, and ends at the destination. */
  lemma {:induction false} ServeTraceSteps(f: int, r: Request)
    ensures |ServeTrace(f, r)| == Abs(r.sourceFloor - f) + Abs(r.destinationFloor - r.sourceFloor)
    ensures ServeTrace(f, r) != [] ==> ServeTrace(f, r)[|ServeTrace(f, r)| - 1] == r.destinationFloor
    ensures forall i :: 0 < i < |ServeTrace(f, r)| ==> Abs(ServeTrace(f, r)[i] - ServeTrace(f, r)[i - 1]) == 1
    ensures ServeTrace(f, r) != [] ==> Abs(ServeTrace(f, r)[0] - f) == 1
  {
    PathSteps(f, r.sourceFloor);
    PathSteps(r.sourceFloor, r.destinationFloor);
    var p1 := if f != r.sourceFloor then Path(f, r.sourceFloor) else [];
    var p2 := if r.sourceFloor != r.destinationFloor then Path(r.sourceFloor, r.destinationFloor) else [];
    assert ServeTrace(f, r) == p1 + p2;
  }

  /** The floors passed while serving the queue q in order from floor f. */
  function ServeAllTrace(f: int, q: seq<Request>): seq<int>
    decreases |q|
  {
    if q == [] then [] else ServeTrace(f, q[0]) + ServeAllTrace(q[0].destinationFloor, q[1..])
  }

  /** The direction after serving the queue q in order from floor f with direction d. */
  function ServeAllDirection(f: int, d: Direction, q: seq<Request>): Direction
    decreases |q|
  {
    if q == [] then d else ServeAllDirection(q[0].destinationFloor, ServeDirection(f, d, q[0]), q[1..])
  }

  /** The floor a car stands at after serving q in order from floor f. */
  function ServeAllFloor(f: int, q: seq<Request>): int
    decreases |q|
  {
    if q == [] then f else ServeAllFloor(q[0].destinationFloor, q[1..])
  }

  /** Requests are served in FIFO order: a non-empty queue leaves the car at its last destination,
      and requests queued behind it are served only after all of it, starting from that floor. */
  lemma {:induction false} ServeAllFifo(f: int, q: seq<Request>, later: seq<Request>)
    requires q != []
    ensures ServeAllFloor(f, q) == q[|q| - 1].destinationFloor
    ensures ServeAllTrace(f, q + later)
      == ServeAllTrace(f, q) + ServeAllTrace(q[|q| - 1].destinationFloor, later)
    decreases |q|
  {
    assert (q + later)[0] == q[0];
    assert (q + later)[1..] == q[1..] + later;
    if |q| > 1 {
      ServeAllFifo(q[0].destinationFloor, q[1..], later);
    } else {
      assert q[1..] == [];
    }
  }

  class Elevator {
    const id: int
    const capacity: int
    var currentFloor: int
    var currentDirection: Direction
    var requests: seq<Request>
    var running: bool

    ghost predicate Valid()
      reads this
    {
      WithinCapacity(requests, capacity)
    }

    constructor (id: int, capacity: int)
      ensures Valid()
      ensures this.id == id && this.capacity == capacity
      ensures currentFloor == 1 && currentDirection == Up && requests == [] && running
    {
      this.id := id;
      this.capacity := capacity;
      currentFloor := 1;
      currentDirection := Up;
      requests := [];
      running := true;
    }

    /** Appends r below capacity; on a full queue the request is dropped without any signal. */
    method AddRequest(r: Request)
      requires Valid()
      modifies this`requests
      ensures Valid()
      ensures requests == Enqueue(old(requests), r, capacity)
    {
      if |requests| < capacity {
        requests := requests + [r];
      }
    }

    /** Pops the head of the queue (FIFO). The source waits while the car runs with an empty queue;
        that wait is not modelled, so the call is made only when it would return at once. */
    method GetNextRequest() returns (r: Option<Request>)
      requires Valid()
      requires requests != [] || !running
      modifies this`requests
      ensures Valid()
      ensures old(requests) == [] ==> r == None && requests == []
      ensures old(requests) != [] ==> r == Some(old(requests)[0]) && requests == old(requests)[1..]
    {
      if requests != [] {
        r := Some(requests[0]);
        requests := requests[1..];
      } else {
        r := None;
      }
    }

    /** Moves one floor per step towards target while the car runs; returns the floors passed. */
    method MoveToFloor(target: int) returns (trace: seq<int>)
      modifies this`currentFloor, this`currentDirection
      ensures running ==> currentFloor == target && trace == Path(old(currentFloor), target)
      ensures running ==> currentDirection == MoveDirection(old(currentFloor), target, old(currentDirection))
      ensures !running ==> currentFloor == old(currentFloor) && currentDirection == old(currentDirection) && trace == []
    {
      trace := [];
      while currentFloor != target && running
        invariant running ==> trace + Path(currentFloor, target) == Path(old(currentFloor), target)
        invariant old(currentFloor) <= target ==> old(currentFloor) <= currentFloor <= target
        invariant old(currentFloor) >= target ==> target <= currentFloor <= old(currentFloor)
        invariant !running ==> currentFloor == old(currentFloor)
        invariant currentFloor == old(currentFloor) ==> currentDirection == old(currentDirection) && trace == []
        invariant currentFloor != old(currentFloor) ==> currentDirection == MoveDirection(old(currentFloor), target, currentDirection)
        invariant currentFloor != old(currentFloor) ==> currentDirection == (if old(currentFloor) < target then Up else Down)
        decreases Abs(target - currentFloor)
      {
        if currentFloor < target {
          currentDirection := Up;
          currentFloor := currentFloor + 1;
        } else {
          currentDirection := Down;
          currentFloor := currentFloor - 1;
        }
        trace := trace + [currentFloor];
      }
    }

    /** Serves one request: pickup leg unless already at the source, then the drop-off leg unless
        source and destination agree. A stopped car does not move. */
    method ProcessRequest(r: Request) returns (trace: seq<int>)
      modifies this`currentFloor, this`currentDirection
      ensures running ==> currentFloor == r.destinationFloor
      ensures running ==> trace == ServeTrace(old(currentFloor), r)
      ensures running ==> currentDirection == ServeDirection(old(currentFloor), old(currentDirection), r)
      ensures !running ==> currentFloor == old(currentFloor) && currentDirection == old(currentDirection) && trace == []
    {
      trace := [];
      if currentFloor != r.sourceFloor {
        var t := MoveToFloor(r.sourceFloor);
        trace := trace + t;
      }
      if r.sourceFloor != r.destinationFloor {
        var t := MoveToFloor(r.destinationFloor);
        trace := trace + t;
      }
    }

    /** The worker loop: while running, dequeues and serves requests one at a time in queue order.
        It returns where the source would block waiting for the next request. */
    method Run() returns (trace: seq<int>)
      requires Valid()
      modifies this`currentFloor, this`currentDirection, this`requests
      ensures Valid()
      ensures running == old(running)
      ensures !running ==> (currentFloor == old(currentFloor) && currentDirection == old(currentDirection)
        && requests == old(requests) && trace == [])
      ensures running ==> (requests == []
        && trace == ServeAllTrace(old(currentFloor), old(requests))
        && currentFloor == ServeAllFloor(old(currentFloor), old(requests))
        && currentDirection == ServeAllDirection(old(currentFloor), old(currentDirection), old(requests)))
    {
      trace := [];
      while running && requests != []
        invariant Valid()
        invariant !running ==> (currentFloor == old(currentFloor) && currentDirection == old(currentDirection)
          && requests == old(requests) && trace == [])
        invariant running ==> trace + ServeAllTrace(currentFloor, requests) == ServeAllTrace(old(currentFloor), old(requests))
        invariant running ==> ServeAllFloor(currentFloor, requests) == ServeAllFloor(old(currentFloor), old(requests))
        invariant running ==> (ServeAllDirection(currentFloor, currentDirection, requests)
          == ServeAllDirection(old(currentFloor), old(currentDirection), old(requests)))
        decreases |requests|
      {
        var next := GetNextRequest();
        var r := next.value;
        var t := ProcessRequest(r);
        trace := trace + t;
      }
    }

    method Stop()
      modifies this`running
      ensures !running
    {
      running := false;
    }
  }

  /** What the dispatcher reads of a car: its floor and how many requests it has queued. */
  datatype Snapshot = Snapshot(floor: int, queueLength: nat)

  /** The selection key (|floor - source|, queue length), compared lexicographically. */
  predicate KeyLess(a: Snapshot, b: Snapshot, source: int)
  {
    Abs(a.floor - source) < Abs(b.floor - source)
    || (Abs(a.floor - source) == Abs(b.floor - source) && a.queueLength < b.queueLength)
  }

  predicate KeyAtMost(a: Snapshot, b: Snapshot, source: int)
  {
    !KeyLess(b, a, source)
  }

  /** Python's `min` over the cars with that key: it keeps the first of several equal minima. */
  function SelectIndex(snaps: seq<Snapshot>, source: int): (k: nat)
    requires snaps != []
    ensures k < |snaps|
    ensures forall j :: 0 <= j < |snaps| ==> KeyAtMost(snaps[k], snaps[j], source)
    ensures forall j :: 0 <= j < k ==> KeyLess(snaps[j], snaps[k], source) == false && KeyLess(snaps[k], snaps[j], source)
  {
    if |snaps| == 1 then 0
    else
      var k' := SelectIndex(snaps[..|snaps| - 1], source);
      if KeyLess(snaps[|snaps| - 1], snaps[k'], source) then |snaps| - 1 else k'
  }

  /** The chosen car is the only one with a minimal key that no earlier car ties. */
  lemma SelectIndexUnique(snaps: seq<Snapshot>, source: int, k: nat)
    requires k < |snaps|
    requires forall j :: 0 <= j < |snaps| ==> KeyAtMost(snaps[k], snaps[j], source)
    requires forall j :: 0 <= j < k ==> KeyLess(snaps[k], snaps[j], source)
    ensures SelectIndex(snaps, source) == k
  {
    var s := SelectIndex(snaps, source);
    assert KeyAtMost(snaps[s], snaps[k], source);
    assert KeyAtMost(snaps[k], snaps[s], source);
  }

  function SnapshotsOf(cars: seq<Elevator>): (snaps: seq<Snapshot>)
    reads cars
    ensures |snaps| == |cars|
    ensures forall i :: 0 <= i < |cars| ==>
      snaps[i] == Snapshot(cars[i].currentFloor, |cars[i].requests|)
  {
    if cars == [] then []
    else SnapshotsOf(cars[..|cars| - 1]) + [Snapshot(cars[|cars| - 1].currentFloor, |cars[|cars| - 1].requests|)]
  }

  class ElevatorController {
    const elevators: seq<Elevator>

    ghost predicate Valid()
      reads this, elevators
    {
      (forall i :: 0 <= i < |elevators| ==> elevators[i].Valid())
      && (forall i, j :: 0 <= i < j < |elevators| ==> elevators[i] != elevators[j])
    }

    /** Builds cars with ids 1..numElevators, all at floor 1, going up, empty and running.
        The worker thread the source starts for each car is modelled by Elevator.Run. */
    constructor (numElevators: int, capacity: int)
      ensures Valid()
      ensures |elevators| == (if numElevators > 0 then numElevators else 0)
      ensures forall i :: 0 <= i < |elevators| ==> fresh(elevators[i])
      ensures forall i :: 0 <= i < |elevators| ==>
        elevators[i].id == i + 1 && elevators[i].capacity == capacity
        && elevators[i].currentFloor == 1 && elevators[i].currentDirection == Up
        && elevators[i].requests == [] && elevators[i].running
    {
      var cars: seq<Elevator> := [];
      var i := 0;
      while i < numElevators
        invariant 0 <= i && |cars| == i
        invariant numElevators > 0 ==> i <= numElevators
        invariant numElevators <= 0 ==> i == 0
        invariant forall j :: 0 <= j < i ==> fresh(cars[j])
        invariant forall j, k :: 0 <= j < k < i ==> cars[j] != cars[k]
        invariant forall j :: 0 <= j < i ==>
          cars[j].Valid() && cars[j].id == j + 1 && cars[j].capacity == capacity
          && cars[j].currentFloor == 1 && cars[j].currentDirection == Up
          && cars[j].requests == [] && cars[j].running
      {
        var car := new Elevator(i + 1, capacity);
        cars := cars + [car];
        i := i + 1;
      }
      elevators := cars;
    }

    /** The car with the smallest (distance to source, queue length), the first one on a tie;
        an empty fleet raises IndexError. */
    method FindOptimalElevator(source: int) returns (r: Result<Elevator, ControllerError>)
      ensures elevators == [] <==> r.Err?
      ensures r.Err? ==> r.error == IndexError
      ensures r.Ok? ==> elevators != [] && r.value == elevators[SelectIndex(SnapshotsOf(elevators), source)]
    {
      if elevators == [] {
        return Err(IndexError);
      }
      var k := SelectIndex(SnapshotsOf(elevators), source);
      r := Ok(elevators[k]);
    }

    /** Offers the request to the selected car; a full car drops it and the call still succeeds. */
    method RequestElevator(sourceFloor: int, destinationFloor: int) returns (outcome: Outcome<ControllerError>)
      requires Valid()
      modifies elevators
      ensures Valid()
      ensures elevators == [] ==> outcome == Fail(IndexError)
      ensures elevators != [] ==> outcome == Pass
      ensures elevators != [] ==>
        var k := old(SelectIndex(SnapshotsOf(elevators), sourceFloor));
        forall i :: 0 <= i < |elevators| ==>
          elevators[i].requests == if i == k
            then Enqueue(old(elevators[i].requests), Request(sourceFloor, destinationFloor), elevators[i].capacity)
            else old(elevators[i].requests)
      ensures forall i :: 0 <= i < |elevators| ==>
        elevators[i].currentFloor == old(elevators[i].currentFloor)
        && elevators[i].currentDirection == old(elevators[i].currentDirection)
        && elevators[i].running == old(elevators[i].running)
    {
      var chosen := FindOptimalElevator(sourceFloor);
      if chosen.Err? {
        return Fail(IndexError);
      }
      ghost var k := SelectIndex(SnapshotsOf(elevators), sourceFloor);
      var car := chosen.value;
      assert car == elevators[k];
      car.AddRequest(Request(sourceFloor, destinationFloor));
      outcome := Pass;
      forall i | 0 <= i < |elevators|
        ensures i != k ==> elevators[i].requests == old(elevators[i].requests)
        ensures elevators[i].Valid()
        ensures elevators[i].currentFloor == old(elevators[i].currentFloor)
        ensures elevators[i].currentDirection == old(elevators[i].currentDirection)
        ensures elevators[i].running == old(elevators[i].running)
      {
        if i != k {
          assert elevators[i] != car;
        }
      }
    }

    /** Stops every car; nothing else changes. */
    method Shutdown()
      requires Valid()
      modifies elevators
      ensures Valid()
      ensures forall i :: 0 <= i < |elevators| ==> !elevators[i].running
      ensures forall i :: 0 <= i < |elevators| ==>
        elevators[i].requests == old(elevators[i].requests)
        && elevators[i].currentFloor == old(elevators[i].currentFloor)
        && elevators[i].currentDirection == old(elevators[i].currentDirection)
    {
      var i := 0;
      while i < |elevators|
        invariant 0 <= i <= |elevators|
        invariant Valid()
        invariant forall j :: 0 <= j < i ==> !elevators[j].running
        invariant forall j :: 0 <= j < |elevators| ==>
          elevators[j].requests == old(elevators[j].requests)
          && elevators[j].currentFloor == old(elevators[j].currentFloor)
          && elevators[j].currentDirection == old(elevators[j].currentDirection)
      {
        elevators[i].Stop();
        i := i + 1;
      }
    }
  }

  /** The dispatch scenario: three cars at floor 1 with empty queues; a call at floor 10 ties on
      every key and goes to the first car (id 1). Once that car has left floor 1 with the request
      queued, a call from floor 1 goes to another car standing at floor 1. */
  lemma DispatchScenario()
    ensures SelectIndex([Snapshot(1, 0), Snapshot(1, 0), Snapshot(1, 0)], 10) == 0
    ensures SelectIndex([Snapshot(5, 1), Snapshot(1, 0), Snapshot(1, 0)], 1) == 1
  {
    SelectIndexUnique([Snapshot(1, 0), Snapshot(1, 0), Snapshot(1, 0)], 10, 0);
    SelectIndexUnique([Snapshot(5, 1), Snapshot(1, 0), Snapshot(1, 0)], 1, 1);
  }
}
