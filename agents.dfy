/**
 * The moving objects of the simulation: the collision shape that carries a
 * person's infection tag in its density, the Person with its infection
 * stages, and the Train with its three-flag stop/resume/respawn cycle.
 *
 * The density tags stand for the stages of the SIR model:
 * 1.0 susceptible, 0.9 infected, 0.8 infectious, 0.7 removed.
 */
module Agents {

  type Point = (real, real)

  /** The two pymunk shape classes the collision handler tells apart. */
  datatype ShapeKind = Segment | Circle

  /** A pymunk shape: its class, its density (the infection tag) and its body's position. */
  class Shape {
    const kind: ShapeKind
    var density: real
    var position: Point

    constructor (kind: ShapeKind, density: real, position: Point)
      ensures this.kind == kind && this.density == density && this.position == position
    {
      this.kind := kind;
      this.density := density;
      this.position := position;
    }
  }

  const Susceptible: real := 1.0
  const Infected: real := 0.9
  const Infectious: real := 0.8
  const Removed: real := 0.7

  /** The stage a density tag stands for, as a number from 0 (susceptible) to 3 (removed); -1 for any other value. */
  function Stage(density: real): int {
    if density == Susceptible then 0
    else if density == Infected then 1
    else if density == Infectious then 2
    else if density == Removed then 3
    else -1
  }

  /** The status string that goes with a density tag. */
  function StatusOf(density: real): string {
    if density == Susceptible then "susceptible"
    else if density == Infected then "infected"
    else if density == Infectious then "infectious"
    else "removed"
  }

  /** A person's health: the status string and the density tag of their shape. */
  datatype Health = Health(status: string, density: real)

  /** The status string agrees with the tag. */
  predicate Coherent(h: Health) {
    Stage(h.density) >= 0 && h.status == StatusOf(h.density)
  }

  /**
   * Person.update_infection_status. The coin is the outcome of the one
   * random draw the call makes: true when the draw is at most the rate that
   * applies to the current tag (1 / avg_incubation_time for an infected
   * person, 1 / avg_infectious_time for an infectious one).
   */
  function InfectionStep(h: Health, coin: bool): Health {
    if h.density == Infected then
      if coin then Health("infectious", Infectious) else Health("infected", Infected)
    else if h.density == Infectious then
      if coin then Health("removed", Removed) else h
    else
      h
  }

  /** One call advances the tag by at most one stage, and only on a successful draw. */
  lemma InfectionStepAdvances(h: Health, coin: bool)
    ensures var h' := InfectionStep(h, coin);
            Stage(h'.density) == Stage(h.density) || Stage(h'.density) == Stage(h.density) + 1
    ensures var h' := InfectionStep(h, coin);
            h'.density != h.density <==> coin && (h.density == Infected || h.density == Infectious)
  {
  }

  /** Susceptible and removed people are left exactly as they are. */
  lemma InfectionStepFixed(h: Health, coin: bool)
    requires h.density == Susceptible || h.density == Removed
    ensures InfectionStep(h, coin) == h
  {
  }

  /** The step keeps a coherent health coherent, and mends the status of anyone tagged infected. */
  lemma InfectionStepCoherent(h: Health, coin: bool)
    requires Coherent(h) || h.density == Infected
    ensures Coherent(InfectionStep(h, coin))
  {
  }

  /** A person: the status string and the collision shape whose density tags the stage. */
  class Person {
    var status: string
    const shape: Shape

    /** The health the two fields make up. */
    function Condition(): Health
      reads this, shape
    {
      Health(status, shape.density)
    }

    /**
     * Person.__init__ without its random parts: the shape is a circle of
     * density 1 at the given position, and the status is susceptible.
     */
    constructor (position: Point)
      ensures fresh(shape) && shape.kind == Circle && shape.position == position
      ensures Condition() == Health("susceptible", Susceptible) && Coherent(Condition())
    {
      status := "susceptible";
      shape := new Shape(Circle, Susceptible, position);
    }

    /** Person.infect. */
    method Infect()
      modifies this, shape
      ensures Condition() == Health("infected", Infected) && Coherent(Condition())
      ensures shape.position == old(shape.position)
    {
      shape.density := Infected;
      status := "infected";
    }

    /** Person.update_infection_status, with the random draw given as coin. */
    method UpdateInfectionStatus(coin: bool)
      modifies this, shape
      ensures Condition() == InfectionStep(old(Condition()), coin)
      ensures shape.position == old(shape.position)
    {
      if shape.density == Infected {
        status := "infected";
        if coin {
          status := "infectious";
          shape.density := Infectious;
        }
      } else if shape.density == Infectious {
        if coin {
          status := "removed";
          shape.density := Removed;
        }
      }
    }
  }

  /** Train.velocity while it drives, and where it respawns. */
  const DrivingVelocity: Point := (-1.1, 30.0)
  const RespawnPosition: Point := (70.0, 5.0)

  /** The state Train.update_state reads and writes. */
  datatype TrainState = TrainState(moving: bool, stoppedAtStation: bool, doorIsOpen: bool,
                                   velocity: Point, position: Point)

  /** The first guard of update_state: time to stop at the station. */
  predicate StopDue(s: TrainState, timestep: int) {
    timestep % 36000 > 50 && timestep % 9000 <= 50 && !s.stoppedAtStation && s.moving
  }

  /** The second guard: time to close the door and drive on. */
  predicate ResumeDue(s: TrainState, timestep: int) {
    timestep % 9000 > 4000 && timestep % 9000 <= 4050 && s.stoppedAtStation && !s.moving
  }

  /** The third guard: time to respawn at the top of the map. */
  predicate RespawnDue(s: TrainState, timestep: int) {
    timestep % 36000 <= 50 && s.stoppedAtStation && s.moving
  }

  function Stop(s: TrainState): TrainState {
    s.(moving := false, stoppedAtStation := true, doorIsOpen := true, velocity := (0.0, 0.0))
  }

  function Resume(s: TrainState): TrainState {
    s.(moving := true, doorIsOpen := false, velocity := DrivingVelocity)
  }

  function Respawn(s: TrainState): TrainState {
    s.(stoppedAtStation := false, position := RespawnPosition)
  }

  /** Train.update_state: the three guarded updates, each seeing the state the one before it left. */
  function UpdateStep(s: TrainState, timestep: int): TrainState {
    var s1 := if StopDue(s, timestep) then Stop(s) else s;
    var s2 := if ResumeDue(s1, timestep) then Resume(s1) else s1;
    if RespawnDue(s2, timestep) then Respawn(s2) else s2
  }

  /** The flags Train.__init__ sets. */
  function InitialFlags(position: Point): TrainState {
    TrainState(true, false, false, DrivingVelocity, position)
  }

  /** The flag invariant of the cycle: the door is open exactly when the train stands, and it only stands at the station. */
  predicate CycleInvariant(s: TrainState) {
    s.doorIsOpen == !s.moving && (s.moving || s.stoppedAtStation)
  }

  /** A timestep within 50 of a multiple of 36000 is within 50 of a multiple of 9000. */
  lemma NearCycleStart(timestep: int)
    requires timestep % 36000 <= 50
    ensures timestep % 9000 == timestep % 36000
  {
    var q, r := timestep / 36000, timestep % 36000;
    assert timestep == 9000 * (4 * q) + r;
    ModUnique(timestep, 9000, 4 * q, r);
  }

  /** The remainder is the only one below the divisor. */
  lemma ModUnique(a: int, d: int, q: int, r: int)
    requires d > 0 && 0 <= r < d && a == d * q + r
    ensures a % d == r
  {
    var q', r' := a / d, a % d;
    assert a == d * q' + r';
    if q' > q {
      assert d * q' >= d * (q + 1) by { MulMono(d, q + 1, q'); }
    } else if q' < q {
      assert d * q >= d * (q' + 1) by { MulMono(d, q' + 1, q); }
    }
  }

  lemma MulMono(d: int, a: int, b: int)
    requires d > 0 && a <= b
    ensures d * a <= d * b
  {
    assert d * b - d * a == d * (b - a);
  }

  /** The three guards never hold at the same timestep, whatever the flags. */
  lemma GuardsDisjoint(s: TrainState, s': TrainState, timestep: int)
    ensures !(StopDue(s, timestep) && ResumeDue(s', timestep))
    ensures !(StopDue(s, timestep) && RespawnDue(s', timestep))
    ensures !(ResumeDue(s, timestep) && RespawnDue(s', timestep))
  {
    if timestep % 36000 <= 50 {
      NearCycleStart(timestep);
    }
  }

  /** So each call makes at most one of the three transitions. */
  lemma AtMostOneTransition(s: TrainState, timestep: int)
    ensures var s' := UpdateStep(s, timestep);
            s' == s || s' == Stop(s) || s' == Resume(s) || s' == Respawn(s)
    ensures StopDue(s, timestep) ==> UpdateStep(s, timestep) == Stop(s)
    ensures ResumeDue(s, timestep) ==> UpdateStep(s, timestep) == Resume(s)
    ensures RespawnDue(s, timestep) ==> UpdateStep(s, timestep) == Respawn(s)
  {
    GuardsDisjoint(s, Stop(s), timestep);
    GuardsDisjoint(s, Resume(s), timestep);
    GuardsDisjoint(Stop(s), s, timestep);
    GuardsDisjoint(s, s, timestep);
  }

  /** The initial flags meet the cycle invariant and every update keeps it. */
  lemma UpdateKeepsCycle(s: TrainState, timestep: int)
    requires CycleInvariant(s)
    ensures CycleInvariant(UpdateStep(s, timestep))
  {
    AtMostOneTransition(s, timestep);
  }

  lemma InitialCycle(position: Point)
    ensures CycleInvariant(InitialFlags(position))
  {
  }

  /** A train: the three state flags, and the velocity and position of its kinematic body. */
  class Train {
    var moving: bool
    var stoppedAtStation: bool
    var doorIsOpen: bool
    var velocity: Point
    var position: Point

    function State(): TrainState
      reads this
    {
      TrainState(moving, stoppedAtStation, doorIsOpen, velocity, position)
    }

    /** Train.__init__: driving, not stopped, door closed, at the start position. */
    constructor (startPos: Point)
      ensures State() == InitialFlags(startPos) && CycleInvariant(State())
    {
      moving := true;
      stoppedAtStation := false;
      doorIsOpen := false;
      velocity := DrivingVelocity;
      position := startPos;
    }

    /** Train.open_door, as far as the flag goes. */
    method OpenDoor()
      modifies this`doorIsOpen
      ensures doorIsOpen
    {
      doorIsOpen := true;
    }

    /** Train.close_door, as far as the flag goes. */
    method CloseDoor()
      modifies this`doorIsOpen
      ensures !doorIsOpen
    {
      doorIsOpen := false;
    }

    /** Train.update_state. */
    method UpdateState(timestep: int)
      modifies this
      ensures State() == UpdateStep(old(State()), timestep)
      ensures old(CycleInvariant(State())) ==> CycleInvariant(State())
    {
      ghost var s := State();
      if timestep % 36000 > 50 && timestep % 9000 <= 50 && !stoppedAtStation && moving {
        moving := false;
        stoppedAtStation := true;
        OpenDoor();
        velocity := (0.0, 0.0);
      }
      if timestep % 9000 > 4000 && timestep % 9000 <= 4050 && stoppedAtStation && !moving {
        moving := true;
        CloseDoor();
        velocity := DrivingVelocity;
      }
      if timestep % 36000 <= 50 && stoppedAtStation && moving {
        stoppedAtStation := false;
        position := RespawnPosition;
      }
      if CycleInvariant(s) {
        UpdateKeepsCycle(s, timestep);
      }
    }
  }
}
