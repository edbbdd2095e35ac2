/** The ship agent of mesa/ship.py: its type-dependent scrubber odds, and one
    activation of its step, which either cruises toward the current route
    target (moving one cell, trying to dock when next to the port, leaving a
    trail, timing out) or, while docked, counts the dwell and leaves after
    ten steps.

    Route targets are indices into the world's port registry.  Every random
    choice (the fallback cell) is an explicit parameter.
 */
module Voyage {
  import opened Base
  import opened Grid
  import opened Harbour
  import opened Trails

  /** Steps a ship stays docked before it leaves the port. */
  const DockingDwell: nat := 10

  datatype Ship = Ship(
    vessel: Vessel,
    cell: Pos,
    docked: bool,
    dockingSteps: nat,
    route: seq<nat>,        // indices into the port registry
    targetIndex: nat,       // current_target_index
    waitTime: nat)

  /** What a ship step needs to know about the world besides ports and
      terrain. */
  datatype Env = Env(width: int, height: int, shipWaitTime: int)

  /** The result of one ship activation: the ship afterwards (and whether it
      was removed from the world), the port registry afterwards, the trail it
      deposited if any, and the next free trail id. */
  datatype StepOutcome = StepOutcome(ship: Ship, removed: bool, ports: seq<Port>, trail: Option<Trail>, nextTrailId: nat)

  /** Probability that a newly built ship of the given type carries a
      scrubber. */
  function ScrubberProbability(shipType: string): (p: real)
    ensures 0.0 < p < 1.0
  {
    if shipType == "cargo" then 0.18 else if shipType == "tanker" then 0.13 else 0.05
  }

  /** Cargo ships are the likeliest to carry scrubbers, then tankers, then
      every other type alike. */
  lemma ScrubberOddsByType(shipType: string)
    requires shipType != "cargo" && shipType != "tanker"
    ensures ScrubberProbability(shipType) < ScrubberProbability("tanker") < ScrubberProbability("cargo")
  {
  }

  /** A freshly built ship: the type is the explicit draw from the type
      distribution, and it carries a scrubber exactly when the uniform draw
      `u` falls below its type's probability.  It starts undocked, with an
      empty route and all counters at zero. */
  function NewShip(id: nat, shipType: string, u: real, cell: Pos): (s: Ship)
    ensures s.vessel.id == id && s.vessel.shipType == shipType && s.cell == cell
    ensures s.vessel.isScrubber <==> u < ScrubberProbability(shipType)
    ensures !s.docked && s.dockingSteps == 0 && s.route == [] && s.targetIndex == 0 && s.waitTime == 0
  {
    Ship(Vessel(id, shipType, u < ScrubberProbability(shipType)), cell, false, 0, [], 0, 0)
  }

  /** The ship has a port to head for. */
  predicate HasTarget(s: Ship)
  {
    s.targetIndex < |s.route|
  }

  /** Well-formedness of a ship against a registry of `numPorts` ports:
      route entries name ports, the target index never passes the end of the
      route, and a docked ship is docked at an actual route entry. */
  predicate RouteValid(s: Ship, numPorts: int)
  {
    && (forall j :: 0 <= j < |s.route| ==> s.route[j] < numPorts)
    && s.targetIndex <= |s.route|
    && (s.docked ==> HasTarget(s))
  }

  /** Where a cruising ship goes: the ideal sign-based step toward the
      target if that cell is water, otherwise the random water walk. */
  function Navigate(from: Pos, target: Pos, env: Env, isWater: Terrain, pick: nat): (to: Pos)
    ensures Chebyshev(from, to) <= 1
    ensures to != from ==> isWater(to)
    ensures isWater(StepToward(from, target)) ==> to == StepToward(from, target)
    ensures !isWater(StepToward(from, target)) ==> to == RandomWaterStep(from, env.width, env.height, isWater, pick)
  {
    var ideal := StepToward(from, target);
    if isWater(ideal) then ideal else RandomWaterStep(from, env.width, env.height, isWater, pick)
  }

  /** A ship at `cell` tries to dock at the port at `target` only when it is
      on that cell or on one of the clipped Moore neighbours of its own cell. */
  predicate WithinDockingReach(cell: Pos, target: Pos, env: Env)
  {
    cell == target || target in Neighbourhood(cell, env.width, env.height, true)
  }

  /** Docking reach is the king-move distance of at most one (for a port on
      the grid). */
  lemma DockingReachIsAdjacency(cell: Pos, target: Pos, env: Env)
    requires InBounds(target, env.width, env.height)
    ensures WithinDockingReach(cell, target, env) <==> Chebyshev(cell, target) <= 1
  {
    assert Chebyshev(cell, target) == Chebyshev(target, cell);
  }

  /** The trail a moving scrubber ship leaves on the cell it vacated, with
      the next trail id. */
  function Discharge(v: Vessel, from: Pos, to: Pos, nextTrailId: nat): (r: (Option<Trail>, nat))
    ensures r.0.Some? <==> v.isScrubber && to != from
    ensures r.0.Some? ==> r.0.value == NewTrail(nextTrailId, from, DefaultLifespan) && r.1 == nextTrailId + 1
    ensures r.0.None? ==> r.1 == nextTrailId
  {
    if v.isScrubber && to != from then (Some(NewTrail(nextTrailId, from, DefaultLifespan)), nextTrailId + 1)
    else (None, nextTrailId)
  }

  /** One activation of a ship that is not docked.  With a target it moves by
      `Navigate` and, within docking reach, asks the target port to dock it;
      without one it takes a random water step.  A scrubber ship that changed
      cell leaves a trail behind.  Finally the waiting time grows by one
      (after a reset to zero on a successful docking) and the ship is removed
      once it reaches the configured limit. */
  function UndockedStep(env: Env, isWater: Terrain, ports: seq<Port>, s: Ship, nextTrailId: nat, pick: nat): (r: StepOutcome)
    requires !s.docked && RouteValid(s, |ports|)
    // movement
    ensures Chebyshev(s.cell, r.ship.cell) <= 1
    ensures r.ship.cell != s.cell ==> isWater(r.ship.cell)
    ensures HasTarget(s) ==> r.ship.cell == Navigate(s.cell, ports[s.route[s.targetIndex]].cell, env, isWater, pick)
    ensures !HasTarget(s) ==> r.ship.cell == RandomWaterStep(s.cell, env.width, env.height, isWater, pick)
    // what never changes here
    ensures r.ship.vessel == s.vessel && r.ship.route == s.route && r.ship.targetIndex == s.targetIndex
    ensures |r.ports| == |ports|
    ensures forall i :: 0 <= i < |ports| && !(HasTarget(s) && i == s.route[s.targetIndex]) ==> r.ports[i] == ports[i]
    // docking
    ensures r.ship.docked ==> HasTarget(s) && WithinDockingReach(r.ship.cell, ports[s.route[s.targetIndex]].cell, env)
    ensures r.ship.docked <==> HasTarget(s) && WithinDockingReach(r.ship.cell, ports[s.route[s.targetIndex]].cell, env)
                               && DockShip(ports[s.route[s.targetIndex]], s.vessel).accepted
    ensures r.ship.docked ==> r.ports[s.route[s.targetIndex]] == DockShip(ports[s.route[s.targetIndex]], s.vessel).port
                              && r.ship.dockingSteps == 0 && r.ship.waitTime == 1
    ensures !r.ship.docked ==> r.ports == ports && r.ship.dockingSteps == s.dockingSteps && r.ship.waitTime == s.waitTime + 1
    // trail
    ensures (r.trail, r.nextTrailId) == Discharge(s.vessel, s.cell, r.ship.cell, nextTrailId)
    // timeout
    ensures r.removed <==> r.ship.waitTime >= env.shipWaitTime
  {
    if HasTarget(s) then
      var t := s.route[s.targetIndex];
      var to := Navigate(s.cell, ports[t].cell, env, isWater, pick);
      var d := if WithinDockingReach(to, ports[t].cell, env) then DockShip(ports[t], s.vessel) else Docking(false, ports[t]);
      var moved := if d.accepted then s.(cell := to, docked := true, dockingSteps := 0, waitTime := 0) else s.(cell := to);
      var ports' := if d.accepted then ports[t := d.port] else ports;
      Finish(env, s.cell, moved, ports', nextTrailId)
    else
      var to := RandomWaterStep(s.cell, env.width, env.height, isWater, pick);
      Finish(env, s.cell, s.(cell := to), ports, nextTrailId)
  }

  /** The tail of an undocked activation: trail deposit, waiting time and
      the timeout. */
  function Finish(env: Env, from: Pos, moved: Ship, ports: seq<Port>, nextTrailId: nat): (r: StepOutcome)
    ensures r.ship == moved.(waitTime := moved.waitTime + 1) && r.ports == ports
    ensures (r.trail, r.nextTrailId) == Discharge(moved.vessel, from, moved.cell, nextTrailId)
    ensures r.removed <==> moved.waitTime + 1 >= env.shipWaitTime
  {
    var (trail, next) := Discharge(moved.vessel, from, moved.cell, nextTrailId);
    var waited := moved.(waitTime := moved.waitTime + 1);
    StepOutcome(waited, waited.waitTime >= env.shipWaitTime, ports, trail, next)
  }

  /** The first port (in registry order, the scheduler's order) whose docked
      list holds the vessel.  The legacy model's own search over its own port
      class is `Legacy.LegacyFirstHolding`. */
  function FirstPortHolding(ports: seq<Port>, v: Vessel): (r: Option<nat>)
    ensures r.Some? ==> r.value < |ports| && v in ports[r.value].docked
    ensures r.Some? ==> forall i :: 0 <= i < r.value ==> v !in ports[i].docked
    ensures r.None? ==> forall i :: 0 <= i < |ports| ==> v !in ports[i].docked
  {
    if |ports| == 0 then None
    else if v in ports[0].docked then Some(0)
    else match FirstPortHolding(ports[1..], v)
      case None => None
      case Some(i) => Some(i + 1)
  }

  /** One activation of a docked ship, as the code intends it: the dwell
      counter grows; once it reaches ten, the first port holding the ship
      undocks it, the ship is no longer docked and its route advances to the
      next entry.  A ship no port holds stays docked. */
  function DockedStep(ports: seq<Port>, s: Ship): (r: (Ship, seq<Port>))
    requires s.docked
    ensures r.0.dockingSteps == s.dockingSteps + 1
    ensures r.0.vessel == s.vessel && r.0.cell == s.cell && r.0.route == s.route && r.0.waitTime == s.waitTime
    ensures |r.1| == |ports|
    ensures !r.0.docked <==> s.dockingSteps + 1 >= DockingDwell && FirstPortHolding(ports, s.vessel).Some?
    ensures !r.0.docked ==>
      var i := FirstPortHolding(ports, s.vessel).value;
      r.0.targetIndex == s.targetIndex + 1 && r.1 == ports[i := UndockShip(ports[i], s.vessel).port]
    ensures r.0.docked ==> r.0.targetIndex == s.targetIndex && r.1 == ports
  {
    var counted := s.(dockingSteps := s.dockingSteps + 1);
    if counted.dockingSteps >= DockingDwell then
      match FirstPortHolding(ports, s.vessel)
      case None => (counted, ports)
      case Some(i) =>
        (counted.(docked := false, targetIndex := s.targetIndex + 1), ports[i := UndockShip(ports[i], s.vessel).port])
    else (counted, ports)
  }

  /** The docked branch as written: the port search names `Port`, which the
      ship's module never imports, so the step fails with a `NameError` as
      soon as the dwell reaches ten; before that only the counter grows. */
  function DockedStepAsWritten(ports: seq<Port>, s: Ship): (r: Result<(Ship, seq<Port>)>)
    requires s.docked
    ensures r.Err? <==> s.dockingSteps + 1 >= DockingDwell
    ensures r.Err? ==> r.error == NameError("Port")
    ensures r.Ok? ==> r.value == (s.(dockingSteps := s.dockingSteps + 1), ports)
  {
    var counted := s.(dockingSteps := s.dockingSteps + 1);
    if counted.dockingSteps >= DockingDwell then Err(NameError("Port")) else Ok((counted, ports))
  }

  /** The defect made concrete: as written, a docked ship never undocks;
      its tenth docked step aborts, where the intended step releases it and
      advances its route. */
  lemma DockedShipNeverLeavesAsWritten(ports: seq<Port>, s: Ship)
    requires s.docked && s.dockingSteps == DockingDwell - 1
    requires FirstPortHolding(ports, s.vessel).Some?
    ensures DockedStepAsWritten(ports, s) == Err(NameError("Port"))
    ensures !DockedStep(ports, s).0.docked && DockedStep(ports, s).0.targetIndex == s.targetIndex + 1
  {
  }

  /** One activation of a ship (the intended docked branch). */
  function ShipStep(env: Env, isWater: Terrain, ports: seq<Port>, s: Ship, nextTrailId: nat, pick: nat): (r: StepOutcome)
    requires RouteValid(s, |ports|)
    ensures |r.ports| == |ports|
    ensures r.ship.vessel == s.vessel && r.ship.route == s.route
    ensures r.removed ==> !s.docked
    ensures s.docked ==> r.trail.None? && r.nextTrailId == nextTrailId && r.ship.cell == s.cell
    ensures !s.docked ==> (r.trail, r.nextTrailId) == Discharge(s.vessel, s.cell, r.ship.cell, nextTrailId)
  {
    if s.docked then
      var (ship, ports') := DockedStep(ports, s);
      StepOutcome(ship, false, ports', None, nextTrailId)
    else UndockedStep(env, isWater, ports, s, nextTrailId, pick)
  }

  /** Only the docked branch moves the route index, by exactly one, and a
      ship's route stays well formed: the index never passes the end of the
      route. */
  lemma {:induction false} ShipStepKeepsRouteValid(env: Env, isWater: Terrain, ports: seq<Port>, s: Ship, nextTrailId: nat, pick: nat)
    requires RouteValid(s, |ports|)
    ensures RouteValid(ShipStep(env, isWater, ports, s, nextTrailId, pick).ship, |ports|)
    ensures var r := ShipStep(env, isWater, ports, s, nextTrailId, pick);
      r.ship.targetIndex == s.targetIndex || (s.docked && r.ship.targetIndex == s.targetIndex + 1)
  {
    var r := ShipStep(env, isWater, ports, s, nextTrailId, pick);
    if !s.docked {
      assert r == UndockedStep(env, isWater, ports, s, nextTrailId, pick);
      assert r.ship.docked ==> HasTarget(s);
    }
  }

  /** A ship step keeps every port's occupancy invariant and ban. */
  lemma {:induction false} ShipStepKeepsPortsSound(env: Env, isWater: Terrain, ports: seq<Port>, s: Ship, nextTrailId: nat, pick: nat)
    requires RouteValid(s, |ports|)
    requires forall i :: 0 <= i < |ports| ==> Consistent(ports[i]) && BanRespected(ports[i])
    ensures var r := ShipStep(env, isWater, ports, s, nextTrailId, pick);
      forall i :: 0 <= i < |r.ports| ==> Consistent(r.ports[i]) && BanRespected(r.ports[i])
  {
    var r := ShipStep(env, isWater, ports, s, nextTrailId, pick);
    if s.docked {
      var i := FirstPortHolding(ports, s.vessel);
      if i.Some? && s.dockingSteps + 1 >= DockingDwell {
        UndockPreservesConsistency(ports[i.value], s.vessel);
        DockingRespectsBan(ports[i.value], s.vessel);
      }
    } else if HasTarget(s) {
      var t := s.route[s.targetIndex];
      DockPreservesConsistency(ports[t], s.vessel);
      DockingRespectsBan(ports[t], s.vessel);
    }
  }
}
