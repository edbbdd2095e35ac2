/** The older model of mesa/mesa_model.py: ports with a fixed number of
    berths per size class that dock on capacity alone, ships that walk at
    random over water and dock at the first neighbouring port with a free
    berth, port coordinates clamped onto the grid, and the placement of the
    initial fleet.  The ports' docked lists hold ship ids.
 */
module Legacy {
  import opened Base
  import opened Grid
  import opened Harbour
  import opened Spawning

  datatype LegacyPort = LegacyPort(id: nat, name: string, cell: Pos, capacity: int, current: int, docked: seq<nat>)

  datatype LegacyShip = LegacyShip(id: nat, cell: Pos, docked: bool, dockingSteps: nat)

  datatype LegacyDocking = LegacyDocking(accepted: bool, port: LegacyPort)

  /** Steps a ship stays docked before it is taken off the port's list. */
  const LegacyDwell: nat := 10

  // ------------------------------------------------------------------ ports

  /** `port_size`: five berths for 'M', ten for 'L' (the newer model's base
      capacities, without scaling by the fleet); for any other class it
      returns the `port_capacity` attribute, which the constructor has not
      set yet. */
  function LegacyPortSize(sizeClass: string): (r: Result<int>)
    ensures r.Ok? <==> sizeClass == "M" || sizeClass == "L"
    ensures r.Ok? ==> r.value == BaseCapacity(sizeClass)
    ensures r.Err? ==> r.error == AttributeError("port_capacity")
  {
    if sizeClass == "M" then Ok(5)
    else if sizeClass == "L" then Ok(10)
    else Err(AttributeError("port_capacity"))
  }

  /** A port built from a loaded record, with empty berths; construction
      fails with the size lookup. */
  function NewLegacyPort(id: nat, name: string, cell: Pos, sizeClass: string): (r: Result<LegacyPort>)
    ensures r.Ok? <==> sizeClass == "M" || sizeClass == "L"
    ensures r.Err? ==> r.error == AttributeError("port_capacity")
    ensures r.Ok? ==> r.value.id == id && r.value.name == name && r.value.cell == cell
    ensures r.Ok? ==> r.value.capacity == BaseCapacity(sizeClass) && r.value.docked == []
    ensures r.Ok? ==> LegacyConsistent(r.value)
  {
    match LegacyPortSize(sizeClass)
    case Ok(capacity) => Ok(LegacyPort(id, name, cell, capacity, 0, []))
    case Err(e) => Err(e)
  }

  /** The occupancy invariant: the count stays within the berths and equals
      the number of docked ships. */
  predicate LegacyConsistent(p: LegacyPort)
  {
    0 <= p.current <= p.capacity && p.current == |p.docked|
  }

  /** `dock_ship`: accepted exactly when a berth is free, then the count
      goes up and the ship is appended; refused with nothing changed. */
  function LegacyDock(p: LegacyPort, ship: nat): (d: LegacyDocking)
    ensures d.accepted <==> p.current < p.capacity
    ensures d.accepted ==> d.port == p.(current := p.current + 1, docked := p.docked + [ship])
    ensures !d.accepted ==> d.port == p
  {
    if p.current < p.capacity then LegacyDocking(true, p.(current := p.current + 1, docked := p.docked + [ship]))
    else LegacyDocking(false, p)
  }

  /** `undock_ship`: a docked ship is removed (its first occurrence) and the
      count goes down; a ship not docked here changes nothing. */
  function LegacyUndock(p: LegacyPort, ship: nat): (d: LegacyDocking)
    ensures d.accepted <==> ship in p.docked
    ensures d.accepted ==> d.port == p.(current := p.current - 1, docked := RemoveFirst(p.docked, ship))
    ensures !d.accepted ==> d.port == p
  {
    if ship in p.docked then LegacyDocking(true, p.(current := p.current - 1, docked := RemoveFirst(p.docked, ship)))
    else LegacyDocking(false, p)
  }

  /** `update_capacity`: recount the docked ships. */
  function LegacyUpdateCapacity(p: LegacyPort): (q: LegacyPort)
    ensures q.current == |p.docked|
    ensures q.(current := p.current) == p
  {
    p.(current := |p.docked|)
  }

  lemma LegacyDockKeepsConsistent(p: LegacyPort, ship: nat)
    requires LegacyConsistent(p)
    ensures LegacyConsistent(LegacyDock(p, ship).port)
  {
  }

  lemma LegacyUndockKeepsConsistent(p: LegacyPort, ship: nat)
    requires LegacyConsistent(p)
    ensures LegacyConsistent(LegacyUndock(p, ship).port)
  {
  }

  /** Undocking a ship right after docking it restores the port.  Each of
      the three port classes has its own docking code, so each has its own
      round trip: this one, `Harbour.UndockUndoesDock` and
      `AgentsPort.AgentUndockUndoesDock`. */
  lemma {:induction false} LegacyUndockUndoesDock(p: LegacyPort, ship: nat)
    requires ship !in p.docked && LegacyDock(p, ship).accepted
    ensures LegacyUndock(LegacyDock(p, ship).port, ship) == LegacyDocking(true, p)
  {
    RemoveFirstOfAppended(p.docked, ship);
  }

  // -------------------------------------------------------------- placement

  /** The bound arrangement of a port's coordinate: `max(0, min(size - 1, v))`. */
  function Clamp(v: int, size: int): (c: int)
    ensures size > 0 ==> 0 <= c < size
    ensures 0 <= v < size ==> c == v
    ensures size > 0 && v < 0 ==> c == 0
    ensures v >= size ==> c == Max(0, size - 1)
  {
    Max(0, Min(size - 1, v))
  }

  /** The cell a port is placed on: its projected coordinates clamped onto
      the grid. */
  function PortCell(x: int, y: int, width: int, height: int): (c: Pos)
    ensures width > 0 && height > 0 ==> InBounds(c, width, height)
    ensures InBounds(Pos(x, y), width, height) ==> c == Pos(x, y)
  {
    Pos(Clamp(x, width), Clamp(y, height))
  }

  /** The ids of the initial fleet, as written: `range(num_ports, num_ships)`. */
  function LegacyShipIds(numPorts: nat, numShips: int): (ids: seq<nat>)
    ensures |ids| == Max(0, numShips - numPorts)
    ensures forall k :: 0 <= k < |ids| ==> ids[k] == numPorts + k
  {
    seq(Max(0, numShips - numPorts), k => numPorts + k)
  }

  /** The evidently intended ids: `num_ships` ships numbered after the
      ports. */
  function IntendedShipIds(numPorts: nat, numShips: int): (ids: seq<nat>)
    ensures |ids| == Max(0, numShips)
    ensures forall k :: 0 <= k < |ids| ==> ids[k] == numPorts + k
  {
    seq(Max(0, numShips), k => numPorts + k)
  }

  /** The defect: the fleet as written is short by the number of ports, and
      empty whenever there are at least as many ports as requested ships;
      the intended fleet has exactly the requested size, with the same ids
      first. */
  lemma FleetShortByPorts(numPorts: nat, numShips: int)
    requires numPorts > 0 && numShips > 0
    ensures |LegacyShipIds(numPorts, numShips)| < |IntendedShipIds(numPorts, numShips)| == numShips
    ensures numShips <= numPorts ==> LegacyShipIds(numPorts, numShips) == []
    ensures LegacyShipIds(numPorts, numShips) <= IntendedShipIds(numPorts, numShips)
  {
  }

  /** The initial fleet: each ship on a random water cell of the grid
      (`picks(id)` is its random index), undocked; without any water cell no
      ship is placed. */
  function LegacyPlacement(isWater: Terrain, width: nat, height: nat, ids: seq<nat>, picks: nat -> nat): (ships: seq<LegacyShip>)
    ensures (forall p :: InBounds(p, width, height) ==> !isWater(p)) ==> ships == []
    ensures (exists p :: InBounds(p, width, height) && isWater(p)) ==> |ships| == |ids|
    ensures forall k :: 0 <= k < |ships| ==>
      && ships[k].id == ids[k] && !ships[k].docked && ships[k].dockingSteps == 0
      && InBounds(ships[k].cell, width, height) && isWater(ships[k].cell)
  {
    var water := WaterCells(AllCells(width, height), isWater);
    GridHasWater(isWater, width, height);
    if |water| == 0 then [] else PlaceOn(ids, water, picks)
  }

  /** There is a water cell on the grid exactly when the grid's list of
      water cells is not empty. */
  lemma GridHasWater(isWater: Terrain, width: nat, height: nat)
    ensures |WaterCells(AllCells(width, height), isWater)| > 0 <==> exists p :: InBounds(p, width, height) && isWater(p)
  {
    var water := WaterCells(AllCells(width, height), isWater);
    if |water| > 0 {
      assert water[0] in water;
    }
  }

  /** Ships with the given ids, each on the cell of `cells` its random index
      selects. */
  function PlaceOn(ids: seq<nat>, cells: seq<Pos>, picks: nat -> nat): (ships: seq<LegacyShip>)
    requires |cells| > 0
    ensures |ships| == |ids|
    ensures forall k :: 0 <= k < |ships| ==>
      ships[k].id == ids[k] && !ships[k].docked && ships[k].dockingSteps == 0 && ships[k].cell in cells
  {
    seq(|ids|, k requires 0 <= k < |ids| => LegacyShip(ids[k], cells[picks(ids[k]) % |cells|], false, 0))
  }

  // ------------------------------------------------------------------- ships

  /** The registry positions of the first `n` ports that stand on cell `c`. */
  function PortsAt(ports: seq<LegacyPort>, c: Pos, n: nat): (ids: seq<nat>)
    requires n <= |ports|
    ensures forall i: nat :: i in ids <==> i < n && ports[i].cell == c
    ensures forall k :: 0 <= k < |ids| ==> ids[k] < n
  {
    if n == 0 then [] else PortsAt(ports, c, n - 1) + (if ports[n - 1].cell == c then [n - 1] else [])
  }

  /** The ports on the given cells: cell by cell, and on one cell in
      registry order (the order in which they were placed). */
  function PortsOn(ports: seq<LegacyPort>, cells: seq<Pos>): (ids: seq<nat>)
    ensures forall i: nat :: i in ids <==> i < |ports| && ports[i].cell in cells
    ensures forall k :: 0 <= k < |ids| ==> ids[k] < |ports|
  {
    if |cells| == 0 then [] else PortsAt(ports, cells[0], |ports|) + PortsOn(ports, cells[1..])
  }

  /** Offer the ship to the candidate ports in order until one accepts;
      the position of the accepting candidate, if any. */
  function DockAtFirst(ports: seq<LegacyPort>, candidates: seq<nat>, ship: nat): (r: (Option<nat>, seq<LegacyPort>))
    requires forall k :: 0 <= k < |candidates| ==> candidates[k] < |ports|
    ensures |r.1| == |ports|
    ensures r.0.Some? ==>
      var k := r.0.value;
      && k < |candidates| && ports[candidates[k]].current < ports[candidates[k]].capacity
      && (forall j :: 0 <= j < k ==> ports[candidates[j]].current >= ports[candidates[j]].capacity)
      && r.1 == ports[candidates[k] := LegacyDock(ports[candidates[k]], ship).port]
    ensures r.0.None? ==> r.1 == ports
    ensures r.0.None? ==> forall j :: 0 <= j < |candidates| ==> ports[candidates[j]].current >= ports[candidates[j]].capacity
  {
    if |candidates| == 0 then (None, ports)
    else
      var i := candidates[0];
      var d := LegacyDock(ports[i], ship);
      if d.accepted then (Some(0), ports[i := d.port])
      else
        var rest := DockAtFirst(ports, candidates[1..], ship);
        match rest.0
        case None => (None, ports)
        case Some(k) => (Some(k + 1), rest.1)
  }

  /** The first port, in registry order (the scheduler's order of the
      ports), whose docked list holds the ship; the same search as
      `Voyage.FirstPortHolding`, over this model's port class. */
  function LegacyFirstHolding(ports: seq<LegacyPort>, ship: nat): (r: Option<nat>)
    ensures r.Some? ==> r.value < |ports| && ship in ports[r.value].docked
    ensures r.Some? ==> forall i :: 0 <= i < r.value ==> ship !in ports[i].docked
    ensures r.None? ==> forall i :: 0 <= i < |ports| ==> ship !in ports[i].docked
  {
    if |ports| == 0 then None
    else if ship in ports[0].docked then Some(0)
    else match LegacyFirstHolding(ports[1..], ship)
      case None => None
      case Some(i) => Some(i + 1)
  }

  /** A port on the grid next to `cell` (not on it) with a free berth. */
  predicate FreeNeighbour(ports: seq<LegacyPort>, i: nat, cell: Pos, width: int, height: int)
    requires i < |ports|
  {
    InBounds(ports[i].cell, width, height) && Chebyshev(cell, ports[i].cell) == 1
    && ports[i].current < ports[i].capacity
  }

  /** One activation of a ship.  Undocked, it takes a random water step
      (staying put without water around) and then offers itself to the ports
      on the neighbouring cells, docking at the first with a free berth.
      Docked, it counts the dwell and from the tenth step on is taken off
      the first port that lists it, yet it stays docked. */
  function LegacyShipStep(ports: seq<LegacyPort>, width: int, height: int, isWater: Terrain, s: LegacyShip, pick: nat)
    : (r: (LegacyShip, seq<LegacyPort>))
    ensures |r.1| == |ports| && r.0.id == s.id
    ensures !s.docked ==> r == LegacyWalk(ports, width, height, isWater, s, pick)
    ensures s.docked ==> r == LegacyDwellStep(ports, s)
  {
    if !s.docked then LegacyWalk(ports, width, height, isWater, s, pick) else LegacyDwellStep(ports, s)
  }

  /** The undocked branch: a random water step, then docking at the first
      neighbouring port with a free berth, if any. */
  function LegacyWalk(ports: seq<LegacyPort>, width: int, height: int, isWater: Terrain, s: LegacyShip, pick: nat)
    : (r: (LegacyShip, seq<LegacyPort>))
    requires !s.docked
    ensures |r.1| == |ports| && r.0.id == s.id
    ensures r.0.cell == RandomWaterStep(s.cell, width, height, isWater, pick)
    ensures (r.0.docked, r.1) == DockNearby(ports, r.0.cell, width, height, s.id)
    ensures r.0.docked ==> r.0.dockingSteps == 0
    ensures !r.0.docked ==> r.0.dockingSteps == s.dockingSteps
  {
    var to := RandomWaterStep(s.cell, width, height, isWater, pick);
    var (docked, ports') := DockNearby(ports, to, width, height, s.id);
    if docked then (s.(cell := to, docked := true, dockingSteps := 0), ports')
    else (s.(cell := to), ports')
  }

  /** Offering a ship on `cell` to the ports on the neighbouring cells: it
      docks exactly when one of them has a free berth, and then at one such
      port, which takes the ship; otherwise nothing changes. */
  function DockNearby(ports: seq<LegacyPort>, cell: Pos, width: int, height: int, ship: nat): (r: (bool, seq<LegacyPort>))
    ensures |r.1| == |ports|
    ensures r.0 ==> exists i :: 0 <= i < |ports| && FreeNeighbour(ports, i, cell, width, height)
                                && r.1 == ports[i := LegacyDock(ports[i], ship).port]
    ensures !r.0 ==> r.1 == ports
    ensures !r.0 ==> forall i :: 0 <= i < |ports| ==> !FreeNeighbour(ports, i, cell, width, height)
  {
    var candidates := PortsOn(ports, Neighbourhood(cell, width, height, false));
    var (k, ports') := DockAtFirst(ports, candidates, ship);
    if k.Some? then
      CandidateIsNeighbour(ports, cell, width, height, candidates[k.value]);
      (true, ports')
    else
      NoFreeCandidate(ports, cell, width, height, candidates);
      (false, ports)
  }

  /** A port listed among the neighbouring ports stands on a neighbouring cell. */
  lemma CandidateIsNeighbour(ports: seq<LegacyPort>, cell: Pos, width: int, height: int, i: nat)
    requires i in PortsOn(ports, Neighbourhood(cell, width, height, false))
    ensures i < |ports| && InBounds(ports[i].cell, width, height) && Chebyshev(cell, ports[i].cell) == 1
  {
    var c := ports[i].cell;
    assert c in Neighbourhood(cell, width, height, false);
    ChebyshevWithinOne(cell, c);
  }

  /** When every neighbouring port is full, no port is a free neighbour. */
  lemma NoFreeCandidate(ports: seq<LegacyPort>, cell: Pos, width: int, height: int, candidates: seq<nat>)
    requires candidates == PortsOn(ports, Neighbourhood(cell, width, height, false))
    requires forall j :: 0 <= j < |candidates| ==> ports[candidates[j]].current >= ports[candidates[j]].capacity
    ensures forall i :: 0 <= i < |ports| ==> !FreeNeighbour(ports, i, cell, width, height)
  {
    forall i | 0 <= i < |ports| && InBounds(ports[i].cell, width, height) && Chebyshev(cell, ports[i].cell) == 1
      ensures ports[i].current >= ports[i].capacity
    {
      assert ports[i].cell in Neighbourhood(cell, width, height, false);
      var j :| 0 <= j < |candidates| && candidates[j] == i;
    }
  }

  /** The docked branch as written: the dwell grows; from the tenth step on
      the first port listing the ship undocks it, but the ship's own flag is
      never cleared. */
  function LegacyDwellStep(ports: seq<LegacyPort>, s: LegacyShip): (r: (LegacyShip, seq<LegacyPort>))
    requires s.docked
    ensures |r.1| == |ports|
    ensures r.0 == s.(dockingSteps := s.dockingSteps + 1)
    ensures s.dockingSteps + 1 < LegacyDwell || LegacyFirstHolding(ports, s.id).None? ==> r.1 == ports
    ensures s.dockingSteps + 1 >= LegacyDwell && LegacyFirstHolding(ports, s.id).Some? ==>
      var i := LegacyFirstHolding(ports, s.id).value;
      r.1 == ports[i := LegacyUndock(ports[i], s.id).port]
  {
    var counted := s.(dockingSteps := s.dockingSteps + 1);
    if counted.dockingSteps >= LegacyDwell then
      match LegacyFirstHolding(ports, s.id)
      case None => (counted, ports)
      case Some(i) => (counted, ports[i := LegacyUndock(ports[i], s.id).port])
    else (counted, ports)
  }

  /** Every port of the registry is consistent. */
  predicate LegacyRegistrySound(ports: seq<LegacyPort>)
  {
    forall i :: 0 <= i < |ports| ==> LegacyConsistent(ports[i])
  }

  /** A ship activation keeps every port consistent. */
  lemma LegacyStepKeepsRegistrySound(ports: seq<LegacyPort>, width: int, height: int,
                                     isWater: Terrain, s: LegacyShip, pick: nat)
    requires LegacyRegistrySound(ports)
    ensures LegacyRegistrySound(LegacyShipStep(ports, width, height, isWater, s, pick).1)
  {
    if !s.docked {
      var to := RandomWaterStep(s.cell, width, height, isWater, pick);
      var r := DockNearby(ports, to, width, height, s.id);
      if r.0 {
        var i :| 0 <= i < |ports| && FreeNeighbour(ports, i, to, width, height)
                 && r.1 == ports[i := LegacyDock(ports[i], s.id).port];
        LegacyDockKeepsConsistent(ports[i], s.id);
        ReplaceKeepsSound(ports, i, LegacyDock(ports[i], s.id).port);
      }
    } else if s.dockingSteps + 1 >= LegacyDwell && LegacyFirstHolding(ports, s.id).Some? {
      var i := LegacyFirstHolding(ports, s.id).value;
      LegacyUndockKeepsConsistent(ports[i], s.id);
      ReplaceKeepsSound(ports, i, LegacyUndock(ports[i], s.id).port);
    }
  }

  /** Replacing one port by a consistent one keeps the registry sound. */
  lemma ReplaceKeepsSound(ports: seq<LegacyPort>, i: nat, p: LegacyPort)
    requires LegacyRegistrySound(ports) && i < |ports| && LegacyConsistent(p)
    ensures LegacyRegistrySound(ports[i := p])
  {
  }

  /** A ship's activations with the given random indices, one after the
      other, against a registry that only this ship touches. */
  function LegacyVoyage(ports: seq<LegacyPort>, width: int, height: int, isWater: Terrain, s: LegacyShip, picks: seq<nat>)
    : (r: (LegacyShip, seq<LegacyPort>))
    ensures |r.1| == |ports| && r.0.id == s.id
    decreases |picks|
  {
    if |picks| == 0 then (s, ports)
    else
      var (s', ports') := LegacyShipStep(ports, width, height, isWater, s, picks[0]);
      LegacyVoyage(ports', width, height, isWater, s', picks[1..])
  }

  /** The docked branch never clears `docked`: once docked, a ship stays
      docked on its cell for good, whatever happens after its dwell. */
  lemma {:induction false} DockedShipNeverWalks(ports: seq<LegacyPort>, width: int, height: int, isWater: Terrain,
                                                s: LegacyShip, picks: seq<nat>)
    requires s.docked
    ensures var r := LegacyVoyage(ports, width, height, isWater, s, picks);
      r.0.docked && r.0.cell == s.cell && r.0.dockingSteps == s.dockingSteps + |picks|
    decreases |picks|
  {
    if |picks| > 0 {
      var (s', ports') := LegacyShipStep(ports, width, height, isWater, s, picks[0]);
      DockedShipNeverWalks(ports', width, height, isWater, s', picks[1..]);
    }
  }

  /** One scheduler pass of the older model over the ships: each entry
      names a ship by its position in the fleet, with its random index; an
      entry naming no ship activates nothing (ports and terrain cells do
      nothing when activated). */
  function LegacyRound(ports: seq<LegacyPort>, ships: seq<LegacyShip>, width: int, height: int, isWater: Terrain,
                       order: seq<(nat, nat)>): (r: (seq<LegacyPort>, seq<LegacyShip>))
    ensures |r.0| == |ports| && |r.1| == |ships|
    ensures forall k :: 0 <= k < |ships| ==> r.1[k].id == ships[k].id
    decreases |order|
  {
    if |order| == 0 then (ports, ships)
    else
      var (i, pick) := order[0];
      if i < |ships| then
        var (s', ports') := LegacyShipStep(ports, width, height, isWater, ships[i], pick);
        LegacyRound(ports', ships[i := s'], width, height, isWater, order[1..])
      else LegacyRound(ports, ships, width, height, isWater, order[1..])
  }

  /** A whole pass keeps every port consistent. */
  lemma {:induction false} LegacyRoundKeepsRegistrySound(ports: seq<LegacyPort>, ships: seq<LegacyShip>, width: int,
                                                         height: int, isWater: Terrain, order: seq<(nat, nat)>)
    requires LegacyRegistrySound(ports)
    ensures LegacyRegistrySound(LegacyRound(ports, ships, width, height, isWater, order).0)
    decreases |order|
  {
    if |order| > 0 {
      var (i, pick) := order[0];
      if i < |ships| {
        LegacyStepKeepsRegistrySound(ports, width, height, isWater, ships[i], pick);
        var (s', ports') := LegacyShipStep(ports, width, height, isWater, ships[i], pick);
        LegacyRoundKeepsRegistrySound(ports', ships[i := s'], width, height, isWater, order[1..]);
      } else {
        LegacyRoundKeepsRegistrySound(ports, ships, width, height, isWater, order[1..]);
      }
    }
  }
}
