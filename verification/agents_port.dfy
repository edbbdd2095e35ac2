/** The port class of src/agents/port.py: a maximum capacity stored either
    as a size label or as a number of berths, a berth counter the caller
    initialises, and docking on capacity alone.  The docked list holds ship
    ids.
 */
module AgentsPort {
  import opened Base

  /** A maximum capacity as the class stores it: a size label such as 'M',
      or a number of berths. */
  datatype Capacity = Label(text: string) | Berths(n: int)

  datatype AgentPort = AgentPort(id: int, name: string, maxCapacity: Capacity, current: int,
                                 posX: real, posY: real, docked: seq<nat>)

  /** The constructor: every argument stored as given, nothing docked yet. */
  function NewAgentPort(id: int, name: string, maxCapacity: Capacity, current: int, posX: real, posY: real)
    : (p: AgentPort)
    ensures p.id == id && p.name == name && p.maxCapacity == maxCapacity && p.current == current
    ensures p.posX == posX && p.posY == posY && p.docked == []
  {
    AgentPort(id, name, maxCapacity, current, posX, posY, [])
  }

  /** The number of berths of a size label: 30 for 'M', 60 for 'L'; any
      other value is passed through unchanged. */
  function CapacityFilter(c: Capacity): (r: Capacity)
    ensures c == Label("M") ==> r == Berths(30)
    ensures c == Label("L") ==> r == Berths(60)
    ensures c != Label("M") && c != Label("L") ==> r == c
  {
    if c == Label("M") then Berths(30)
    else if c == Label("L") then Berths(60)
    else c
  }

  /** Filtering twice is filtering once, and a filtered capacity is a
      number unless the label was neither 'M' nor 'L'. */
  lemma CapacityFilterIdempotent(c: Capacity)
    ensures CapacityFilter(CapacityFilter(c)) == CapacityFilter(c)
    ensures CapacityFilter(c).Label? <==> c.Label? && c.text != "M" && c.text != "L"
  {
  }

  /** `max_capacity_filter`: the port's capacity as a number where the
      label has one; the port itself is not changed. */
  function MaxCapacityFilter(p: AgentPort): (r: Capacity)
    ensures p.maxCapacity == Label("M") ==> r == Berths(30)
    ensures p.maxCapacity == Label("L") ==> r == Berths(60)
    ensures p.maxCapacity != Label("M") && p.maxCapacity != Label("L") ==> r == p.maxCapacity
  {
    CapacityFilter(p.maxCapacity)
  }

  /** `has_capacity`: the count is below the filtered capacity; a label
      left unfiltered cannot be compared with the count, and the comparison
      raises. */
  function HasCapacity(p: AgentPort): (r: Result<bool>)
    ensures r.Ok? <==> MaxCapacityFilter(p).Berths?
    ensures r.Ok? ==> (r.value <==> p.current < MaxCapacityFilter(p).n)
    ensures r.Err? ==> r.error == TypeError("<")
  {
    match MaxCapacityFilter(p)
    case Berths(n) => Ok(p.current < n)
    case Label(_) => Err(TypeError("<"))
  }

  /** `dock_ship`: with a free berth the count goes up and the ship is
      appended; without one nothing changes; the capacity check may raise. */
  function AgentDock(p: AgentPort, ship: nat): (r: Result<(bool, AgentPort)>)
    ensures r.Err? <==> HasCapacity(p).Err?
    ensures r.Ok? ==> (r.value.0 <==> HasCapacity(p).value)
    ensures r.Ok? && r.value.0 ==> r.value.1 == p.(current := p.current + 1, docked := p.docked + [ship])
    ensures r.Ok? && !r.value.0 ==> r.value.1 == p
  {
    match HasCapacity(p)
    case Err(e) => Err(e)
    case Ok(free) =>
      if free then Ok((true, p.(current := p.current + 1, docked := p.docked + [ship])))
      else Ok((false, p))
  }

  /** `undock_ship`: a docked ship is removed (its first occurrence) and the
      count goes down; a ship not docked here changes nothing. */
  function AgentUndock(p: AgentPort, ship: nat): (r: (bool, AgentPort))
    ensures r.0 <==> ship in p.docked
    ensures r.0 ==> r.1 == p.(current := p.current - 1, docked := RemoveFirst(p.docked, ship))
    ensures !r.0 ==> r.1 == p
  {
    if ship in p.docked then (true, p.(current := p.current - 1, docked := RemoveFirst(p.docked, ship)))
    else (false, p)
  }

  /** `update_capacity`: recount the docked ships. */
  function AgentUpdateCapacity(p: AgentPort): (q: AgentPort)
    ensures q.current == |p.docked|
    ensures q.(current := p.current) == p
  {
    p.(current := |p.docked|)
  }

  /** The count agrees with the docked list. */
  predicate CountMatches(p: AgentPort)
  {
    p.current == |p.docked|
  }

  /** The occupancy invariant: a numeric capacity, the count within it and
      in agreement with the docked list. */
  predicate AgentConsistent(p: AgentPort)
  {
    MaxCapacityFilter(p).Berths? && 0 <= p.current <= MaxCapacityFilter(p).n && CountMatches(p)
  }

  /** The constructor takes the count from its caller, so a new port's count
      and list agree only when the count given is zero; a recount always
      brings them into agreement. */
  lemma CountMatchesOnlyAfterRecount(id: int, name: string, maxCapacity: Capacity, current: int,
                                     posX: real, posY: real)
    ensures CountMatches(NewAgentPort(id, name, maxCapacity, current, posX, posY)) <==> current == 0
    ensures CountMatches(AgentUpdateCapacity(NewAgentPort(id, name, maxCapacity, current, posX, posY)))
  {
  }

  lemma AgentDockKeepsConsistent(p: AgentPort, ship: nat)
    requires AgentConsistent(p)
    ensures AgentDock(p, ship).Ok?
    ensures AgentConsistent(AgentDock(p, ship).value.1)
  {
  }

  lemma AgentUndockKeepsConsistent(p: AgentPort, ship: nat)
    requires AgentConsistent(p)
    ensures AgentConsistent(AgentUndock(p, ship).1)
  {
  }

  /** Undocking a ship right after docking it restores the port (the same
      round trip as for the other two port classes, for this class's own
      docking code). */
  lemma {:induction false} AgentUndockUndoesDock(p: AgentPort, ship: nat)
    requires ship !in p.docked
    requires AgentDock(p, ship).Ok? && AgentDock(p, ship).value.0
    ensures AgentUndock(AgentDock(p, ship).value.1, ship) == (true, p)
  {
    RemoveFirstOfAppended(p.docked, ship);
  }
}
