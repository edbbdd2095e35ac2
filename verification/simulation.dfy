/** The world of mesa/model.py (`ShipPortModel`): construction (the port
    registry with its policies, the release counters), and one `step` of
    the model, which first releases this step's share of the fleet and then
    lets the random-activation scheduler activate every agent once.

    The scheduler's shuffled order is an explicit parameter: a sequence of
    activations naming ships and trails by id.  As in the scheduler, an
    agent removed earlier in the step is skipped, and a trail deposited
    during the step is not activated in it.  Ports and terrain cells do
    nothing when activated and are left out of the order.  The random draws
    behind each newly released ship are an explicit function of its id.
 */
module Simulation {
  import opened Base
  import opened Grid
  import opened Text
  import opened Harbour
  import opened Trails
  import opened Voyage
  import opened Routing
  import opened Policies
  import opened Spawning
  import opened Reporters

  /** The first id handed to a trail. */
  const FirstTrailId: nat := 10000

  datatype World = World(
    env: Env,
    numShips: int,
    ports: seq<Port>,      // the port registry; the i-th port has id i
    ships: seq<Ship>,      // active ships, in order of release
    trails: seq<Trail>,    // live trails, in order of deposit
    nextShipId: nat,
    nextTrailId: nat,
    remaining: int,        // ships still to be released
    steps: nat,            // the scheduler's step counter
    penaltySum: real,
    penaltyCount: int)

  /** The random draws behind one released ship: its type, the uniform
      draw deciding its scrubber, the index of its starting cell and the
      three uniform draws of its route. */
  datatype Arrival = Arrival(shipType: string, scrubberDraw: real, startPick: nat,
                             routeDraw1: real, routeDraw2: real, routeDraw3: real)

  /** One entry of the scheduler's order: ship `id` (with the random index
      of its fallback move) or trail `id`. */
  datatype Activation = ActShip(id: nat, pick: nat) | ActTrail(id: nat)

  // ------------------------------------------------------------ construction

  /** The default policies of the `port_policy` argument, a comma-separated
      list. */
  function DefaultPolicies(text: string): (defaults: seq<string>)
    ensures |defaults| == |Split(text, ',')|
    ensures forall i :: 0 <= i < |defaults| ==> defaults[i] == Strip(Split(text, ',')[i])
  {
    var pieces := Split(text, ',');
    seq(|pieces|, i requires 0 <= i < |pieces| => Strip(pieces[i]))
  }

  /** The policy a port starts with: the override for its name when there
      is one, otherwise one of the default policies. */
  function PortPolicy(name: string, overrides: map<string, string>, defaults: seq<string>, pick: nat): (policy: string)
    ensures name in overrides ==> policy == overrides[name]
    ensures name !in overrides && |defaults| > 0 ==> policy in defaults
    ensures name !in overrides && |defaults| == 0 ==> policy == Allow
  {
    InitPolicy(OverrideFor(name, overrides), defaults, pick)
  }

  /** The port registry, one port per loaded record, the i-th with id i;
      `picks(i)` is the random index behind the i-th port's default
      policy. */
  function SetupPorts(records: seq<PortRecord>, numShips: int, overrides: map<string, string>,
                      defaults: seq<string>, picks: nat -> nat): (ports: seq<Port>)
    ensures |ports| == |records|
    ensures forall i :: 0 <= i < |ports| ==>
      && ports[i].id == i && ports[i].name == records[i].name && ports[i].cell == records[i].cell
      && ports[i].policy == PortPolicy(records[i].name, overrides, defaults, picks(i))
      && ports[i].current == 0 && ports[i].docked == [] && ports[i].revenue == 0.0
      && (ports[i].allowScrubber <==> ports[i].policy != Ban)
    ensures forall i :: 0 <= i < |ports| ==> ports[i].capacity == PortSize(records[i].sizeClass, numShips, |records|)
    ensures numShips >= 0 ==> PortsSound(ports)
  {
    var ports := seq(|records|, i requires 0 <= i < |records| =>
      NewPort(i, records[i], numShips, |records|, PortPolicy(records[i].name, overrides, defaults, picks(i))));
    assert forall i :: 0 <= i < |ports| ==>
      ports[i] == NewPort(i, records[i], numShips, |records|, PortPolicy(records[i].name, overrides, defaults, picks(i)));
    ports
  }

  /** The world right after construction: the registry built, no ship or
      trail yet, ship ids starting after the port ids, the whole fleet
      still to be released. */
  function Setup(env: Env, numShips: int, portPolicy: string, customPolicies: string,
                 records: seq<PortRecord>, picks: nat -> nat): (w: World)
    requires env.width > 0 && env.height > 0
    ensures w.ports == SetupPorts(records, numShips, ParseOverrides(customPolicies), DefaultPolicies(portPolicy), picks)
    ensures |w.ports| == |records|
    ensures forall i :: 0 <= i < |records| ==>
      w.ports[i].policy == PortPolicy(records[i].name, ParseOverrides(customPolicies), DefaultPolicies(portPolicy), picks(i))
    ensures w.ships == [] && w.trails == []
    ensures w.nextShipId == |records| && w.nextTrailId == FirstTrailId
    ensures w.remaining == numShips && w.steps == 0
    ensures Wf(w)
    ensures numShips >= 0 ==> Inv(w)
  {
    var ports := SetupPorts(records, numShips, ParseOverrides(customPolicies), DefaultPolicies(portPolicy), picks);
    World(env, numShips, ports, [], [], |records|, FirstTrailId, numShips, 0, 0.0, 0)
  }

  // -------------------------------------------------------------- invariant

  predicate PortsSound(ports: seq<Port>)
  {
    forall i :: 0 <= i < |ports| ==> Consistent(ports[i]) && BanRespected(ports[i])
  }

  /** Every live trail holds the standard water and has between one and the
      default number of steps to live. */
  predicate TrailsSound(trails: seq<Trail>)
  {
    forall k :: 0 <= k < |trails| ==>
      trails[k].waterUnits == TrailWater && 1 <= trails[k].lifespan <= DefaultLifespan
  }

  /** Ship ids strictly increase along the sequence and lie in `[lo, hi)`. */
  predicate ShipIdsAscending(ships: seq<Ship>, lo: int, hi: int)
  {
    && (forall i :: 0 <= i < |ships| ==> lo <= ships[i].vessel.id < hi)
    && (forall i, j :: 0 <= i < j < |ships| ==> ships[i].vessel.id < ships[j].vessel.id)
  }

  predicate TrailIdsAscending(trails: seq<Trail>, lo: int, hi: int)
  {
    && (forall i :: 0 <= i < |trails| ==> lo <= trails[i].id < hi)
    && (forall i, j :: 0 <= i < j < |trails| ==> trails[i].id < trails[j].id)
  }

  /** What a world needs for its steps to be defined: a non-empty grid,
      routes naming registered ports, and unique agent ids below the next
      ids to hand out. */
  predicate Wf(w: World)
  {
    && w.env.width > 0 && w.env.height > 0
    && (forall i :: 0 <= i < |w.ships| ==> RouteValid(w.ships[i], |w.ports|))
    && |w.ports| <= w.nextShipId
    && ShipIdsAscending(w.ships, |w.ports|, w.nextShipId)
    && FirstTrailId <= w.nextTrailId
    && TrailIdsAscending(w.trails, FirstTrailId, w.nextTrailId)
  }

  /** The world invariant: well formed, sound ports and trails, every ship
      released or still to come, the release on its schedule, and no
      scrubber penalty recorded (nothing records one). */
  predicate Inv(w: World)
  {
    && Wf(w)
    && PortsSound(w.ports)
    && TrailsSound(w.trails)
    && (w.nextShipId - |w.ports|) + w.remaining == w.numShips
    && w.remaining == RemainingAfter(w.numShips, 0, SpawnDuration, w.steps)
    && w.penaltySum == 0.0 && w.penaltyCount == 0
  }

  /** What an activation leaves alone: everything but the ports' contents,
      the ships, the trails and the next trail id, which never goes down. */
  predicate Frame(w: World, r: World)
  {
    && r.env == w.env && r.numShips == w.numShips && r.nextShipId == w.nextShipId
    && r.remaining == w.remaining && r.steps == w.steps
    && r.penaltySum == w.penaltySum && r.penaltyCount == w.penaltyCount
    && |r.ports| == |w.ports| && w.nextTrailId <= r.nextTrailId
  }

  // ----------------------------------------------------------------- release

  /** A released ship (`spawn_ship`): built from its draws on its starting
      cell, with the route drawn over the registry. */
  function Arrive(w: World, isWater: Terrain, id: nat, a: Arrival): (s: Ship)
    requires w.env.width > 0 && w.env.height > 0
    ensures s.vessel.id == id && s.vessel.shipType == a.shipType
    ensures s.vessel.isScrubber <==> a.scrubberDraw < ScrubberProbability(a.shipType)
    ensures s.cell == StartCell(isWater, w.env.width, w.env.height, a.startPick)
    ensures !s.docked && s.dockingSteps == 0 && s.targetIndex == 0 && s.waitTime == 0
    ensures s.route == DetermineRoute(w.ports, s.vessel, [a.routeDraw1, a.routeDraw2, a.routeDraw3])
    ensures RouteValid(s, |w.ports|)
  {
    var start := StartCell(isWater, w.env.width, w.env.height, a.startPick);
    var s := NewShip(id, a.shipType, a.scrubberDraw, start);
    s.(route := DetermineRoute(w.ports, s.vessel, [a.routeDraw1, a.routeDraw2, a.routeDraw3]))
  }

  /** The `j`-th ship of a release: the next ship id plus `j`, arriving
      with the draws held for that id. */
  function ArrivalAt(w: World, isWater: Terrain, arrivals: nat -> Arrival, j: nat): (s: Ship)
    requires w.env.width > 0 && w.env.height > 0
    ensures s.vessel.id == w.nextShipId + j && RouteValid(s, |w.ports|)
  {
    Arrive(w, isWater, w.nextShipId + j, arrivals(w.nextShipId + j))
  }

  /** The `k` ships released together, with consecutive ids from the next
      ship id; `arrivals(id)` holds the draws behind ship `id`. */
  function Arrivals(w: World, isWater: Terrain, arrivals: nat -> Arrival, k: nat): (ships: seq<Ship>)
    requires w.env.width > 0 && w.env.height > 0
    ensures |ships| == k
    ensures forall j :: 0 <= j < k ==> ships[j] == ArrivalAt(w, isWater, arrivals, j)
    ensures forall j :: 0 <= j < k ==> ships[j].vessel.id == w.nextShipId + j && RouteValid(ships[j], |w.ports|)
  {
    seq(k, j requires 0 <= j < k && w.env.width > 0 && w.env.height > 0 => ArrivalAt(w, isWater, arrivals, j))
  }

  /** The release at the start of a step: this step's share of the fleet
      arrives after the active ships. */
  function Release(w: World, isWater: Terrain, arrivals: nat -> Arrival): (r: World)
    requires Wf(w)
    ensures var k := SpawnCount(w.remaining, w.steps, SpawnDuration);
      r == w.(ships := w.ships + Arrivals(w, isWater, arrivals, k),
              nextShipId := w.nextShipId + k, remaining := w.remaining - k)
    ensures Wf(r)
  {
    var k := SpawnCount(w.remaining, w.steps, SpawnDuration);
    var arrived := Arrivals(w, isWater, arrivals, k);
    AppendKeepsShipIds(w.ships, arrived, |w.ports|, w.nextShipId, w.nextShipId + k);
    w.(ships := w.ships + arrived, nextShipId := w.nextShipId + k, remaining := w.remaining - k)
  }

  /** Ships with ids in `[mid, hi)` appended after ships with ids in
      `[lo, mid)` keep the ids ascending. */
  lemma AppendKeepsShipIds(ships: seq<Ship>, more: seq<Ship>, lo: int, mid: int, hi: int)
    requires lo <= mid <= hi
    requires ShipIdsAscending(ships, lo, mid) && ShipIdsAscending(more, mid, hi)
    ensures ShipIdsAscending(ships + more, lo, hi)
  {
    var all := ships + more;
    forall a, b | 0 <= a < b < |all|
      ensures all[a].vessel.id < all[b].vessel.id
    {
      if b < |ships| {
        assert all[a] == ships[a] && all[b] == ships[b];
      } else if a >= |ships| {
        assert all[a] == more[a - |ships|] && all[b] == more[b - |ships|];
      } else {
        assert all[a] == ships[a] && all[b] == more[b - |ships|];
      }
    }
  }

  // -------------------------------------------------------------- activation

  /** The position of the active ship with the given id. */
  function FindShip(ships: seq<Ship>, id: nat): (i: Option<nat>)
    ensures i.Some? ==> i.value < |ships| && ships[i.value].vessel.id == id
    ensures i.None? ==> forall k :: 0 <= k < |ships| ==> ships[k].vessel.id != id
  {
    if |ships| == 0 then None
    else if ships[0].vessel.id == id then Some(0)
    else match FindShip(ships[1..], id)
      case None => None
      case Some(k) => Some(k + 1)
  }

  /** The position of the live trail with the given id. */
  function FindTrail(trails: seq<Trail>, id: nat): (i: Option<nat>)
    ensures i.Some? ==> i.value < |trails| && trails[i.value].id == id
    ensures i.None? ==> forall k :: 0 <= k < |trails| ==> trails[k].id != id
  {
    if |trails| == 0 then None
    else if trails[0].id == id then Some(0)
    else match FindTrail(trails[1..], id)
      case None => None
      case Some(k) => Some(k + 1)
  }

  /** The i-th ship's activation: the ship steps; a timed-out ship leaves
      the world, any other is updated in place; the registry takes the
      step's docking changes and a deposited trail joins the world. */
  function ActivateShip(w: World, isWater: Terrain, i: nat, pick: nat): (r: World)
    requires Wf(w) && i < |w.ships|
    ensures Wf(r) && Frame(w, r)
    ensures var o := ShipStep(w.env, isWater, w.ports, w.ships[i], w.nextTrailId, pick);
      && r.ports == o.ports && r.nextTrailId == o.nextTrailId
      && r.ships == (if o.removed then RemoveAt(w.ships, i) else w.ships[i := o.ship])
      && r.trails == w.trails + (if o.trail.Some? then [o.trail.value] else [])
  {
    var o := ShipStep(w.env, isWater, w.ports, w.ships[i], w.nextTrailId, pick);
    ShipActivationWellFormed(w, isWater, i, pick);
    w.(ports := o.ports, ships := if o.removed then RemoveAt(w.ships, i) else w.ships[i := o.ship],
       trails := w.trails + (if o.trail.Some? then [o.trail.value] else []), nextTrailId := o.nextTrailId)
  }

  /** The world after a ship's activation is well formed. */
  lemma ShipActivationWellFormed(w: World, isWater: Terrain, i: nat, pick: nat)
    requires Wf(w) && i < |w.ships|
    ensures var o := ShipStep(w.env, isWater, w.ports, w.ships[i], w.nextTrailId, pick);
      Wf(w.(ports := o.ports, ships := if o.removed then RemoveAt(w.ships, i) else w.ships[i := o.ship],
            trails := w.trails + (if o.trail.Some? then [o.trail.value] else []), nextTrailId := o.nextTrailId))
      && w.nextTrailId <= o.nextTrailId && |o.ports| == |w.ports|
  {
    var s := w.ships[i];
    var o := ShipStep(w.env, isWater, w.ports, s, w.nextTrailId, pick);
    ShipStepKeepsRouteValid(w.env, isWater, w.ports, s, w.nextTrailId, pick);
    if o.trail.Some? {
      assert !s.docked;
      assert (o.trail, o.nextTrailId) == Discharge(s.vessel, s.cell, o.ship.cell, w.nextTrailId);
    }
    OutcomeWellFormed(w, i, o);
  }

  /** Any step outcome that keeps the ship's vessel, a valid route and the
      registry's size, and that numbers a deposited trail with the next
      trail id, leaves a well-formed world. */
  lemma OutcomeWellFormed(w: World, i: nat, o: StepOutcome)
    requires Wf(w) && i < |w.ships|
    requires o.ship.vessel == w.ships[i].vessel && RouteValid(o.ship, |w.ports|) && |o.ports| == |w.ports|
    requires o.trail.Some? ==> o.trail.value.id == w.nextTrailId && o.nextTrailId == w.nextTrailId + 1
    requires o.trail.None? ==> o.nextTrailId == w.nextTrailId
    ensures Wf(w.(ports := o.ports, ships := if o.removed then RemoveAt(w.ships, i) else w.ships[i := o.ship],
                  trails := w.trails + (if o.trail.Some? then [o.trail.value] else []), nextTrailId := o.nextTrailId))
  {
    if o.removed {
      RemoveAtKeepsShipIds(w.ships, i, |w.ports|, w.nextShipId);
      RemoveAtKeepsRoutes(w.ships, i, |w.ports|);
    } else {
      ReplaceKeepsShips(w.ships, i, o.ship, w.ships[i := o.ship], |w.ports|, w.nextShipId);
    }
    if o.trail.Some? {
      AppendKeepsTrailIds(w.trails, o.trail.value, FirstTrailId, w.nextTrailId);
    }
  }

  /** Every route stays valid when a ship leaves. */
  lemma RemoveAtKeepsRoutes(ships: seq<Ship>, i: nat, numPorts: int)
    requires i < |ships| && forall k :: 0 <= k < |ships| ==> RouteValid(ships[k], numPorts)
    ensures forall k :: 0 <= k < |ships| - 1 ==> RouteValid(RemoveAt(ships, i)[k], numPorts)
  {
    var r := RemoveAt(ships, i);
    forall k | 0 <= k < |r|
      ensures RouteValid(r[k], numPorts)
    {
      assert r[k] == ships[if k < i then k else k + 1];
    }
  }

  /** Replacing a ship by one with the same vessel and a valid route keeps
      the routes valid and the ids ascending. */
  lemma ReplaceKeepsShips(ships: seq<Ship>, i: nat, s: Ship, r: seq<Ship>, numPorts: int, hi: int)
    requires i < |ships| && s.vessel == ships[i].vessel && RouteValid(s, numPorts) && r == ships[i := s]
    requires forall k :: 0 <= k < |ships| ==> RouteValid(ships[k], numPorts)
    requires ShipIdsAscending(ships, numPorts, hi)
    ensures forall k :: 0 <= k < |r| ==> RouteValid(r[k], numPorts)
    ensures ShipIdsAscending(r, numPorts, hi)
  {
    assert forall k :: 0 <= k < |r| ==> r[k].vessel == ships[k].vessel;
  }

  /** A trail numbered with the next trail id joins the end of the list
      with the ids still ascending. */
  lemma AppendKeepsTrailIds(trails: seq<Trail>, t: Trail, lo: int, hi: int)
    requires lo <= hi && TrailIdsAscending(trails, lo, hi) && t.id == hi
    ensures TrailIdsAscending(trails + [t], lo, hi + 1)
  {
    var all := trails + [t];
    assert forall k :: 0 <= k < |trails| ==> all[k] == trails[k];
  }

  lemma RemoveAtKeepsShipIds(ships: seq<Ship>, i: nat, lo: int, hi: int)
    requires i < |ships| && ShipIdsAscending(ships, lo, hi)
    ensures ShipIdsAscending(RemoveAt(ships, i), lo, hi)
  {
    var r := RemoveAt(ships, i);
    forall a, b | 0 <= a < b < |r|
      ensures r[a].vessel.id < r[b].vessel.id
    {
      var a' := if a < i then a else a + 1;
      var b' := if b < i then b else b + 1;
      assert r[a] == ships[a'] && r[b] == ships[b'];
    }
  }

  lemma RemoveAtKeepsTrailIds(trails: seq<Trail>, i: nat, lo: int, hi: int)
    requires i < |trails| && TrailIdsAscending(trails, lo, hi)
    ensures TrailIdsAscending(RemoveAt(trails, i), lo, hi)
  {
    var r := RemoveAt(trails, i);
    forall a, b | 0 <= a < b < |r|
      ensures r[a].id < r[b].id
    {
      var a' := if a < i then a else a + 1;
      var b' := if b < i then b else b + 1;
      assert r[a] == trails[a'] && r[b] == trails[b'];
    }
  }

  /** The i-th trail's activation: it ages by one step, leaving the world
      when its lifespan runs out. */
  function ActivateTrail(w: World, i: nat): (r: World)
    requires Wf(w) && i < |w.trails|
    ensures Wf(r) && Frame(w, r)
    ensures r.ships == w.ships && r.ports == w.ports && r.nextTrailId == w.nextTrailId
    ensures w.trails[i].lifespan > 1 ==> r.trails == w.trails[i := w.trails[i].(lifespan := w.trails[i].lifespan - 1)]
    ensures w.trails[i].lifespan <= 1 ==> r.trails == RemoveAt(w.trails, i)
  {
    match TrailStep(w.trails[i])
    case None =>
      RemoveAtKeepsTrailIds(w.trails, i, FirstTrailId, w.nextTrailId);
      w.(trails := RemoveAt(w.trails, i))
    case Some(t) => w.(trails := w.trails[i := t])
  }

  /** One entry of the scheduler's order.  An agent no longer in the world
      is skipped, and so is a trail whose id is at least `cutoff`, the next
      trail id when the step's activations began: such a trail was deposited
      during the step. */
  function Activate(w: World, isWater: Terrain, cutoff: nat, a: Activation): (r: World)
    requires Wf(w)
    ensures Wf(r) && Frame(w, r)
    ensures a.ActShip? && FindShip(w.ships, a.id).None? ==> r == w
    ensures a.ActTrail? && (a.id >= cutoff || FindTrail(w.trails, a.id).None?) ==> r == w
    ensures a.ActTrail? ==> r.ships == w.ships && r.ports == w.ports
  {
    match a
    case ActShip(id, pick) =>
      (match FindShip(w.ships, id)
       case None => w
       case Some(i) => ActivateShip(w, isWater, i, pick))
    case ActTrail(id) =>
      if id >= cutoff then w
      else match FindTrail(w.trails, id)
        case None => w
        case Some(i) => ActivateTrail(w, i)
  }

  /** The scheduler's pass over its order. */
  function ActivateAll(w: World, isWater: Terrain, cutoff: nat, order: seq<Activation>): (r: World)
    requires Wf(w)
    ensures Wf(r) && Frame(w, r)
    decreases |order|
  {
    if |order| == 0 then w
    else ActivateAll(Activate(w, isWater, cutoff, order[0]), isWater, cutoff, order[1..])
  }

  /** One `step` of the model: the release, then every activation, then
      the scheduler's step counter moves on. */
  function Tick(w: World, isWater: Terrain, arrivals: nat -> Arrival, order: seq<Activation>): (r: World)
    requires Wf(w)
    ensures Wf(r)
    ensures r.steps == w.steps + 1 && |r.ports| == |w.ports|
    ensures var k := SpawnCount(w.remaining, w.steps, SpawnDuration);
      r.nextShipId == w.nextShipId + k && r.remaining == w.remaining - k
    ensures r.numShips == w.numShips && r.env == w.env
    ensures r.penaltySum == w.penaltySum && r.penaltyCount == w.penaltyCount
  {
    var released := Release(w, isWater, arrivals);
    var acted := ActivateAll(released, isWater, released.nextTrailId, order);
    acted.(steps := w.steps + 1)
  }

  // ------------------------------------------------------------- properties

  /** An activation keeps every port's occupancy invariant and ban, and
      every trail's water and lifespan bounds. */
  lemma {:induction false} ActivateKeepsSound(w: World, isWater: Terrain, cutoff: nat, a: Activation)
    requires Wf(w) && PortsSound(w.ports) && TrailsSound(w.trails)
    ensures var r := Activate(w, isWater, cutoff, a);
      PortsSound(r.ports) && TrailsSound(r.trails)
  {
    match a {
      case ActShip(id, pick) =>
        var i := FindShip(w.ships, id);
        if i.Some? {
          ShipActivationKeepsSound(w, isWater, i.value, pick);
        }
      case ActTrail(id) =>
        var i := FindTrail(w.trails, id);
        if id < cutoff && i.Some? {
          TrailActivationKeepsSound(w, i.value);
        }
    }
  }

  lemma ShipActivationKeepsSound(w: World, isWater: Terrain, i: nat, pick: nat)
    requires Wf(w) && PortsSound(w.ports) && TrailsSound(w.trails) && i < |w.ships|
    ensures var r := ActivateShip(w, isWater, i, pick);
      PortsSound(r.ports) && TrailsSound(r.trails)
  {
    ShipStepKeepsPortsSound(w.env, isWater, w.ports, w.ships[i], w.nextTrailId, pick);
  }

  lemma TrailActivationKeepsSound(w: World, i: nat)
    requires Wf(w) && TrailsSound(w.trails) && i < |w.trails|
    ensures TrailsSound(ActivateTrail(w, i).trails)
  {
    var r := ActivateTrail(w, i);
    if w.trails[i].lifespan <= 1 {
      assert forall k :: 0 <= k < |r.trails| ==> r.trails[k] in w.trails;
    }
  }

  lemma {:induction false} ActivateAllKeepsSound(w: World, isWater: Terrain, cutoff: nat, order: seq<Activation>)
    requires Wf(w) && PortsSound(w.ports) && TrailsSound(w.trails)
    ensures var r := ActivateAll(w, isWater, cutoff, order);
      PortsSound(r.ports) && TrailsSound(r.trails)
    decreases |order|
  {
    if |order| > 0 {
      ActivateKeepsSound(w, isWater, cutoff, order[0]);
      ActivateAllKeepsSound(Activate(w, isWater, cutoff, order[0]), isWater, cutoff, order[1..]);
    }
  }

  /** Every step keeps the world invariant, whatever the draws and the
      scheduler's order. */
  lemma {:induction false} TickPreservesInv(w: World, isWater: Terrain, arrivals: nat -> Arrival, order: seq<Activation>)
    requires Inv(w)
    ensures Inv(Tick(w, isWater, arrivals, order))
  {
    var released := Release(w, isWater, arrivals);
    var acted := ActivateAll(released, isWater, released.nextTrailId, order);
    ActivateAllKeepsSound(released, isWater, released.nextTrailId, order);
    var r := Tick(w, isWater, arrivals, order);
    assert r.ports == acted.ports && r.trails == acted.trails;
    InvAfterStep(w, r);
  }

  /** A well-formed successor with sound ports and trails, one step on,
      that released this step's share of the fleet keeps the invariant. */
  lemma InvAfterStep(w: World, r: World)
    requires Inv(w) && Wf(r) && PortsSound(r.ports) && TrailsSound(r.trails)
    requires var k := SpawnCount(w.remaining, w.steps, SpawnDuration);
      r.nextShipId == w.nextShipId + k && r.remaining == w.remaining - k
    requires |r.ports| == |w.ports| && r.steps == w.steps + 1 && r.numShips == w.numShips
    requires r.penaltySum == w.penaltySum && r.penaltyCount == w.penaltyCount
    ensures Inv(r)
  {
    RemainingAfterStep(w.numShips, 0, SpawnDuration, w.steps);
  }

  /** The active ships never outnumber the ships released so far, and so
      never the fleet. */
  lemma ActiveShipsWithinReleased(w: World)
    requires Inv(w)
    ensures NumShips(w.ships) <= w.nextShipId - |w.ports|
    ensures w.remaining >= 0 ==> NumShips(w.ships) <= w.numShips
  {
    AscendingIdsBound(w.ships, |w.ports|, w.nextShipId);
  }

  /** Strictly increasing ids within `[lo, hi)` number at most `hi - lo`. */
  lemma {:induction false} AscendingIdsBound(ships: seq<Ship>, lo: int, hi: int)
    requires ShipIdsAscending(ships, lo, hi)
    ensures |ships| <= hi - lo || |ships| == 0
    ensures |ships| > 0 ==> |ships| <= hi - lo
    decreases |ships|
  {
    if |ships| > 0 {
      AscendingIdsBound(ships[1..], ships[0].vessel.id + 1, hi);
    }
  }

  /** From the release window's end on, the whole fleet has been released:
      every ship id of the fleet has been handed out. */
  lemma FleetReleasedAfterWindow(w: World)
    requires Inv(w) && w.numShips >= 0 && w.steps >= SpawnDuration
    ensures w.remaining == 0
    ensures w.nextShipId == |w.ports| + w.numShips
  {
    NothingRemainsAfterWindow(w.numShips, w.steps);
  }

  /** The reporters agree with the invariant: ten units of water per trail,
      the docked lists add up to the berth counters, within the capacity,
      and the average penalty is zero. */
  lemma ReportsAreCoherent(w: World)
    requires Inv(w)
    ensures TotalScrubberWater(w.trails) == TrailWater * NumScrubberTrails(w.trails)
    ensures TotalDockedShips(w.ports) == TotalOccupancy(w.ports) <= TotalCapacity(w.ports)
    ensures AveragePenalty(w.penaltySum, w.penaltyCount) == 0.0
  {
    WaterIsTenPerTrail(w.trails);
    DockedTotalMatchesCounters(w.ports);
  }

  /** With the default arguments (policy "allow", no overrides) every port
      of a new world allows scrubbers. */
  lemma DefaultSetupAllowsEverywhere(env: Env, numShips: int, records: seq<PortRecord>, picks: nat -> nat)
    requires env.width > 0 && env.height > 0
    ensures var w := Setup(env, numShips, Allow, NoOverrides, records, picks);
      forall i :: 0 <= i < |w.ports| ==> w.ports[i].policy == Allow && w.ports[i].allowScrubber
  {
    SingleDefaultPolicy(Allow);
    var ports := SetupPorts(records, numShips, ParseOverrides(NoOverrides), DefaultPolicies(Allow), picks);
    forall i | 0 <= i < |ports|
      ensures ports[i].policy == Allow && ports[i].allowScrubber
    {
      assert ports[i].policy == PortPolicy(records[i].name, map[], [Allow], picks(i));
    }
  }

  /** A policy text without commas or surrounding whitespace names the one
      policy it spells. */
  lemma SingleDefaultPolicy(text: string)
    requires ',' !in text && (|text| > 0 ==> !IsSpace(text[0]) && !IsSpace(text[|text| - 1]))
    ensures DefaultPolicies(text) == [text]
  {
    SplitWithoutSeparator(text, ',');
    StripKeepsUnspaced(text);
    var defaults := DefaultPolicies(text);
    assert |defaults| == 1 && defaults[0] == Strip(text);
  }
}
