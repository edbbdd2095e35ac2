/** A port of the simulation (mesa/port.py): its capacity derived from a size
    class and the fleet size, its scrubber policy, the congestion-priced
    docking fee, and the dock/undock protocol that keeps the occupancy count
    and the list of docked ships in step.
 */
module Harbour {
  import opened Base
  import opened Grid

  /** What a port knows of a ship: its identity and the two attributes the
      fee and the policy look at.  Ships compare by identity in the source;
      ids are unique, so equal vessels are the same ship. */
  datatype Vessel = Vessel(id: nat, shipType: string, isScrubber: bool)

  /** An already-loaded port record: name, harbour-size class, grid cell. */
  datatype PortRecord = PortRecord(name: string, sizeClass: string, cell: Pos)

  datatype Port = Port(
    id: nat,
    name: string,
    cell: Pos,
    capacity: int,          // port_capacity: the derived berth count
    current: int,           // current_capacity: ships docked now
    docked: seq<Vessel>,    // docked_ships, in arrival order
    policy: string,         // scrubber_policy
    allowScrubber: bool,
    revenue: real)

  const Ban := "ban"
  const Tax := "tax"
  const Subsidy := "subsidy"
  const Allow := "allow"

  /** The outcome of `dock_ship` / `undock_ship`: the boolean the source
      returns and the port after the call. */
  datatype Docking = Docking(accepted: bool, port: Port)

  // ---------------------------------------------------------------- capacity

  /** Berths per size class before scaling: medium 5, large 10, anything
      else 3. */
  function BaseCapacity(sizeClass: string): (units: nat)
    ensures sizeClass == "M" ==> units == 5
    ensures sizeClass == "L" ==> units == 10
    ensures sizeClass != "M" && sizeClass != "L" ==> units == 3
  {
    if sizeClass == "M" then 5 else if sizeClass == "L" then 10 else 3
  }

  /** Python's `int(a / b)` for b > 0: division truncated toward zero. */
  function TruncDiv(a: int, b: int): (q: int)
    requires b > 0
    ensures a >= 0 ==> 0 <= q && q * b <= a < q * b + b
    ensures a < 0 ==> q <= 0 && q * b - b < a <= q * b
  {
    if a >= 0 then
      DivBounds(a, b);
      a / b
    else
      DivBounds(-a, b);
      NegateProduct((-a) / b, b);
      -((-a) / b)
  }

  /** Euclidean division of a natural number brackets it between multiples. */
  lemma DivBounds(a: nat, b: int)
    requires b > 0
    ensures 0 <= a / b && (a / b) * b <= a < (a / b) * b + b
  {
    var q, r := a / b, a % b;
    assert a == q * b + r && 0 <= r < b;
  }

  lemma NegateProduct(m: int, b: int)
    ensures (-m) * b == -(m * b)
  {
  }

  lemma DivMonotone(a: nat, c: nat, b: int)
    requires b > 0 && a <= c
    ensures a / b <= c / b
  {
    var qa, qc := a / b, c / b;
    assert qa * b <= a;
    assert c < qc * b + b;
    assert qa * b < (qc + 1) * b;
    MulCancel(qa, qc + 1, b);
  }

  lemma MulCancel(x: int, y: int, b: int)
    requires b > 0 && x * b < y * b
    ensures x < y
  {
  }

  lemma TruncDivMonotone(a: int, c: int, b: int)
    requires b > 0 && a <= c
    ensures TruncDiv(a, b) <= TruncDiv(c, b)
  {
    if a >= 0 {
      DivMonotone(a, c, b);
    } else if c < 0 {
      DivMonotone(-c, -a, b);
    }
  }

  /** `port_size`: the base capacity scaled by ships per port and truncated
      to an integer.  `numPorts` is the number of loaded port records, at
      least one because a port is being built from one of them. */
  function PortSize(sizeClass: string, numShips: int, numPorts: int): (capacity: int)
    requires numPorts > 0
    ensures numShips >= 0 ==> 0 <= capacity * numPorts <= BaseCapacity(sizeClass) * numShips
    ensures numShips >= 0 ==> BaseCapacity(sizeClass) * numShips < (capacity + 1) * numPorts
  {
    TruncDiv(BaseCapacity(sizeClass) * numShips, numPorts)
  }

  /** More ships in the fleet never means fewer berths per port. */
  lemma PortSizeMonotone(sizeClass: string, fewer: int, more: int, numPorts: int)
    requires numPorts > 0 && fewer <= more
    ensures PortSize(sizeClass, fewer, numPorts) <= PortSize(sizeClass, more, numPorts)
  {
    var b := BaseCapacity(sizeClass);
    assert b * fewer <= b * more;
    TruncDivMonotone(b * fewer, b * more, numPorts);
  }

  // -------------------------------------------------------------------- fees

  /** The per-type base fee table; a type missing from it pays 40. */
  function BaseFee(shipType: string): (fee: real)
    ensures 20.0 <= fee <= 120.0
  {
    match shipType
    case "cargo" => 100.0
    case "tanker" => 120.0
    case "fishing" => 50.0
    case "other" => 40.0
    case "tug" => 30.0
    case "passenger" => 80.0
    case "hsc" => 60.0
    case "dredging" => 35.0
    case "search" => 20.0
    case _ => 40.0
  }

  predicate KnownShipType(shipType: string)
  {
    shipType in ["cargo", "tanker", "fishing", "other", "tug", "passenger", "hsc", "dredging", "search"]
  }

  /** A ship type the table does not list is charged like an "other" ship. */
  lemma UnknownTypePaysOtherRate(shipType: string)
    requires !KnownShipType(shipType)
    ensures BaseFee(shipType) == BaseFee("other")
  {
  }

  /** The base fee after the port's policy: a tax port charges scrubber
      ships half as much again, a subsidy port gives non-scrubber ships 20%
      off, and nothing else is adjusted. */
  function AdjustedFee(shipType: string, isScrubber: bool, policy: string): (fee: real)
    ensures policy == Tax && isScrubber ==> fee == 1.5 * BaseFee(shipType)
    ensures policy == Subsidy && !isScrubber ==> fee == 0.8 * BaseFee(shipType)
    ensures !(policy == Tax && isScrubber) && !(policy == Subsidy && !isScrubber) ==> fee == BaseFee(shipType)
    ensures fee > 0.0
  {
    var base := BaseFee(shipType);
    if policy == Tax && isScrubber then base * 1.5
    else if policy == Subsidy && !isScrubber then base * 0.8
    else base
  }

  /** The occupancy ratio, taken as 0 for a port without berths. */
  function CongestionRatio(current: int, capacity: int): (ratio: real)
    ensures capacity > 0 ==> ratio * capacity as real == current as real
    ensures capacity <= 0 ==> ratio == 0.0
  {
    if capacity > 0 then current as real / capacity as real else 0.0
  }

  /** `calculate_docking_fee`: the policy-adjusted base fee times one plus
      the occupancy ratio.  Deterministic in its inputs. */
  function DockingFee(p: Port, v: Vessel): (fee: real)
    ensures p.capacity <= 0 ==> fee == AdjustedFee(v.shipType, v.isScrubber, p.policy)
    ensures p.capacity > 0 ==> fee * (p.capacity as real)
                               == AdjustedFee(v.shipType, v.isScrubber, p.policy) * ((p.capacity + p.current) as real)
  {
    var adj := AdjustedFee(v.shipType, v.isScrubber, p.policy);
    var ratio := CongestionRatio(p.current, p.capacity);
    var fee := adj * (1.0 + ratio);
    SurchargedTimesBerths(adj, ratio, fee, p.capacity, p.current);
    fee
  }

  /** A surcharge by the occupancy ratio, scaled back up by the berths, is
      the base times berths plus occupancy. */
  lemma SurchargedTimesBerths(adj: real, ratio: real, fee: real, berths: int, occupied: int)
    requires fee == adj * (1.0 + ratio)
    requires berths > 0 ==> ratio * berths as real == occupied as real
    requires berths <= 0 ==> ratio == 0.0
    ensures berths <= 0 ==> fee == adj
    ensures berths > 0 ==> fee * berths as real == adj * (berths + occupied) as real
  {
    if berths > 0 {
      assert fee * berths as real == adj * berths as real + adj * (ratio * berths as real);
    }
  }

  /** With fixed ship and policy, a fuller port never charges less. */
  lemma FeeMonotoneInOccupancy(p: Port, v: Vessel, fewer: int, more: int)
    requires fewer <= more
    ensures DockingFee(p.(current := fewer), v) <= DockingFee(p.(current := more), v)
  {
    var adj := AdjustedFee(v.shipType, v.isScrubber, p.policy);
    RatioMonotone(fewer, more, p.capacity);
    ScaleMonotone(adj, 1.0 + CongestionRatio(fewer, p.capacity), 1.0 + CongestionRatio(more, p.capacity));
  }

  /** The congestion surcharge never lowers the fee below the adjusted base,
      and while occupancy stays within capacity it at most doubles it. */
  lemma FeeWithinSurchargeBounds(p: Port, v: Vessel)
    requires p.current >= 0
    ensures AdjustedFee(v.shipType, v.isScrubber, p.policy) <= DockingFee(p, v)
    ensures p.current <= p.capacity ==> DockingFee(p, v) <= 2.0 * AdjustedFee(v.shipType, v.isScrubber, p.policy)
  {
    var adj := AdjustedFee(v.shipType, v.isScrubber, p.policy);
    var ratio := CongestionRatio(p.current, p.capacity);
    RatioBounds(p.current, p.capacity);
    ScaleMonotone(adj, 1.0, 1.0 + ratio);
    if p.current <= p.capacity {
      ScaleMonotone(adj, 1.0 + ratio, 2.0);
    }
  }

  /** The occupancy ratio grows with the count. */
  lemma RatioMonotone(fewer: int, more: int, capacity: int)
    requires fewer <= more
    ensures CongestionRatio(fewer, capacity) <= CongestionRatio(more, capacity)
  {
    if capacity > 0 {
      var c := capacity as real;
      var lo := CongestionRatio(fewer, capacity);
      var hi := CongestionRatio(more, capacity);
      assert (hi - lo) * c == more as real - fewer as real;
      ProductSign(hi - lo, c);
    }
  }

  /** A non-negative count gives a non-negative ratio, and a count within
      capacity a ratio of at most one. */
  lemma RatioBounds(current: int, capacity: int)
    requires current >= 0
    ensures 0.0 <= CongestionRatio(current, capacity)
    ensures current <= capacity ==> CongestionRatio(current, capacity) <= 1.0
  {
    if capacity > 0 {
      var c := capacity as real;
      var r := CongestionRatio(current, capacity);
      ProductSign(r, c);
      assert (1.0 - r) * c == c - current as real;
      ProductSign(1.0 - r, c);
    }
  }

  /** A product with a positive factor has the sign of the other factor. */
  lemma ProductSign(x: real, c: real)
    requires c > 0.0
    ensures x * c >= 0.0 ==> x >= 0.0
  {
  }

  /** Multiplying by a non-negative factor keeps the order. */
  lemma ScaleMonotone(a: real, x: real, y: real)
    requires a >= 0.0 && x <= y
    ensures a * x <= a * y
  {
    assert a * y - a * x == a * (y - x);
  }

  // ------------------------------------------------------------------ policy

  /** The policy a port starts with, as written: an explicit policy wins;
      otherwise the model's `port_policy` attribute is read, but the world
      never stores it, so that read fails; had a text been stored,
      `random.choice` would pick one of its characters. */
  function InitPolicyAsWritten(explicit: Option<string>, storedDefault: Option<string>, pick: nat): (r: Result<string>)
    ensures explicit.Some? ==> r == Ok(explicit.value)
    ensures explicit.None? && storedDefault.None? ==> r == Err(AttributeError("port_policy"))
    ensures explicit.None? && storedDefault.Some? ==>
      r.Ok? && (|r.value| == 1 || (storedDefault.value == "" && r.value == Allow))
  {
    match explicit
    case Some(policy) => Ok(policy)
    case None =>
      match storedDefault
      case None => Err(AttributeError("port_policy"))
      case Some(text) =>
        if |text| > 0 then Ok([text[pick % |text|]]) else Ok(Allow)
  }

  /** The defect made concrete: with the default "allow" stored as a text,
      every port without an explicit policy ends up with a one-letter policy
      that is none of the four policies, and without it construction fails. */
  lemma DefaultPolicyAsWrittenIsBroken(pick: nat)
    ensures InitPolicyAsWritten(None, None, pick).Err?
    ensures InitPolicyAsWritten(None, Some(Allow), pick).Ok?
    ensures InitPolicyAsWritten(None, Some(Allow), pick).value !in [Allow, Ban, Tax, Subsidy]
  {
    var r := InitPolicyAsWritten(None, Some(Allow), pick);
    assert |r.value| == 1;
  }

  /** The evidently intended policy initialisation: an explicit policy wins;
      otherwise one of the configured default policies is chosen by the
      explicit random index; with none configured the port allows
      scrubbers. */
  function InitPolicy(explicit: Option<string>, defaults: seq<string>, pick: nat): (policy: string)
    ensures explicit.Some? ==> policy == explicit.value
    ensures explicit.None? && |defaults| > 0 ==> policy in defaults
    ensures explicit.None? && |defaults| == 0 ==> policy == Allow
  {
    match explicit
    case Some(p) => p
    case None => if |defaults| > 0 then defaults[pick % |defaults|] else Allow
  }

  /** With the single default "allow", a port without an explicit policy
      allows scrubbers, whatever the random index. */
  lemma SingleDefaultPolicyIsKept(policy: string, pick: nat)
    ensures InitPolicy(None, [policy], pick) == policy
  {
  }

  /** The port built from a loaded record: capacity from its size class and
      the fleet size, empty berths, no revenue, and `allow_scrubber` exactly
      when the policy is not a ban. */
  function NewPort(id: nat, rec: PortRecord, numShips: int, numPorts: int, policy: string): (p: Port)
    requires numPorts > 0
    ensures p.allowScrubber <==> policy != Ban
    ensures p.id == id && p.name == rec.name && p.cell == rec.cell && p.policy == policy
    ensures p.current == 0 && p.docked == [] && p.revenue == 0.0
    ensures p.capacity == PortSize(rec.sizeClass, numShips, numPorts)
    ensures numShips >= 0 ==> Consistent(p) && BanRespected(p)
  {
    var capacity := PortSize(rec.sizeClass, numShips, numPorts);
    Port(id, rec.name, rec.cell, capacity, 0, [], policy, policy != Ban, 0.0)
  }

  // ------------------------------------------------------- docking protocol

  /** The occupancy invariant: the count stays within the berths and always
      equals the number of ships actually docked. */
  predicate Consistent(p: Port)
  {
    0 <= p.current <= p.capacity && p.current == |p.docked|
  }

  /** A port that bans scrubbers has none docked. */
  predicate BanRespected(p: Port)
  {
    p.policy == Ban ==> forall k :: 0 <= k < |p.docked| ==> !p.docked[k].isScrubber
  }

  /** `dock_ship`: refused, with nothing changed, when a scrubber ship meets
      a ban or the port is full; otherwise the fee computed at the current
      occupancy is added to the revenue, the count goes up by one and the ship
      is appended to the docked list. */
  function DockShip(p: Port, v: Vessel): (d: Docking)
    ensures d.accepted <==> !(v.isScrubber && p.policy == Ban) && p.current < p.capacity
    ensures !d.accepted ==> d.port == p
    ensures d.accepted ==> d.port == p.(current := p.current + 1, docked := p.docked + [v],
                                        revenue := p.revenue + DockingFee(p, v))
  {
    if v.isScrubber && p.policy == Ban then Docking(false, p)
    else if p.current < p.capacity then
      var fee := DockingFee(p, v);
      Docking(true, p.(revenue := p.revenue + fee, current := p.current + 1, docked := p.docked + [v]))
    else Docking(false, p)
  }

  /** `undock_ship`: a docked ship is removed (its first occurrence) and the
      count goes down by one; asking for a ship that is not docked changes
      nothing and reports false. */
  function UndockShip(p: Port, v: Vessel): (d: Docking)
    ensures d.accepted <==> v in p.docked
    ensures !d.accepted ==> d.port == p
    ensures d.accepted ==> d.port == p.(current := p.current - 1, docked := RemoveFirst(p.docked, v))
  {
    if v in p.docked then Docking(true, p.(docked := RemoveFirst(p.docked, v), current := p.current - 1))
    else Docking(false, p)
  }

  /** `update_capacity`: recount the docked ships. */
  function UpdateCapacity(p: Port): (q: Port)
    ensures q.current == |p.docked|
    ensures q.(current := p.current) == p
  {
    p.(current := |p.docked|)
  }

  /** Recounting a consistent port changes nothing. */
  lemma UpdateCapacityKeepsConsistentPort(p: Port)
    requires Consistent(p)
    ensures UpdateCapacity(p) == p
  {
  }

  /** Docking keeps the occupancy invariant. */
  lemma DockPreservesConsistency(p: Port, v: Vessel)
    requires Consistent(p)
    ensures Consistent(DockShip(p, v).port)
  {
  }

  /** Undocking keeps the occupancy invariant. */
  lemma UndockPreservesConsistency(p: Port, v: Vessel)
    requires Consistent(p)
    ensures Consistent(UndockShip(p, v).port)
  {
  }

  /** No dock or undock ever puts a scrubber ship into a port that bans
      scrubbers. */
  lemma {:induction false} DockingRespectsBan(p: Port, v: Vessel)
    requires BanRespected(p)
    ensures BanRespected(DockShip(p, v).port)
    ensures BanRespected(UndockShip(p, v).port)
  {
    var u := UndockShip(p, v).port;
    if v in p.docked && p.policy == Ban {
      forall k | 0 <= k < |u.docked|
        ensures !u.docked[k].isScrubber
      {
        assert u.docked[k] in multiset(p.docked);
      }
    }
  }

  /** Undocking a ship that just docked (and was not docked before) returns
      the port to its previous berths and count; only the fee remains.  The
      other two port classes have their own round trips for their own code. */
  lemma {:induction false} UndockUndoesDock(p: Port, v: Vessel)
    requires v !in p.docked && DockShip(p, v).accepted
    ensures UndockShip(DockShip(p, v).port, v).accepted
    ensures UndockShip(DockShip(p, v).port, v).port == p.(revenue := p.revenue + DockingFee(p, v))
  {
    RemoveFirstOfAppended(p.docked, v);
  }
}
