/** The model reporters of mesa/model.py (`_setup_data_collector`) and
    `get_average_penalty`: counts and sums over the agents of the world,
    with every average guarded against an empty denominator by `max(1, n)`.
 */
module Reporters {
  import opened Base
  import opened Harbour
  import opened Trails
  import opened Voyage

  /** `NumShips`: every live ship, each counted as exactly one of
      scrubber or non-scrubber. */
  function NumShips(ships: seq<Ship>): (n: nat)
    ensures n == NumScrubberShips(ships) + NumNonScrubberShips(ships)
  {
    ShipCountsPartition(ships);
    |ships|
  }

  /** `NumScrubberShips`: none exactly when no ship has a scrubber, all
      exactly when every ship has one. */
  function NumScrubberShips(ships: seq<Ship>): (n: nat)
    ensures n <= |ships|
    ensures n == 0 <==> forall i :: 0 <= i < |ships| ==> !ships[i].vessel.isScrubber
    ensures n == |ships| <==> forall i :: 0 <= i < |ships| ==> ships[i].vessel.isScrubber
  {
    if |ships| == 0 then 0
    else
      var rest := NumScrubberShips(ships[1..]);
      assert forall i :: 1 <= i < |ships| ==> ships[i] == ships[1..][i - 1];
      (if ships[0].vessel.isScrubber then 1 else 0) + rest
  }

  /** `NumNonScrubberShips`: none exactly when every ship has a scrubber,
      all exactly when none has. */
  function NumNonScrubberShips(ships: seq<Ship>): (n: nat)
    ensures n <= |ships|
    ensures n == 0 <==> forall i :: 0 <= i < |ships| ==> ships[i].vessel.isScrubber
    ensures n == |ships| <==> forall i :: 0 <= i < |ships| ==> !ships[i].vessel.isScrubber
  {
    if |ships| == 0 then 0
    else
      var rest := NumNonScrubberShips(ships[1..]);
      assert forall i :: 1 <= i < |ships| ==> ships[i] == ships[1..][i - 1];
      (if ships[0].vessel.isScrubber then 0 else 1) + rest
  }

  /** Every ship is counted as exactly one of scrubber or non-scrubber. */
  lemma {:induction false} ShipCountsPartition(ships: seq<Ship>)
    ensures NumScrubberShips(ships) + NumNonScrubberShips(ships) == |ships|
  {
    if |ships| > 0 {
      ShipCountsPartition(ships[1..]);
    }
  }

  /** `NumScrubberTrails`: every live trail; with the standard water per
      trail, the reported water is that amount times this count. */
  function NumScrubberTrails(trails: seq<Trail>): (n: nat)
    ensures (forall k :: 0 <= k < |trails| ==> trails[k].waterUnits == TrailWater) ==>
              TotalScrubberWater(trails) == TrailWater * n
  {
    WaterIsTenPerTrail(trails);
    |trails|
  }

  /** `TotalScrubberWater`: every trail's water is part of the total, which
      is zero exactly when no trail holds any. */
  function TotalScrubberWater(trails: seq<Trail>): (w: nat)
    ensures forall k :: 0 <= k < |trails| ==> trails[k].waterUnits <= w
    ensures w == 0 <==> forall k :: 0 <= k < |trails| ==> trails[k].waterUnits == 0
  {
    if |trails| == 0 then 0
    else
      var rest := TotalScrubberWater(trails[1..]);
      assert forall k :: 1 <= k < |trails| ==> trails[k] == trails[1..][k - 1];
      trails[0].waterUnits + rest
  }

  /** Every trail carries the same water, so the reported water is that
      amount times the number of trails. */
  lemma {:induction false} WaterIsTenPerTrail(trails: seq<Trail>)
    ensures (forall k :: 0 <= k < |trails| ==> trails[k].waterUnits == TrailWater) ==>
              TotalScrubberWater(trails) == TrailWater * |trails|
  {
    if |trails| > 0 {
      WaterIsTenPerTrail(trails[1..]);
      assert forall k :: 1 <= k < |trails| ==> trails[k] == trails[1..][k - 1];
    }
  }

  /** `TotalDockedShips`: every port's docked list is part of the total,
      which is zero exactly when no port has a ship docked. */
  function TotalDockedShips(ports: seq<Port>): (t: nat)
    ensures forall i :: 0 <= i < |ports| ==> |ports[i].docked| <= t
    ensures t == 0 <==> forall i :: 0 <= i < |ports| ==> ports[i].docked == []
  {
    if |ports| == 0 then 0
    else
      var rest := TotalDockedShips(ports[1..]);
      assert forall i :: 1 <= i < |ports| ==> ports[i] == ports[1..][i - 1];
      |ports[0].docked| + rest
  }

  function TotalOccupancy(ports: seq<Port>): int
  {
    if |ports| == 0 then 0 else ports[0].current + TotalOccupancy(ports[1..])
  }

  /** With consistent ports the docked-list total equals the berth counters'
      total, and never exceeds the total capacity. */
  lemma {:induction false} DockedTotalMatchesCounters(ports: seq<Port>)
    requires forall i :: 0 <= i < |ports| ==> Consistent(ports[i])
    ensures TotalDockedShips(ports) == TotalOccupancy(ports)
    ensures TotalDockedShips(ports) <= TotalCapacity(ports)
  {
    if |ports| > 0 {
      DockedTotalMatchesCounters(ports[1..]);
    }
  }

  function TotalCapacity(ports: seq<Port>): int
  {
    if |ports| == 0 then 0 else ports[0].capacity + TotalCapacity(ports[1..])
  }

  /** A count divided by the number of its items, or by one when there are
      none. */
  function GuardedAverage(total: real, n: nat): (avg: real)
    ensures n == 0 ==> avg == total
    ensures n > 0 ==> avg * (n as real) == total
    ensures total >= 0.0 ==> avg >= 0.0
  {
    var d := Max(1, n) as real;
    var avg := total / d;
    assert avg * d == total;
    NonNegativeQuotient(avg, d);
    avg
  }

  /** A product with a positive factor has the sign of the other factor. */
  lemma NonNegativeQuotient(q: real, d: real)
    requires d > 0.0
    ensures q * d >= 0.0 ==> q >= 0.0
  {
  }

  /** `AvgPortPopularity`: the docked ships per port, zero without ports. */
  function AvgPortPopularity(ports: seq<Port>): (avg: real)
    ensures |ports| == 0 ==> avg == 0.0
    ensures |ports| > 0 ==> avg == (TotalDockedShips(ports) as real) / (|ports| as real)
    ensures avg >= 0.0
  {
    var total := TotalDockedShips(ports) as real;
    var avg := GuardedAverage(total, |ports|);
    assert |ports| == 0 ==> total == 0.0;
    avg
  }

  function NumPortsWith(ports: seq<Port>, policy: string): (n: nat)
    ensures n <= |ports|
  {
    if |ports| == 0 then 0
    else (if ports[0].policy == policy then 1 else 0) + NumPortsWith(ports[1..], policy)
  }

  /** The four policy counters never add up to more than the ports; they add
      up to exactly the ports when every policy is one of the four. */
  lemma {:induction false} PolicyCountsCoverPorts(ports: seq<Port>)
    ensures NumPortsWith(ports, Ban) + NumPortsWith(ports, Tax) + NumPortsWith(ports, Subsidy)
            + NumPortsWith(ports, Allow) <= |ports|
    ensures (forall i :: 0 <= i < |ports| ==> ports[i].policy in [Ban, Tax, Subsidy, Allow]) ==>
            NumPortsWith(ports, Ban) + NumPortsWith(ports, Tax) + NumPortsWith(ports, Subsidy)
            + NumPortsWith(ports, Allow) == |ports|
  {
    if |ports| > 0 {
      PolicyCountsCoverPorts(ports[1..]);
      assert forall i :: 0 <= i < |ports| - 1 ==> ports[1..][i] == ports[i + 1];
    }
  }

  /** `TotalPortRevenue`: with no negative revenue, every port's revenue
      is part of the total. */
  function TotalPortRevenue(ports: seq<Port>): (t: real)
    ensures |ports| == 0 ==> t == 0.0
    ensures (forall i :: 0 <= i < |ports| ==> ports[i].revenue >= 0.0) ==>
              t >= 0.0 && forall i :: 0 <= i < |ports| ==> ports[i].revenue <= t
  {
    if |ports| == 0 then 0.0
    else
      var rest := TotalPortRevenue(ports[1..]);
      assert forall i :: 1 <= i < |ports| ==> ports[i] == ports[1..][i - 1];
      ports[0].revenue + rest
  }

  /** `AvgPortRevenue`: the revenue per port, zero without ports. */
  function AvgPortRevenue(ports: seq<Port>): (avg: real)
    ensures |ports| == 0 ==> avg == 0.0
    ensures |ports| > 0 ==> avg == TotalPortRevenue(ports) / (|ports| as real)
  {
    var total := TotalPortRevenue(ports);
    var avg := GuardedAverage(total, |ports|);
    assert |ports| == 0 ==> total == 0.0;
    avg
  }

  /** Share of scrubber ships among the ships, zero without ships. */
  function ScrubberRatio(ships: seq<Ship>): (ratio: real)
    ensures 0.0 <= ratio <= 1.0
    ensures |ships| == 0 ==> ratio == 0.0
    ensures ratio == 1.0 <==> |ships| > 0 && NumScrubberShips(ships) == |ships|
  {
    var n := NumScrubberShips(ships);
    var total := Max(1, |ships|);
    ShipCountsPartition(ships);
    RatioBounds(n, total);
    (n as real) / (total as real)
  }

  lemma RatioBounds(n: nat, total: nat)
    requires total >= 1 && n <= total
    ensures 0.0 <= (n as real) / (total as real) <= 1.0
    ensures (n as real) / (total as real) == 1.0 <==> n == total
  {
    var q := (n as real) / (total as real);
    assert q * (total as real) == n as real;
  }

  /** `get_average_penalty`: the mean penalty, zero when none was recorded. */
  function AveragePenalty(penaltySum: real, penaltyCount: int): (avg: real)
    ensures penaltyCount <= 0 ==> avg == 0.0
    ensures penaltyCount > 0 ==> avg * (penaltyCount as real) == penaltySum
  {
    if penaltyCount > 0 then penaltySum / (penaltyCount as real) else 0.0
  }
}
