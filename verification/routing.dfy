/** Route construction for a newly spawned ship (`_determine_ship_route` in
    mesa/model.py): every port gets a weight from its popularity, the ship's
    type and the port's policy toward the ship, and up to three distinct
    ports are drawn by weighted sampling without replacement.

    Each round's uniform draw `u` in [0, 1) is an explicit input.  The
    sampler sees it as the map `Scaled(u)` from the round's remaining total
    to the threshold `u * total`; the round takes the first entry whose
    running total reaches that threshold.
 */
module Routing {
  import opened Base
  import opened Text
  import opened Harbour

  /** Number of sampling rounds, hence the longest possible route. */
  const RouteLength: nat := 3

  /** Base popularity by lower-cased port name. */
  function Popularity(name: string): (w: nat)
    ensures 1 <= w <= 8
  {
    var n := Lower(name);
    if n == "rotterdam" then 8
    else if n == "antwerp" then 5
    else if n == "amsterdam" || n == "hamburg" then 2
    else 1
  }

  /** Popularity does not depend on the case of the name. */
  lemma PopularityIgnoresCase(name: string)
    ensures Popularity(Lower(name)) == Popularity(name)
  {
    LowerIdempotent(name);
  }

  /** How strongly a ship type is drawn to ports at all; types missing from
      the table count 1.0. */
  function TypeFactor(shipType: string): (f: real)
    ensures 0.5 <= f <= 1.2
  {
    match shipType
    case "cargo" => 1.0
    case "tanker" => 1.0
    case "fishing" => 0.8
    case "other" => 0.8
    case "tug" => 0.5
    case "passenger" => 1.2
    case "hsc" => 1.2
    case "dredging" => 0.6
    case "search" => 0.7
    case _ => 1.0
  }

  /** The factor a port's policy applies to a ship's weight: a ban
      excludes scrubber ships, a tax halves their weight, a subsidy raises
      the weight of clean ships by half. */
  function PolicyFactor(policy: string, isScrubber: bool): (m: real)
    ensures 0.0 <= m <= 1.5
    ensures m == 0.0 <==> policy == Ban && isScrubber
  {
    if policy == Ban && isScrubber then 0.0
    else if policy == Tax && isScrubber then 0.5
    else if policy == Subsidy && !isScrubber then 1.5
    else 1.0
  }

  /** What draws a ship of this type to a port of this name before any
      policy applies: popularity times type factor. */
  function Attraction(name: string, shipType: string): (a: real)
    ensures a >= 0.5
  {
    var b := Popularity(name) as real;
    var f := TypeFactor(shipType);
    assert b * f >= 1.0 * f;
    b * f
  }

  /** The weight of a port for a ship: popularity, adjusted by the port's
      policy toward the ship, times the type factor.  On exact reals,
      adjusting the popularity first and scaling the product afterwards
      give the same weight. */
  function RouteWeight(p: Port, v: Vessel): (w: real)
    ensures w >= 0.0
    ensures w == 0.0 <==> p.policy == Ban && v.isScrubber
  {
    var a := Attraction(p.name, v.shipType);
    if p.policy == Ban && v.isScrubber then 0.0
    else if p.policy == Tax && v.isScrubber then 0.5 * a
    else if p.policy == Subsidy && !v.isScrubber then 1.5 * a
    else a
  }

  /** Against the same port under "allow", a tax halves a scrubber ship's
      weight. */
  lemma TaxHalvesScrubberWeight(p: Port, v: Vessel)
    requires p.policy == Tax && v.isScrubber
    ensures RouteWeight(p, v) == 0.5 * RouteWeight(p.(policy := Allow), v)
  {
    WeightUnderAllow(p, v);
  }

  /** Against the same port under "allow", a subsidy raises a clean ship's
      weight by half. */
  lemma SubsidyRaisesCleanWeight(p: Port, v: Vessel)
    requires p.policy == Subsidy && !v.isScrubber
    ensures RouteWeight(p, v) == 1.5 * RouteWeight(p.(policy := Allow), v)
  {
    WeightUnderAllow(p, v);
  }

  /** A policy aimed at the other kind of ship leaves the weight as under
      "allow". */
  lemma PolicyIgnoresOtherKind(p: Port, v: Vessel)
    requires p.policy == Tax || p.policy == Subsidy || p.policy == Ban
    requires (p.policy == Subsidy) == v.isScrubber
    ensures RouteWeight(p, v) == RouteWeight(p.(policy := Allow), v)
  {
    WeightUnderAllow(p, v);
  }

  lemma WeightUnderAllow(p: Port, v: Vessel)
    ensures RouteWeight(p.(policy := Allow), v) == Attraction(p.name, v.shipType)
  {
    assert PolicyFactor(Allow, v.isScrubber) == 1.0;
  }

  lemma WeightFactors(p: Port, v: Vessel)
    ensures RouteWeight(p, v) == PolicyFactor(p.policy, v.isScrubber) * Attraction(p.name, v.shipType)
  {
    FactorTimes(p.policy, v.isScrubber, Attraction(p.name, v.shipType), RouteWeight(p, v));
  }

  /** The policy branches of the weight, on an arbitrary attraction `a`. */
  lemma FactorTimes(policy: string, isScrubber: bool, a: real, w: real)
    requires w == if policy == Ban && isScrubber then 0.0
                 else if policy == Tax && isScrubber then 0.5 * a
                 else if policy == Subsidy && !isScrubber then 1.5 * a
                 else a
    ensures w == PolicyFactor(policy, isScrubber) * a
  {
  }

  /** Sum of a weight list (accumulated front to back). */
  function Sum(ws: seq<real>): real
  {
    if |ws| == 0 then 0.0 else Sum(ws[..|ws| - 1]) + ws[|ws| - 1]
  }

  /** The running total once entry `j` has been added. */
  function Reach(ws: seq<real>, j: nat): real
    requires j < |ws|
  {
    Sum(ws[..j + 1])
  }

  lemma SumExtend(ws: seq<real>, i: nat)
    requires i < |ws|
    ensures Sum(ws[..i + 1]) == Sum(ws[..i]) + ws[i]
  {
    assert ws[..i + 1][..i] == ws[..i];
  }

  /** The scan of one draw: walking the list from index `idx` with running
      total `upto` (the sum of the entries before `idx`), the first entry at
      which the running total reaches `r`. */
  function SelectFrom(ws: seq<real>, r: real, idx: nat, upto: real): (k: Option<nat>)
    requires idx <= |ws| && upto == Sum(ws[..idx])
    requires idx > 0 ==> upto < r
    ensures k.Some? ==> idx <= k.value < |ws| && Reach(ws, k.value) >= r
    ensures k.Some? ==> forall j :: idx <= j < k.value ==> Reach(ws, j) < r
    ensures k.None? ==> forall j :: idx <= j < |ws| ==> Reach(ws, j) < r
    ensures k.None? ==> |ws| == 0 || Sum(ws) < r
    decreases |ws| - idx
  {
    if idx == |ws| then
      assert ws[..idx] == ws;
      None
    else
      SumExtend(ws, idx);
      var reached := upto + ws[idx];
      if reached >= r then Some(idx) else SelectFrom(ws, r, idx + 1, reached)
  }

  /** The entry a draw selects: the first whose running total reaches `r`. */
  function Select(ws: seq<real>, r: real): (k: Option<nat>)
    ensures k.Some? ==> k.value < |ws| && Reach(ws, k.value) >= r
    ensures k.Some? ==> forall j :: 0 <= j < k.value ==> Reach(ws, j) < r
    ensures k.None? ==> forall j :: 0 <= j < |ws| ==> Reach(ws, j) < r
    ensures 0.0 <= r < Sum(ws) ==> k.Some?
  {
    SelectFrom(ws, r, 0, 0.0)
  }

  /** A positive draw never selects a zero-weight entry. */
  lemma {:induction false} SelectSkipsZeroWeight(ws: seq<real>, r: real)
    requires r > 0.0 && Select(ws, r).Some?
    ensures ws[Select(ws, r).value] != 0.0
  {
    var k := Select(ws, r).value;
    SumExtend(ws, k);
    if k > 0 {
      assert Reach(ws, k - 1) < r;
    } else {
      assert ws[..0] == [];
    }
  }

  /** A zero draw selects the first entry when it is not negative, even if
      its weight is zero. */
  lemma {:induction false} ZeroDrawSelectsFirst(ws: seq<real>)
    requires |ws| > 0 && ws[0] >= 0.0
    ensures Select(ws, 0.0) == Some(0)
  {
    SumExtend(ws, 0);
    assert ws[..0] == [];
  }

  /** A round's draw, as the map from the remaining total to the threshold
      that the running total has to reach. */
  type Threshold = real -> real

  /** The threshold of the uniform draw `u`: `u` times the remaining total. */
  function Scaled(u: real): Threshold
  {
    t => u * t
  }

  /** Draws that `random()` can return lie in [0, 1). */
  predicate Unit(u: real)
  {
    0.0 <= u < 1.0
  }

  /** A threshold below every positive total, as a unit draw gives. */
  ghost predicate Proper(d: Threshold)
  {
    forall t: real :: t > 0.0 ==> 0.0 <= d(t) < t
  }

  /** A threshold above zero for every positive total, as a draw that is
      not exactly zero gives. */
  ghost predicate Nonzero(d: Threshold)
  {
    forall t: real :: t > 0.0 ==> d(t) > 0.0
  }

  lemma ScaledUnitIsProper(u: real)
    requires Unit(u)
    ensures Proper(Scaled(u))
  {
    forall t: real | t > 0.0
      ensures 0.0 <= Scaled(u)(t) < t
    {
      ProductBounds(u, t);
      var v := Scaled(u)(t);
      assert v == u * t;
      assert 0.0 <= v < t;
    }
  }

  /** A factor in [0, 1) scales a positive amount to at least zero and
      below the amount. */
  lemma ProductBounds(u: real, t: real)
    requires 0.0 <= u < 1.0 && t > 0.0
    ensures 0.0 <= u * t < t
  {
    assert t - u * t == (1.0 - u) * t;
  }

  lemma ScaledPositiveIsNonzero(u: real)
    requires u > 0.0
    ensures Nonzero(Scaled(u))
  {
    forall t: real | t > 0.0
      ensures Scaled(u)(t) > 0.0
    {
      assert Scaled(u)(t) == u * t;
    }
  }

  /** Weighted sampling without replacement, one round per draw: a round
      whose remaining total is not positive ends the sampling; otherwise the
      entry its threshold selects is taken out of both lists and appended to
      the result (a round that selects nothing is skipped). */
  function Sample(items: seq<nat>, ws: seq<real>, draws: seq<Threshold>): (chosen: seq<nat>)
    requires |items| == |ws|
    ensures |chosen| <= |draws| && |chosen| <= |items|
    ensures Sum(ws) <= 0.0 ==> chosen == []
    decreases |draws|
  {
    if |draws| == 0 then []
    else
      var total := Sum(ws);
      if total <= 0.0 then []
      else match Select(ws, draws[0](total))
        case None => Sample(items, ws, draws[1..])
        case Some(i) =>
          var rest := Sample(RemoveAt(items, i), RemoveAt(ws, i), draws[1..]);
          [items[i]] + rest
  }

  predicate Distinct(s: seq<nat>)
  {
    forall i, j :: 0 <= i < j < |s| ==> s[i] != s[j]
  }

  predicate Positive(ws: seq<real>)
  {
    forall k :: 0 <= k < |ws| ==> ws[k] > 0.0
  }

  lemma {:induction false} DistinctOccursOnce(t: seq<nat>, x: nat)
    requires Distinct(t)
    ensures multiset(t)[x] <= 1
    decreases |t|
  {
    if |t| > 0 {
      assert t == [t[0]] + t[1..];
      assert Distinct(t[1..]);
      DistinctOccursOnce(t[1..], x);
      if t[0] == x {
        assert x !in t[1..];
      }
    }
  }

  lemma DistinctFromMultiset(s: seq<nat>, t: seq<nat>)
    requires Distinct(t) && multiset(s) <= multiset(t)
    ensures Distinct(s)
  {
    forall i, j | 0 <= i < j < |s|
      ensures s[i] != s[j]
    {
      DistinctOccursOnce(t, s[i]);
      PairCount(s, i, j);
    }
  }

  /** Two equal entries make their value occur at least twice. */
  lemma PairCount(s: seq<nat>, i: nat, j: nat)
    requires i < j < |s|
    ensures s[i] == s[j] ==> multiset(s)[s[i]] >= 2
  {
    assert s == s[..j] + [s[j]] + s[j + 1..];
    assert s[..j][i] == s[i];
    assert s[i] in multiset(s[..j]);
  }

  /** A round that selects entry `i` puts it first and samples the rest from
      what remains. */
  lemma SampleTakesSelected(items: seq<nat>, ws: seq<real>, draws: seq<Threshold>, i: nat)
    requires |items| == |ws| && |draws| > 0 && Sum(ws) > 0.0
    requires Select(ws, draws[0](Sum(ws))) == Some(i)
    ensures i < |items|
    ensures Sample(items, ws, draws) == [items[i]] + Sample(RemoveAt(items, i), RemoveAt(ws, i), draws[1..])
  {
  }

  /** Sampling is without replacement: each entry is chosen at most as often
      as it occurs among the candidates. */
  lemma {:induction false} SampleDrawsFromItems(items: seq<nat>, ws: seq<real>, draws: seq<Threshold>)
    requires |items| == |ws|
    ensures multiset(Sample(items, ws, draws)) <= multiset(items)
    decreases |draws|
  {
    if |draws| > 0 && Sum(ws) > 0.0 {
      match Select(ws, draws[0](Sum(ws)))
      case None =>
        SampleDrawsFromItems(items, ws, draws[1..]);
      case Some(i) =>
        SampleDrawsFromItems(RemoveAt(items, i), RemoveAt(ws, i), draws[1..]);
        RemoveAtMultiset(items, i);
        SampleTakesSelected(items, ws, draws, i);
    }
  }

  /** Sampling never repeats an entry: from distinct candidates it yields
      distinct choices. */
  lemma SampleDistinct(items: seq<nat>, ws: seq<real>, draws: seq<Threshold>)
    requires |items| == |ws| && Distinct(items)
    ensures Distinct(Sample(items, ws, draws))
  {
    SampleDrawsFromItems(items, ws, draws);
    DistinctFromMultiset(Sample(items, ws, draws), items);
  }

  lemma {:induction false} PositiveSum(ws: seq<real>)
    requires Positive(ws) && |ws| > 0
    ensures Sum(ws) > 0.0
    decreases |ws|
  {
    var init := ws[..|ws| - 1];
    if |init| > 0 {
      assert Positive(init);
      PositiveSum(init);
    }
  }

  /** When every remaining weight is positive, every round with a proper
      draw selects something, so the result is as long as the rounds allow. */
  lemma {:induction false} SampleFillsAllRounds(items: seq<nat>, ws: seq<real>, draws: seq<Threshold>)
    requires |items| == |ws| && Positive(ws) && |draws| <= |items|
    requires forall d :: 0 <= d < |draws| ==> Proper(draws[d])
    ensures |Sample(items, ws, draws)| == |draws|
    decreases |draws|
  {
    if |draws| > 0 {
      PositiveSum(ws);
      var r := draws[0](Sum(ws));
      assert Proper(draws[0]);
      assert 0.0 <= r < Sum(ws);
      var i := Select(ws, r).value;
      var items', ws' := RemoveAt(items, i), RemoveAt(ws, i);
      assert Positive(ws');
      SampleFillsAllRounds(items', ws', draws[1..]);
      SampleTakesSelected(items, ws, draws, i);
    }
  }

  /** A positive threshold never selects a zero-weight entry: with distinct
      candidates, no candidate whose weight is zero appears in the result. */
  lemma {:induction false} SampleAvoidsZeroWeights(items: seq<nat>, ws: seq<real>, draws: seq<Threshold>, x: nat)
    requires |items| == |ws| && Distinct(items)
    requires forall d :: 0 <= d < |draws| ==> Nonzero(draws[d])
    requires forall k :: 0 <= k < |items| && items[k] == x ==> ws[k] == 0.0
    ensures x !in Sample(items, ws, draws)
    decreases |draws|
  {
    if |draws| > 0 && Sum(ws) > 0.0 {
      var r := draws[0](Sum(ws));
      assert Nonzero(draws[0]);
      match Select(ws, r)
      case None =>
        SampleAvoidsZeroWeights(items, ws, draws[1..], x);
      case Some(i) =>
        SelectSkipsZeroWeight(ws, r);
        var items', ws' := RemoveAt(items, i), RemoveAt(ws, i);
        assert items[i] != x;
        assert Distinct(items');
        SampleAvoidsZeroWeights(items', ws', draws[1..], x);
        SampleTakesSelected(items, ws, draws, i);
    }
  }

  /** The candidate port indices 0 .. n-1. */
  function Indices(n: nat): (r: seq<nat>)
    ensures |r| == n
    ensures forall i :: 0 <= i < n ==> r[i] == i
  {
    seq(n, i => i)
  }

  /** The weight of every port for this ship, in registry order. */
  function Weights(ports: seq<Port>, v: Vessel): (ws: seq<real>)
    ensures |ws| == |ports|
    ensures forall i :: 0 <= i < |ports| ==> ws[i] == RouteWeight(ports[i], v)
  {
    seq(|ports|, i requires 0 <= i < |ports| => RouteWeight(ports[i], v))
  }

  /** The thresholds of a sequence of uniform draws. */
  function Thresholds(us: seq<real>): (ds: seq<Threshold>)
    ensures |ds| == |us|
    ensures forall i :: 0 <= i < |us| ==> ds[i] == Scaled(us[i])
  {
    seq(|us|, i requires 0 <= i < |us| => Scaled(us[i]))
  }

  /** `_determine_ship_route`: at most three distinct ports of the registry,
      by weighted sampling without replacement, one uniform draw per round. */
  function DetermineRoute(ports: seq<Port>, v: Vessel, us: seq<real>): (route: seq<nat>)
    requires |us| == RouteLength
    ensures |route| <= RouteLength && |route| <= |ports|
    ensures forall j :: 0 <= j < |route| ==> route[j] < |ports|
    ensures Distinct(route)
  {
    var route := Sample(Indices(|ports|), Weights(ports, v), Thresholds(us));
    SampleDistinct(Indices(|ports|), Weights(ports, v), Thresholds(us));
    SampleDrawsFromItems(Indices(|ports|), Weights(ports, v), Thresholds(us));
    assert forall j :: 0 <= j < |route| ==> route[j] in multiset(route);
    route
  }

  /** A scrubber ship's route never includes a port that bans scrubbers,
      provided no draw is exactly zero. */
  lemma RouteAvoidsBanPorts(ports: seq<Port>, v: Vessel, us: seq<real>, j: nat)
    requires |us| == RouteLength && v.isScrubber
    requires forall d :: 0 <= d < |us| ==> us[d] > 0.0
    requires j < |DetermineRoute(ports, v, us)|
    ensures ports[DetermineRoute(ports, v, us)[j]].policy != Ban
  {
    var route := DetermineRoute(ports, v, us);
    var x := route[j];
    if ports[x].policy == Ban {
      var ds := Thresholds(us);
      forall d | 0 <= d < |ds|
        ensures Nonzero(ds[d])
      {
        ScaledPositiveIsNonzero(us[d]);
      }
      SampleAvoidsZeroWeights(Indices(|ports|), Weights(ports, v), ds, x);
    }
  }

  /** A ship for which at least three ports have positive weight (no ban
      port in the registry, or a clean ship) gets a full route of three. */
  lemma FullRouteWhenNothingBanned(ports: seq<Port>, v: Vessel, us: seq<real>)
    requires |us| == RouteLength && |ports| >= RouteLength
    requires forall d :: 0 <= d < |us| ==> Unit(us[d])
    requires forall i :: 0 <= i < |ports| ==> !(ports[i].policy == Ban && v.isScrubber)
    ensures |DetermineRoute(ports, v, us)| == RouteLength
  {
    var ds := Thresholds(us);
    forall d | 0 <= d < |ds|
      ensures Proper(ds[d])
    {
      ScaledUnitIsProper(us[d]);
    }
    SampleFillsAllRounds(Indices(|ports|), Weights(ports, v), ds);
  }

  /** The edge case of the `>=` comparison: weights [0, 5, 5] and a draw of
      exactly zero select the zero-weight first port. */
  lemma ZeroDrawCanPickZeroWeightPort()
    ensures Sample([0, 1, 2], [0.0, 5.0, 5.0], [Scaled(0.0)]) == [0]
  {
    var ws := [0.0, 5.0, 5.0];
    assert Sum(ws) == 10.0 by {
      assert ws[..2] == [0.0, 5.0];
      assert [0.0, 5.0][..1] == [0.0];
      assert [0.0][..0] == [];
    }
    assert Scaled(0.0)(10.0) == 0.0;
    ZeroDrawSelectsFirst(ws);
    SampleTakesSelected([0, 1, 2], ws, [Scaled(0.0)], 0);
  }
}
