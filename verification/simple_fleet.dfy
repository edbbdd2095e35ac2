/** The ship and model classes of src/agents/ship.py and src/model/model.py:
    a ship that pops waypoints off its route, a fixed scrubber discharge,
    and a model that moves every ship once, in the order they were added.
 */
module SimpleFleet {
  import opened Base
  import opened Grid

  datatype SimpleShip = SimpleShip(imoId: int, shipType: string, scrubberUsage: bool,
                                   route: seq<Pos>, position: Pos)

  /** What `run` prints about one ship: where it moved and how much
      scrubber water it discharged. */
  datatype Report = Report(imoId: int, position: Pos, discharge: nat)

  /** The constructor: a missing or empty route becomes the empty route;
      everything else is stored as given. */
  function NewSimpleShip(imoId: int, shipType: string, scrubberUsage: bool,
                         route: Option<seq<Pos>>, position: Pos): (s: SimpleShip)
    ensures route.Some? ==> s.route == route.value
    ensures route.None? ==> s.route == []
    ensures s.imoId == imoId && s.shipType == shipType && s.scrubberUsage == scrubberUsage
    ensures s.position == position
  {
    match route
    case None => SimpleShip(imoId, shipType, scrubberUsage, [], position)
    case Some(waypoints) => SimpleShip(imoId, shipType, scrubberUsage, waypoints, position)
  }

  /** `move` as written: the first waypoint becomes the position and leaves
      the route; with no waypoint left, the completion message reads an
      attribute the class never sets, and the call raises. */
  function MoveAsWritten(s: SimpleShip): (r: Result<SimpleShip>)
    ensures r.Ok? <==> |s.route| > 0
    ensures r.Ok? ==> r.value.position == s.route[0] && r.value.route == s.route[1..]
    ensures r.Ok? ==> |r.value.route| == |s.route| - 1
    ensures r.Ok? ==> r.value.(route := s.route, position := s.position) == s
    ensures r.Err? ==> r.error == AttributeError("unique_id")
  {
    if |s.route| > 0 then Ok(s.(position := s.route[0], route := s.route[1..]))
    else Err(AttributeError("unique_id"))
  }

  /** `move` as evidently intended: a ship whose route is used up reports
      that and stays where it is. */
  function Move(s: SimpleShip): (r: SimpleShip)
    ensures |s.route| > 0 ==> MoveAsWritten(s) == Ok(r)
    ensures |s.route| == 0 ==> r == s
  {
    match MoveAsWritten(s)
    case Ok(t) => t
    case Err(_) => s
  }

  /** The ship after `k` moves. */
  function MoveTimes(s: SimpleShip, k: nat): SimpleShip
    decreases k
  {
    if k == 0 then s else MoveTimes(Move(s), k - 1)
  }

  /** Moving along the route: after `k` moves, at most the route's length,
      the ship stands on the `k`-th waypoint and the rest of the route is
      still ahead of it. */
  lemma {:induction false} MoveAlongRoute(s: SimpleShip, k: nat)
    requires k <= |s.route|
    ensures MoveTimes(s, k).route == s.route[k..]
    ensures MoveTimes(s, k).position == if k == 0 then s.position else s.route[k - 1]
    ensures MoveTimes(s, k).(route := s.route, position := s.position) == s
    decreases k
  {
    if k > 0 {
      MoveAlongRoute(Move(s), k - 1);
      assert Move(s).route[k - 1..] == s.route[k..];
    }
  }

  /** Once the route is used up, further moves leave the ship where it is. */
  lemma {:induction false} MovesEndAtLastWaypoint(s: SimpleShip, k: nat)
    requires k >= |s.route|
    ensures MoveTimes(s, k) == MoveTimes(s, |s.route|)
    decreases k
  {
    if |s.route| > 0 {
      MovesEndAtLastWaypoint(Move(s), k - 1);
    } else if k > 0 {
      MovesEndAtLastWaypoint(Move(s), k - 1);
    }
  }

  /** `discharge_scrubber_water`: ten litres for a ship with a scrubber,
      nothing for one without. */
  function Discharge(s: SimpleShip): (w: nat)
    ensures w == 10 <==> s.scrubberUsage
    ensures w == 0 <==> !s.scrubberUsage
  {
    if s.scrubberUsage then 10 else 0
  }

  /** `add_ship`: the ship is appended; the ships already present keep
      their order and are untouched. */
  function AddShip(ships: seq<SimpleShip>, s: SimpleShip): (r: seq<SimpleShip>)
    ensures |r| == |ships| + 1
    ensures r[..|ships|] == ships && r[|ships|] == s
    ensures forall t :: t in r <==> t in ships || t == s
  {
    ships + [s]
  }

  /** `run` with the intended `move`: every ship moved once, in order, and
      one report per ship. */
  function RunIntended(ships: seq<SimpleShip>): (r: (seq<SimpleShip>, seq<Report>))
    ensures |r.0| == |ships| && |r.1| == |ships|
    ensures forall i :: 0 <= i < |ships| ==> r.0[i] == Move(ships[i])
    ensures forall i :: 0 <= i < |ships| ==>
              r.1[i] == Report(ships[i].imoId, Move(ships[i]).position, Discharge(ships[i]))
  {
    if |ships| == 0 then ([], [])
    else
      var rest := RunIntended(ships[1..]);
      var m := Move(ships[0]);
      ([m] + rest.0, [Report(ships[0].imoId, m.position, Discharge(m))] + rest.1)
  }

  /** Moving each ship once and reporting it, in order, is exactly the
      intended run. */
  lemma RunIntendedExactly(ships: seq<SimpleShip>, moved: seq<SimpleShip>, reports: seq<Report>)
    requires |moved| == |ships| && |reports| == |ships|
    requires forall j :: 0 <= j < |ships| ==> moved[j] == Move(ships[j])
    requires forall j :: 0 <= j < |ships| ==>
               reports[j] == Report(ships[j].imoId, Move(ships[j]).position, Discharge(ships[j]))
    ensures (moved, reports) == RunIntended(ships)
  {
    var r := RunIntended(ships);
    assert moved == r.0;
    assert reports == r.1;
  }

  /** `run` as written.  Each ship is moved and reported in insertion order;
      the first ship whose route is used up raises, which ends the run with
      the ships before it already moved and the rest untouched.  When every
      ship still has a waypoint the run is the intended one. */
  method Run(ships: seq<SimpleShip>) returns (moved: seq<SimpleShip>, reports: seq<Report>, error: Option<PyError>)
    ensures |moved| == |ships|
    ensures error.None? <==> forall i :: 0 <= i < |ships| ==> |ships[i].route| > 0
    ensures error.None? ==> (moved, reports) == RunIntended(ships)
    ensures error.Some? ==> error.value == AttributeError("unique_id")
    ensures error.Some? ==>
              && |reports| < |ships| && ships[|reports|].route == []
              && (forall i :: 0 <= i < |reports| ==> |ships[i].route| > 0)
              && (moved[..|reports|], reports) == RunIntended(ships[..|reports|])
              && moved[|reports|..] == ships[|reports|..]
  {
    moved := ships;
    reports := [];
    var i := 0;
    while i < |ships|
      invariant 0 <= i <= |ships|
      invariant |moved| == |ships| && |reports| == i
      invariant forall j :: 0 <= j < i ==> |ships[j].route| > 0
      invariant forall j :: 0 <= j < i ==> moved[j] == Move(ships[j])
      invariant forall j :: 0 <= j < i ==>
                  reports[j] == Report(ships[j].imoId, Move(ships[j]).position, Discharge(ships[j]))
      invariant moved[i..] == ships[i..]
    {
      assert moved[i] == ships[i] by {
        assert moved[i..][0] == ships[i..][0];
      }
      var step := MoveAsWritten(moved[i]);
      if step.Err? {
        RunIntendedExactly(ships[..i], moved[..i], reports);
        return moved, reports, Some(step.error);
      }
      moved := moved[i := step.value];
      reports := reports + [Report(ships[i].imoId, step.value.position, Discharge(step.value))];
      i := i + 1;
    }
    RunIntendedExactly(ships, moved, reports);
    error := None;
  }

  /** The scrubber water `run` reports in total. */
  function TotalDischarge(reports: seq<Report>): nat
  {
    if |reports| == 0 then 0 else reports[0].discharge + TotalDischarge(reports[1..])
  }

  /** The number of ships with a scrubber. */
  function ScrubberCount(ships: seq<SimpleShip>): nat
  {
    if |ships| == 0 then 0 else (if ships[0].scrubberUsage then 1 else 0) + ScrubberCount(ships[1..])
  }

  /** A run reports ten litres for every scrubber ship and nothing else. */
  lemma {:induction false} RunDischargeTotal(ships: seq<SimpleShip>)
    ensures TotalDischarge(RunIntended(ships).1) == 10 * ScrubberCount(ships)
  {
    if |ships| > 0 {
      RunDischargeTotal(ships[1..]);
      assert RunIntended(ships).1[1..] == RunIntended(ships[1..]).1;
    }
  }

  /** The two ships of the ship and model tests. */
  const WithScrubber := NewSimpleShip(1, "cargo", true, Some([Pos(1, 1), Pos(2, 2)]), Pos(0, 0))
  const WithoutScrubber := NewSimpleShip(2, "cargo", false, Some([Pos(1, 1)]), Pos(0, 0))

  /** The tests' fleet against the code: one run moves both ships to (1, 1)
      and reports 10 and 0 litres; a second run would move the first ship
      to (2, 2) and then raise on the second, whose route is used up, where
      the intended `move` leaves it at (1, 1). */
  lemma FleetTestsAgainstCode()
    ensures AddShip(AddShip([], WithScrubber), WithoutScrubber) == [WithScrubber, WithoutScrubber]
    ensures RunIntended([WithScrubber, WithoutScrubber]).1
         == [Report(1, Pos(1, 1), 10), Report(2, Pos(1, 1), 0)]
    ensures MoveAsWritten(Move(WithScrubber)) == Ok(MoveTimes(WithScrubber, 2))
    ensures MoveTimes(WithScrubber, 2).position == Pos(2, 2)
    ensures MoveAsWritten(Move(WithoutScrubber)) == Err(AttributeError("unique_id"))
    ensures Move(Move(WithoutScrubber)).position == Pos(1, 1)
  {
    MoveAlongRoute(WithScrubber, 2);
    assert MoveTimes(WithScrubber, 2) == Move(Move(WithScrubber));
  }
}
