/** The bounded (non-toroidal) multi-grid the simulation lives on.

    Cells are integer pairs.  The terrain is an abstract, immutable
    water/land classification: the polygon-covering test that computes it is
    not part of this model, so every operation that consults terrain takes
    it as a parameter `isWater`.
 */
module Grid {
  import opened Base

  datatype Pos = Pos(x: int, y: int)

  /** The cached per-cell terrain lookup: true for water, false for land. */
  type Terrain = Pos -> bool

  function Abs(v: int): (a: nat)
    ensures a == v || a == -v
  {
    if v < 0 then -v else v
  }

  /** The direction of `v`: the unique s in {-1, 0, 1} with s * v == |v|
      and s == 0 exactly when v == 0. */
  function Sign(v: int): (s: int)
    ensures s == -1 || s == 0 || s == 1
    ensures s * v == Abs(v)
    ensures s == 0 <==> v == 0
  {
    if v > 0 then 1 else if v < 0 then -1 else 0
  }

  /** King-move distance: the number of one-cell moves (diagonals allowed)
      that separate two cells. */
  function Chebyshev(a: Pos, b: Pos): nat
  {
    Max(Abs(a.x - b.x), Abs(a.y - b.y))
  }

  /** Within one king move means at most one unit apart on each axis; no
      king move at all means the same cell. */
  lemma ChebyshevWithinOne(a: Pos, b: Pos)
    ensures Chebyshev(a, b) <= 1 <==> -1 <= a.x - b.x <= 1 && -1 <= a.y - b.y <= 1
    ensures Chebyshev(a, b) == 0 <==> a == b
  {
  }

  predicate InBounds(p: Pos, width: int, height: int)
  {
    0 <= p.x < width && 0 <= p.y < height
  }

  /** The ideal one-cell move from `p` toward `t`: one unit along each axis on
      which the two differ.  It is a king move, and unless the ship is already
      at its target it shortens the king-move distance by exactly one. */
  function StepToward(p: Pos, t: Pos): (r: Pos)
    ensures Chebyshev(p, r) <= 1
    ensures p == t ==> r == p
    ensures p != t ==> Chebyshev(r, t) + 1 == Chebyshev(p, t)
  {
    var sx := Sign(t.x - p.x);
    var sy := Sign(t.y - p.y);
    assert Abs(t.x - (p.x + sx)) == if t.x == p.x then 0 else Abs(t.x - p.x) - 1;
    assert Abs(t.y - (p.y + sy)) == if t.y == p.y then 0 else Abs(t.y - p.y) - 1;
    Pos(p.x + sx, p.y + sy)
  }

  /** One candidate cell of the Moore neighbourhood, kept when it lies on the
      grid (the grid does not wrap around). */
  function Candidate(p: Pos, dx: int, dy: int, width: int, height: int): seq<Pos>
  {
    var c := Pos(p.x + dx, p.y + dy);
    if InBounds(c, width, height) then [c] else []
  }

  /** The Moore neighbourhood of `p` clipped to the grid, with or without the
      centre cell.  The order of the cells is a fixed enumeration; every
      consumer chooses among them with an explicit random index. */
  function Neighbourhood(p: Pos, width: int, height: int, includeCentre: bool): (cells: seq<Pos>)
    ensures forall c :: c in cells <==>
      InBounds(c, width, height) && Chebyshev(p, c) <= 1 && (includeCentre || c != p)
  {
    MooreMembers(p, width, height, includeCentre);
    MooreCells(p, width, height, includeCentre)
  }

  /** The Moore neighbourhood's cells in their enumeration order. */
  function MooreCells(p: Pos, width: int, height: int, includeCentre: bool): seq<Pos>
  {
    Candidate(p, -1, -1, width, height) + Candidate(p, -1, 0, width, height)
    + Candidate(p, -1, 1, width, height) + Candidate(p, 0, -1, width, height)
    + (if includeCentre then Candidate(p, 0, 0, width, height) else [])
    + Candidate(p, 0, 1, width, height) + Candidate(p, 1, -1, width, height)
    + Candidate(p, 1, 0, width, height) + Candidate(p, 1, 1, width, height)
  }

  lemma MooreMembers(p: Pos, width: int, height: int, includeCentre: bool)
    ensures forall c :: c in MooreCells(p, width, height, includeCentre) <==>
      InBounds(c, width, height) && Chebyshev(p, c) <= 1 && (includeCentre || c != p)
  {
    forall c | c in MooreCells(p, width, height, includeCentre)
      ensures InBounds(c, width, height) && Chebyshev(p, c) <= 1 && (includeCentre || c != p)
    {
      MooreSound(p, width, height, includeCentre, c);
    }
    forall c | InBounds(c, width, height) && Chebyshev(p, c) <= 1 && (includeCentre || c != p)
      ensures c in MooreCells(p, width, height, includeCentre)
    {
      MooreComplete(p, width, height, includeCentre, c);
    }
  }

  /** A cell of a candidate list is the candidate cell, on the grid. */
  lemma InCandidate(p: Pos, dx: int, dy: int, width: int, height: int, c: Pos)
    ensures c in Candidate(p, dx, dy, width, height) <==> c == Pos(p.x + dx, p.y + dy) && InBounds(c, width, height)
  {
  }

  lemma MooreSound(p: Pos, width: int, height: int, includeCentre: bool, c: Pos)
    requires c in MooreCells(p, width, height, includeCentre)
    ensures InBounds(c, width, height) && Chebyshev(p, c) <= 1 && (includeCentre || c != p)
  {
    ChebyshevWithinOne(p, c);
    InCandidate(p, -1, -1, width, height, c);
    InCandidate(p, -1, 0, width, height, c);
    InCandidate(p, -1, 1, width, height, c);
    InCandidate(p, 0, -1, width, height, c);
    InCandidate(p, 0, 0, width, height, c);
    InCandidate(p, 0, 1, width, height, c);
    InCandidate(p, 1, -1, width, height, c);
    InCandidate(p, 1, 0, width, height, c);
    InCandidate(p, 1, 1, width, height, c);
  }

  lemma MooreComplete(p: Pos, width: int, height: int, includeCentre: bool, c: Pos)
    requires InBounds(c, width, height) && Chebyshev(p, c) <= 1 && (includeCentre || c != p)
    ensures c in MooreCells(p, width, height, includeCentre)
  {
    ChebyshevWithinOne(p, c);
    var dx, dy := c.x - p.x, c.y - p.y;
    InCandidate(p, dx, dy, width, height, c);
    if dx == -1 {
      if dy == -1 {
        assert c in Candidate(p, -1, -1, width, height);
      } else if dy == 0 {
        assert c in Candidate(p, -1, 0, width, height);
      } else {
        assert c in Candidate(p, -1, 1, width, height);
      }
    } else if dx == 0 {
      if dy == -1 {
        assert c in Candidate(p, 0, -1, width, height);
      } else if dy == 0 {
        assert c in Candidate(p, 0, 0, width, height);
      } else {
        assert c in Candidate(p, 0, 1, width, height);
      }
    } else {
      if dy == -1 {
        assert c in Candidate(p, 1, -1, width, height);
      } else if dy == 0 {
        assert c in Candidate(p, 1, 0, width, height);
      } else {
        assert c in Candidate(p, 1, 1, width, height);
      }
    }
  }

  /** The water cells among `cells`, in their original order. */
  function WaterCells(cells: seq<Pos>, isWater: Terrain): (water: seq<Pos>)
    ensures |water| <= |cells|
    ensures forall c :: c in water <==> c in cells && isWater(c)
  {
    if |cells| == 0 then []
    else (if isWater(cells[0]) then [cells[0]] else []) + WaterCells(cells[1..], isWater)
  }

  /** One step of the random water walk: a uniformly chosen water cell of the
      Moore neighbourhood including the centre, chosen by the explicit random
      index `pick`; the ship stays where it is when no such cell exists. */
  function RandomWaterStep(p: Pos, width: int, height: int, isWater: Terrain, pick: nat): (r: Pos)
    ensures r == p || (isWater(r) && InBounds(r, width, height) && Chebyshev(p, r) <= 1)
    ensures (forall c :: InBounds(c, width, height) && Chebyshev(p, c) <= 1 ==> !isWater(c)) ==> r == p
    ensures r != p ==> isWater(r) && InBounds(r, width, height) && Chebyshev(p, r) == 1
    ensures (exists c :: InBounds(c, width, height) && Chebyshev(p, c) <= 1 && isWater(c)) ==>
              isWater(r) && InBounds(r, width, height) && Chebyshev(p, r) <= 1
  {
    var valid := WaterMoves(p, width, height, isWater);
    if |valid| > 0 then valid[pick % |valid|] else p
  }

  /** The cells a ship may move to when it cannot take its ideal step: the
      water cells of its Moore neighbourhood, centre included. */
  function WaterMoves(p: Pos, width: int, height: int, isWater: Terrain): (valid: seq<Pos>)
    ensures forall c :: c in valid <==> InBounds(c, width, height) && Chebyshev(p, c) <= 1 && isWater(c)
  {
    WaterCells(Neighbourhood(p, width, height, true), isWater)
  }

  /** Every water cell of the neighbourhood is a possible outcome of the
      random walk: the model's explicit index reaches all of them. */
  lemma RandomWaterStepReachesEveryWaterCell(p: Pos, width: int, height: int, isWater: Terrain, c: Pos)
    requires InBounds(c, width, height) && Chebyshev(p, c) <= 1 && isWater(c)
    ensures exists pick: nat :: RandomWaterStep(p, width, height, isWater, pick) == c
  {
    var valid := WaterMoves(p, width, height, isWater);
    assert c in valid;
    var k := IndexOf(valid, c);
    SmallModulus(k, |valid|);
    assert RandomWaterStep(p, width, height, isWater, k) == c;
  }
}
