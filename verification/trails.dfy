/** Scrubber trails (the `ScrubberTrail` agent of mesa/ship.py): a marker
    of discharged wash water left on a cell, carrying a fixed amount of water
    and removed from the world when its lifespan runs out.
 */
module Trails {
  import opened Base
  import opened Grid

  /** Water units carried by every trail. */
  const TrailWater: nat := 10

  /** Lifespan of a trail deposited by a ship. */
  const DefaultLifespan: int := 35

  datatype Trail = Trail(id: nat, cell: Pos, waterUnits: nat, lifespan: int)

  function NewTrail(id: nat, cell: Pos, lifespan: int): (t: Trail)
    ensures t.id == id && t.cell == cell && t.lifespan == lifespan
    ensures t.waterUnits == TrailWater
  {
    Trail(id, cell, TrailWater, lifespan)
  }

  /** One activation of a trail: the lifespan goes down by one, and the trail
      removes itself (`None`) once it is no longer positive. */
  function TrailStep(t: Trail): (next: Option<Trail>)
    ensures next.Some? <==> t.lifespan > 1
    ensures next.Some? ==> next.value == t.(lifespan := t.lifespan - 1)
  {
    var aged := t.(lifespan := t.lifespan - 1);
    if aged.lifespan <= 0 then None else Some(aged)
  }

  /** The trail after `steps` activations, `None` once it has been removed. */
  function Age(t: Trail, steps: nat): Option<Trail>
    decreases steps
  {
    if steps == 0 then Some(t)
    else match TrailStep(t)
      case None => None
      case Some(u) => Age(u, steps - 1)
  }

  /** A trail created with lifespan L >= 1 is still present after each of its
      first L - 1 activations, with L - k steps left, and is removed by the
      L-th; one created with L <= 0 is removed by its first activation.  Its
      water never changes while it is present. */
  lemma {:induction false} TrailLivesExactlyItsLifespan(t: Trail, k: nat)
    ensures k < Max(t.lifespan, 1) ==> Age(t, k) == Some(t.(lifespan := t.lifespan - k))
    ensures k >= Max(t.lifespan, 1) ==> Age(t, k) == None
    decreases k
  {
    if k > 0 {
      match TrailStep(t)
      case None =>
      case Some(u) =>
        TrailLivesExactlyItsLifespan(u, k - 1);
    }
  }
}
