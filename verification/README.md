# North Sea ship and port simulation, modelled in Dafny

This project models the simulation engine of an agent-based simulation of
ship traffic and port scrubber policy in the North Sea. The engine has four
kinds of agent on a grid of land and water cells:

- Ports have berths, a scrubber policy (`allow`, `ban`, `tax` or
  `subsidy`), docking fees and revenue.
- Ships have a type, an optional scrubber and a route of up to three target
  ports.
- Scrubber trails are left behind by scrubber ships and fade after 35
  steps.
- Terrain cells do nothing.

The model is written as pure functions over immutable datatypes. Every
random draw of the original, and the scheduler's shuffled activation order,
is an explicit argument. The model includes the following pieces.

| module | models |
|---|---|
| `Base` | `Option`, `Result`, the Python exceptions the code can raise, list removal |
| `Grid` | cells, the sign-based ideal step, the Moore neighbourhood, the random water step |
| `Text` | `split`, `strip`, `lower` and decimal rendering, as the code uses them |
| `Harbour` | `mesa/port.py`: port size, docking fee, policy choice, dock, undock, recount |
| `Trails` | `ScrubberTrail` in `mesa/ship.py` |
| `Voyage` | `Ship` in `mesa/ship.py`: construction, the cruising step, docking, dwelling and undocking, trails, timeout |
| `Routing` | `_determine_ship_route` in `mesa/model.py`: route weights and weighted sampling without replacement |
| `Policies` | parsing of the `custom_port_policies` text in `mesa/model.py` |
| `Spawning` | the gradual release of the fleet and the choice of start cell in `mesa/model.py` |
| `Reporters` | the data collector's model reporters and `get_average_penalty` |
| `Simulation` | `ShipPortModel` in `mesa/model.py`: setup, then `step` (release, then activation of every agent) |
| `Legacy` | the older `mesa/mesa_model.py`: a random walk, docking at any neighbouring port, clamped port placement |
| `AgentsPort` | the port class of `src/agents/port.py` |
| `DestinationPort` | the port class of `src/destination/port.py` |
| `SimpleFleet` | `src/agents/ship.py` and `src/model/model.py` |

The model also records what the engine's own comments and documentation
promise but the code does not do. In each of the following cases the model
follows the code:

- Ships have no exiting state and no exit cell, and no replacement ship is
  spawned. A ship leaves the world only by the waiting-time timeout, so the
  fleet is not held constant.
- When the ideal sign-based step is not water, the fallback move is a
  uniformly random water cell of the neighbourhood, centre included. It is
  not the cell nearest the target. Neither move checks whether a port
  occupies the cell.
- A ship refused by a port that bans scrubbers keeps the same target and
  keeps trying. It does not skip to the next port.
- The scrubber penalty sum and count are never increased anywhere, so the
  average penalty is always 0.
- The default waiting limit is 20 steps.
- A successful docking resets the waiting time to 0. The same step then
  increments it to 1, because the increment is inside the not-docked
  branch. A ship can therefore be timed out in the step in which it docked
  while the port still lists it. The model keeps this behaviour.
- In the older model (`mesa/mesa_model.py`) the docked branch never clears
  `docked`. A ship that has docked stays on its cell for good, even after
  the port has let it go (`Legacy.DockedShipNeverWalks`).

Two defects of `mesa/model.py`'s engine would stop any run with an
exception (see "## Findings"). The first is the default port policy, which
raises AttributeError. The second is the release of a docked ship, which
raises NameError. `Simulation` therefore models the program with these two
defects corrected. It uses `Harbour.InitPolicy` instead of
`Harbour.InitPolicyAsWritten`, and `Voyage.DockedStep` instead of
`Voyage.DockedStepAsWritten`. The as-written members are kept, each with a
lemma that shows the failure. Everything else in `Simulation` follows the
code.

## Model

| member | source | states |
|---|---|---|
| Grid.Sign | mesa/ship.py:68-74 | the sign is the unique s in {-1, 0, 1} with s * v = |v|; it is 0 exactly for 0 |
| Grid.StepToward | mesa/ship.py:92-94 | the ideal move is at most one king move; at the target it stays put, and otherwise it brings the ship exactly one king move closer |
| Grid.Neighbourhood | mesa/ship.py:102 | a cell is listed exactly when it is on the grid, within one king move, and is either not the centre or the centre was asked for |
| Grid.WaterCells | mesa/ship.py:103-107 | the valid steps are exactly the water cells among the candidates |
| Grid.WaterMoves | mesa/ship.py:122-127 | the possible steps are exactly the water cells on the grid within one king move |
| Grid.RandomWaterStep | mesa/ship.py:120-130 | the ship either stays or moves to an adjacent water cell on the grid; it stays when no water is within reach; when water is within reach it lands on a water cell of the grid within one king move |
| Grid.RandomWaterStepReachesEveryWaterCell | mesa/ship.py:128-130 | every water cell within reach is the outcome of some random choice |
| Text.Split | mesa/model.py:100 | no piece contains the separator |
| Text.JoinSplit | mesa/model.py:100 | joining the pieces with the separator gives back the text |
| Text.SplitWithoutSeparator | mesa/model.py:100 | a text without the separator splits into itself alone |
| Text.SplitFirst | mesa/model.py:103 | `split(':', 1)` gives the text before the first colon and the text after it, around that colon |
| Text.Strip | mesa/model.py:104 | the result is a slice of the text with only whitespace cut from either end, and it neither starts nor ends with whitespace |
| Text.StripIdempotent | mesa/model.py:104 | stripping twice is stripping once |
| Text.StripKeepsUnspaced | mesa/model.py:104 | a text with no whitespace at either end is unchanged |
| Text.Lower | mesa/model.py:290 | lower-casing works character by character and keeps the length |
| Text.LowerIdempotent | mesa/model.py:290 | lower-casing twice is lower-casing once |
| Text.DecimalRoundTrip | src/destination/port.py:61 | reading back the decimal rendering of a number gives the number |
| Text.DecimalInjective | src/destination/port.py:61 | different numbers render differently |
| Trails.NewTrail | mesa/ship.py:16-19 | a trail carries 10 water units and the lifespan it is given |
| Trails.TrailStep | mesa/ship.py:21-25 | an activation lowers the lifespan by one, and the trail is removed exactly when the lifespan reaches 0 or below |
| Trails.TrailLivesExactlyItsLifespan | mesa/ship.py:16-25 | a trail with lifespan L survives its first L - 1 activations and is gone after the L-th, or after the first when L is at most 1 |
| Harbour.BaseCapacity | mesa/port.py:75-80 | medium ports get 5 base berths, large ones 10, every other class 3 |
| Harbour.TruncDiv | mesa/port.py:85 | `int()` of a quotient truncates toward zero, for both signs |
| Harbour.PortSize | mesa/port.py:70-86 | the capacity is the base berths times ships per port, truncated: capacity * ports <= base * ships < (capacity + 1) * ports |
| Harbour.PortSizeMonotone | mesa/port.py:84-85 | a larger fleet never gives a port fewer berths |
| Harbour.BaseFee | mesa/port.py:58-68 | every base fee lies between 20 and 120 |
| Harbour.UnknownTypePaysOtherRate | mesa/port.py:93 | a ship type missing from the table pays 40, the "other" rate |
| Harbour.AdjustedFee | mesa/port.py:93-97 | tax ports charge scrubber ships 1.5 times the base fee; subsidy ports charge clean ships 0.8 times; every other case pays the base fee; the fee is positive |
| Harbour.DockingFee | mesa/port.py:88-101 | for a port without berths the fee is the adjusted base fee; otherwise the fee times the berths equals the adjusted fee times berths plus occupied ones, so the surcharge grows with occupancy |
| Harbour.CongestionRatio | mesa/port.py:99 | the ratio times the berths equals the occupancy; it is 0 for a port without berths |
| Harbour.FeeMonotoneInOccupancy | mesa/port.py:88-101 | with ship and policy fixed, a fuller port never charges less |
| Harbour.FeeWithinSurchargeBounds | mesa/port.py:99-101 | the fee is at least the adjusted base fee and, while the port is within capacity, at most twice it |
| Harbour.InitPolicyAsWritten | mesa/port.py:44-51 | an explicit policy is kept; with none, reading the model's never-assigned `port_policy` raises AttributeError; a stored text would have one of its characters chosen |
| Harbour.DefaultPolicyAsWrittenIsBroken | mesa/port.py:48-49 | a port without an explicit policy fails to initialise; if "allow" were stored, the chosen policy would be a single letter, not a policy |
| Harbour.InitPolicy | mesa/port.py:44-53 | corrected: an explicit policy wins, otherwise one of the default policies is chosen, otherwise "allow" |
| Harbour.SingleDefaultPolicyIsKept | mesa/port.py:49 | with the single default policy, every port without an override gets that policy |
| Harbour.NewPort | mesa/port.py:33-55 | a new port is empty, has zero revenue and the given policy; its berths are the size rule's for its class, fleet and port count; it allows scrubbers exactly when the policy is not "ban"; it starts consistent and respects its ban |
| Harbour.DockShip | mesa/port.py:103-118 | docking succeeds exactly when the ship is not a scrubber at a ban port and a berth is free; then the count and the list grow and the fee is added to the revenue; otherwise nothing changes |
| Harbour.UndockShip | mesa/port.py:120-129 | undocking succeeds exactly when the ship is docked; then its first occurrence is removed and the count drops; otherwise nothing changes |
| Harbour.UpdateCapacity | mesa/port.py:131-135 | the count becomes the length of the docked list and nothing else changes |
| Harbour.UpdateCapacityKeepsConsistentPort | mesa/port.py:131-135 | recounting a consistent port changes nothing |
| Harbour.DockPreservesConsistency | mesa/port.py:111-115 | docking keeps the count equal to the list length and within the berths |
| Harbour.UndockPreservesConsistency | mesa/port.py:125-128 | undocking keeps the count equal to the list length and within the berths |
| Harbour.DockingRespectsBan | mesa/port.py:108-109 | a port that bans scrubbers never gets a scrubber ship docked |
| Harbour.UndockUndoesDock | mesa/port.py:103-129 | undocking a ship that has just docked restores the port, except that the fee stays in the revenue |
| Voyage.ScrubberProbability | mesa/ship.py:57-62 | each scrubber probability lies strictly between 0 and 1 |
| Voyage.ScrubberOddsByType | mesa/ship.py:57-62 | cargo ships are likelier to have a scrubber than tankers, and tankers likelier than any other type |
| Voyage.NewShip | mesa/ship.py:40-66 | a new ship has a scrubber exactly when its uniform draw is below its type's probability; it is undocked, with zero counters and an empty route |
| Voyage.Navigate | mesa/ship.py:91-110 | the ship takes the ideal step when that cell is water and the random water step otherwise; it moves at most one cell and only onto water |
| Voyage.DockingReachIsAdjacency | mesa/ship.py:113 | "at the target or in its neighbourhood" means within one king move |
| Voyage.Discharge | mesa/ship.py:132-137 | a trail with a fresh id is left on the vacated cell exactly when a scrubber ship changed cell; the id counter advances exactly then |
| Voyage.UndockedStep | mesa/ship.py:84-145 | a cruising ship moves by the navigation rule or at random; it docks exactly when its target port is within reach and accepts it; only that port changes; it leaves a trail when the discharge rule applies; it is removed exactly when its waiting time reaches the limit |
| Voyage.Finish | mesa/ship.py:132-145 | the end of a cruising step adds the trail, increments the waiting time and applies the timeout |
| Voyage.FirstPortHolding | mesa/ship.py:151-152 | the search finds the first port whose docked list holds the ship, or reports that none does |
| Voyage.DockedStepAsWritten | mesa/ship.py:150-152 | as written, the tenth docked step raises NameError, because `Port` is not imported; before that only the dwell counter grows |
| Voyage.DockedShipNeverLeavesAsWritten | mesa/ship.py:146-158 | a ship at its tenth docked step, held by a port, aborts as written, whereas the corrected step releases it and advances its route |
| Voyage.DockedStep | mesa/ship.py:146-158 | corrected: the dwell counter grows; at ten, the first port holding the ship undocks it, the ship becomes undocked and its route index advances by one; otherwise nothing else changes |
| Voyage.ShipStep | mesa/ship.py:77-158 | a step keeps the ship's identity and route; only an undocked ship can be removed; a docked ship neither moves nor leaves a trail |
| Voyage.ShipStepKeepsRouteValid | mesa/ship.py:86-157 | the route index only advances, by one, on undocking, and never passes the end of the route |
| Voyage.ShipStepKeepsPortsSound | mesa/ship.py:112-153 | a ship step keeps every port consistent and every ban respected |
| Routing.Popularity | mesa/model.py:289-298 | base popularity lies between 1 and 8 |
| Routing.PopularityIgnoresCase | mesa/model.py:290 | popularity depends on the lower-cased name only |
| Routing.TypeFactor | mesa/model.py:301-306 | type factors lie between 0.5 and 1.2 |
| Routing.PolicyFactor | mesa/model.py:314-319 | the policy factor lies between 0 and 1.5 and is 0 exactly for a scrubber ship at a ban port |
| Routing.Attraction | mesa/model.py:311-321 | popularity times the type factor is at least 0.5 |
| Routing.RouteWeight | mesa/model.py:310-321 | weights are non-negative and are 0 exactly for a scrubber ship at a ban port |
| Routing.TaxHalvesScrubberWeight | mesa/model.py:316-317 | for a scrubber ship, a tax port weighs half what it would weigh under "allow" |
| Routing.SubsidyRaisesCleanWeight | mesa/model.py:318-319 | for a clean ship, a subsidy port weighs 1.5 times what it would weigh under "allow" |
| Routing.PolicyIgnoresOtherKind | mesa/model.py:314-319 | a tax or subsidy policy leaves the weight for the other kind of ship as under "allow" |
| Routing.WeightUnderAllow | mesa/model.py:311-321 | under "allow" the weight is popularity times the type factor |
| Routing.WeightFactors | mesa/model.py:309-321 | every weight is the policy factor times popularity times the type factor |
| Routing.SelectFrom | mesa/model.py:335-341 | the walk from a position picks the first entry whose running total reaches the draw, or none if no total does |
| Routing.Select | mesa/model.py:334-341 | the pick is the first entry whose running total reaches the draw; a draw below the total always picks something |
| Routing.SelectSkipsZeroWeight | mesa/model.py:336-339 | a positive draw never picks an entry of weight 0 |
| Routing.ZeroDrawSelectsFirst | mesa/model.py:336-339 | a draw of exactly 0 picks the first entry, whatever its weight |
| Routing.ScaledUnitIsProper | mesa/model.py:334 | a uniform draw in [0, 1) scaled by a positive total lands below that total |
| Routing.ScaledPositiveIsNonzero | mesa/model.py:334 | a positive uniform draw scaled by a positive total is positive |
| Routing.Sample | mesa/model.py:323-343 | the sample has no more ports than there are draws or ports, and it is empty when the total weight is 0 |
| Routing.SampleDrawsFromItems | mesa/model.py:323-343 | the sample is a sub-multiset of the ports |
| Routing.SampleDistinct | mesa/model.py:339-340 | no port is picked twice |
| Routing.SampleFillsAllRounds | mesa/model.py:329-341 | when at least as many ports as draws have positive weight and every draw lies in [0, 1), every round picks a port |
| Routing.SampleAvoidsZeroWeights | mesa/model.py:330-341 | with positive draws, a port of weight 0 is never picked |
| Routing.Weights | mesa/model.py:309-321 | the weight list has one entry per port, each being that port's weight |
| Routing.DetermineRoute | mesa/model.py:284-343 | a route lists at most three distinct registry ports |
| Routing.RouteAvoidsBanPorts | mesa/model.py:314-315 | with positive draws, a scrubber ship's route contains no ban port |
| Routing.FullRouteWhenNothingBanned | mesa/model.py:328-341 | with no port closed to the ship, at least three ports and draws in [0, 1), the route has three ports |
| Routing.ZeroDrawCanPickZeroWeightPort | mesa/model.py:334-338 | with weights [0, 5, 5], a draw of exactly 0 picks the port of weight 0 |
| Policies.Entry | mesa/model.py:102-104 | a piece defines an override exactly when it contains a colon; the entry is the stripped text before the first colon and the stripped text after it |
| Policies.Entries | mesa/model.py:100-104 | there is one entry per comma-separated piece |
| Policies.ParseOverrides | mesa/model.py:97-106 | the text "None" gives no overrides |
| Policies.ParseOverridesFromPieces | mesa/model.py:97-106 | for any text other than "None", a name is overridden exactly when some comma-separated piece of the text defines it, and its policy is the one given by the last such piece |
| Policies.LastDefinition | mesa/model.py:101-104 | finds the last piece defining a name, with no later piece defining it |
| Policies.CollectIsLastDefinition | mesa/model.py:101-104 | a name is overridden exactly when some piece defines it, and a later definition replaces an earlier one |
| Policies.CollectedNamesAreStripped | mesa/model.py:104 | every overridden port name has no surrounding whitespace |
| Policies.OverrideFor | mesa/model.py:180-182 | a port gets an override exactly when its name is in the mapping |
| Policies.UnstrippedNameHasNoOverride | mesa/model.py:181 | a port name with surrounding whitespace never matches an override |
| Spawning.CeilDiv | mesa/model.py:353 | `math.ceil(a / b)` is the least q with q * b >= a |
| Spawning.SpawnCount | mesa/model.py:351-359 | inside the window with ships left, a step releases the remaining ships divided by the remaining steps, rounded up: at least one ship, enough to finish in time and never more than remain; outside, none |
| Spawning.RateWithinRemaining | mesa/model.py:353-356 | the release rate lies between one and the ships remaining |
| Spawning.LastReleaseStepTakesAll | mesa/model.py:353 | the last step of the window releases every remaining ship |
| Spawning.AllShipsReleasedInTime | mesa/model.py:349-359 | counting from any step inside the window, every ship is released by the window's end |
| Spawning.RemainingAfterStep | mesa/model.py:351-359 | each step lowers the remaining count by that step's release |
| Spawning.NothingRemainsAfterWindow | mesa/model.py:114 | after the five-step window nothing remains to release |
| Spawning.FrontLoaded | mesa/model.py:353 | no step releases more ships than the step before it |
| Spawning.BottomRow | mesa/model.py:239-246 | the bottom-row candidates are exactly the cells (x, 0) with x < min(38, width) |
| Spawning.AllCells | mesa/model.py:251-255 | the fallback candidates are exactly the grid cells |
| Spawning.StartCell | mesa/model.py:262-268 | a ship starts on a bottom-row water cell if there is one, else on any water cell if there is one, else at (0, 0) |
| Spawning.EveryBottomWaterCellCanStart | mesa/model.py:263-264 | every bottom-row water cell is a possible start |
| Reporters.ShipCountsPartition | mesa/model.py:196-200 | scrubber and non-scrubber counts add up to the number of ships |
| Reporters.WaterIsTenPerTrail | mesa/model.py:198-199 | when every trail carries 10 units, the total scrubber water is 10 per trail |
| Reporters.NumShips | mesa/model.py:200 | the ship count is the scrubber count plus the non-scrubber count |
| Reporters.NumScrubberShips | mesa/model.py:196 | the count is at most the number of ships; it is 0 exactly when no ship has a scrubber and equals the number of ships exactly when all do |
| Reporters.NumNonScrubberShips | mesa/model.py:197 | the count is at most the number of ships; it is 0 exactly when every ship has a scrubber and equals the number of ships exactly when none does |
| Reporters.NumScrubberTrails | mesa/model.py:198 | when every trail carries 10 units, the water total is 10 times the trail count |
| Reporters.TotalScrubberWater | mesa/model.py:199 | no trail holds more than the total, and the total is 0 exactly when every trail holds 0 |
| Reporters.TotalDockedShips | mesa/model.py:201 | no port lists more docked ships than the total, and the total is 0 exactly when every docked list is empty |
| Reporters.AvgPortPopularity | mesa/model.py:202-203 | the average is the docked total over the port count, 0 with no ports, and never negative |
| Reporters.TotalPortRevenue | mesa/model.py:208 | with no ports the revenue is 0; with non-negative revenues the total is non-negative and at least each port's revenue |
| Reporters.AvgPortRevenue | mesa/model.py:209-210 | the average is the revenue total over the port count, and 0 with no ports |
| Reporters.DockedTotalMatchesCounters | mesa/model.py:201 | for consistent ports, the docked total equals the sum of the counters and stays within the total capacity |
| Reporters.GuardedAverage | mesa/model.py:202-203 | dividing by max(1, n) gives the mean when n > 0 and the total when n = 0 |
| Reporters.NumPortsWith | mesa/model.py:204-207 | a policy count never exceeds the number of ports |
| Reporters.PolicyCountsCoverPorts | mesa/model.py:204-207 | the four policy counts never exceed the number of ports, and they add up to it when every port has one of the four policies |
| Reporters.ScrubberRatio | mesa/model.py:211-212 | the ratio lies between 0 and 1, is 0 with no ships, and is 1 exactly when every ship has a scrubber |
| Reporters.AveragePenalty | mesa/model.py:225-229 | the average penalty is the sum over the count when the count is positive, and 0 otherwise |
| Simulation.DefaultPolicies | mesa/model.py:70 | the default policies, as the documented comma-separated list: one stripped piece of `port_policy` per comma-separated piece, in order |
| Simulation.PortPolicy | mesa/model.py:178-184 | corrected (default policy as in Harbour.InitPolicy): a port named in the overrides gets that policy; otherwise it gets one of the defaults, or "allow" if there are none |
| Simulation.SetupPorts | mesa/model.py:176-190 | the i-th port has id i and the i-th record's name, cell and policy; its berths are the size rule's for its class, the fleet and the port count; it starts empty; it allows scrubbers exactly when not banned; every port starts sound |
| Simulation.Setup | mesa/model.py:60-117 | corrected (default policy as in Harbour.InitPolicy): a new world has the registry, no ships or trails, the next ship id after the ports, the next trail id 10000, all ships still to release and step 0; it satisfies the invariant |
| Simulation.Arrive | mesa/model.py:231-282 | a released ship gets the next id, its drawn type and scrubber, a start cell by the start rule and a route by the route rule, and starts undocked with zero counters |
| Simulation.Arrivals | mesa/model.py:354-358 | the k released ships have consecutive ids from the next ship id |
| Simulation.Release | mesa/model.py:349-359 | the step's share of the fleet is appended after the active ships; the id counter and the remaining count move by that share |
| Simulation.FindShip | mesa/ship.py:82-83 | the lookup finds the ship with the id, or reports that no active ship has it |
| Simulation.FindTrail | mesa/ship.py:21-25 | the lookup finds the trail with the id, or reports that no live trail has it |
| Simulation.ActivateShip | mesa/ship.py:77-158 | the ship steps; a timed-out ship leaves the world; the registry takes the step's docking changes and a deposited trail joins the world |
| Simulation.ActivateTrail | mesa/ship.py:21-25 | an activated trail ages by one step or leaves the world; ships and ports are untouched |
| Simulation.Activate | mesa/ship.py:82-83 | a removed ship, a missing trail or a trail laid during this step is skipped and changes nothing |
| Simulation.ActivateAll | mesa/model.py:362 | the pass over the activation order keeps the world well formed and the frame fixed |
| Simulation.Tick | mesa/model.py:345-365 | a step advances the counter by one, releases this step's share and keeps the world well formed; the registry size, the configuration and the penalties are unchanged |
| Simulation.ActivateKeepsSound | mesa/model.py:362 | a single activation keeps every port consistent and ban-respecting, and every trail sound |
| Simulation.ActivateAllKeepsSound | mesa/model.py:362 | a whole pass keeps every port consistent and ban-respecting, and every trail sound |
| Simulation.TickPreservesInv | mesa/model.py:345-365 | a step preserves the world invariant: sound ports and trails, ascending ids, released plus remaining equal to the fleet size, the release schedule, zero penalties |
| Simulation.ActiveShipsWithinReleased | mesa/model.py:351-359 | there are never more active ships than have been released, nor more than the fleet size |
| Simulation.FleetReleasedAfterWindow | mesa/model.py:349-359 | after the window the whole fleet has been released: the next ship id is the port count plus the fleet size |
| Simulation.ReportsAreCoherent | mesa/model.py:194-229 | in every reachable world the water total is 10 per trail, the docked total equals the counters and fits the capacity, and the average penalty is 0 |
| Simulation.DefaultSetupAllowsEverywhere | mesa/model.py:60-61 | corrected (default policy as in Harbour.InitPolicy): with the default arguments every port gets "allow" and accepts scrubbers |
| Legacy.LegacyPortSize | mesa/mesa_model.py:45-54 | 'M' gives 5 berths and 'L' 10; any other class raises AttributeError, because the attribute is read before it is set |
| Legacy.NewLegacyPort | mesa/mesa_model.py:33-42 | a port is built exactly for the classes 'M' and 'L', empty and consistent |
| Legacy.LegacyDock | mesa/mesa_model.py:56-65 | docking succeeds exactly when a berth is free; then the count and the list grow; otherwise nothing changes |
| Legacy.LegacyUndock | mesa/mesa_model.py:67-76 | undocking succeeds exactly when the ship is docked; then its first occurrence is removed and the count drops; otherwise nothing changes |
| Legacy.LegacyUpdateCapacity | mesa/mesa_model.py:78-82 | the count becomes the length of the docked list and nothing else changes |
| Legacy.LegacyDockKeepsConsistent | mesa/mesa_model.py:61-64 | docking keeps the count equal to the list length and within the berths |
| Legacy.LegacyUndockKeepsConsistent | mesa/mesa_model.py:72-75 | undocking keeps the count equal to the list length and within the berths |
| Legacy.LegacyUndockUndoesDock | mesa/mesa_model.py:56-76 | undocking a ship that has just docked restores the port exactly |
| Legacy.Clamp | mesa/mesa_model.py:231-232 | a clamped coordinate lies on the grid and equals the input when the input already does |
| Legacy.PortCell | mesa/mesa_model.py:229-233 | a port is placed on the grid, at its own cell when that cell is on the grid |
| Legacy.LegacyShipIds | mesa/mesa_model.py:238 | as written, the ids run from the port count up to the fleet size: max(0, ships - ports) of them |
| Legacy.IntendedShipIds | mesa/mesa_model.py:238 | corrected: one id per requested ship, numbered after the ports |
| Legacy.FleetShortByPorts | mesa/mesa_model.py:235-238 | as written the fleet is short by the port count, and it is empty when there are no more ships than ports |
| Legacy.LegacyPlacement | mesa/mesa_model.py:237-250 | with water on the grid every listed ship is placed on a chosen water cell, undocked; with no water, no ship is placed |
| Legacy.PlaceOn | mesa/mesa_model.py:247-250 | each ship is placed on the cell its random index chooses |
| Legacy.PortsAt | mesa/mesa_model.py:121 | the ports on a cell are exactly those whose cell it is |
| Legacy.PortsOn | mesa/mesa_model.py:121-123 | the neighbouring ports are exactly those on a neighbouring cell |
| Legacy.DockAtFirst | mesa/mesa_model.py:122-130 | the ship docks at the first candidate with a free berth, and only that port changes; if none has one, nothing changes |
| Legacy.LegacyFirstHolding | mesa/mesa_model.py:136-137 | the search finds the first port whose list holds the ship, or reports that none does |
| Legacy.LegacyShipStep | mesa/mesa_model.py:97-140 | an undocked ship walks and may dock; a docked ship dwells |
| Legacy.LegacyWalk | mesa/mesa_model.py:101-130 | the ship takes the random water step and then docks at a neighbouring port with a free berth if there is one |
| Legacy.DockNearby | mesa/mesa_model.py:119-130 | docking happens exactly when a neighbouring port has a free berth, and only that port changes |
| Legacy.LegacyDwellStep | mesa/mesa_model.py:131-140 | the dwell counter grows, the ship stays docked, and at ten its first holding port drops it from its list |
| Legacy.LegacyStepKeepsRegistrySound | mesa/mesa_model.py:97-140 | a ship step keeps every port consistent |
| Legacy.LegacyVoyage | mesa/mesa_model.py:97-140 | consecutive steps keep the ship's id and the registry size |
| Legacy.DockedShipNeverWalks | mesa/mesa_model.py:131-140 | once docked, a ship stays docked on its cell forever; each step adds one to its dwell counter |
| Legacy.LegacyRound | mesa/mesa_model.py:252-256 | a scheduler pass keeps the registry size, the fleet size and every ship's id |
| Legacy.LegacyRoundKeepsRegistrySound | mesa/mesa_model.py:252-256 | a whole pass keeps every port consistent |
| AgentsPort.NewAgentPort | src/agents/port.py:12-19 | the constructor stores every argument as given, with an empty docked list |
| AgentsPort.CapacityFilter | src/agents/port.py:41-51 | 'M' becomes 30 berths and 'L' 60; anything else passes through unchanged |
| AgentsPort.CapacityFilterIdempotent | src/agents/port.py:41-51 | filtering twice is filtering once; a label survives exactly when it is neither 'M' nor 'L' |
| AgentsPort.MaxCapacityFilter | src/agents/port.py:41-51 | 'M' gives 30 berths and 'L' 60; any other capacity, numeric or not, is returned unchanged; the port is not changed |
| AgentsPort.HasCapacity | src/agents/port.py:53-55 | the port has room exactly when the count is below the filtered capacity; comparing with a label raises TypeError |
| AgentsPort.AgentDock | src/agents/port.py:57-66 | docking raises exactly when the capacity check raises; it succeeds exactly when there is room, and then the count and the list grow; otherwise nothing changes |
| AgentsPort.AgentUndock | src/agents/port.py:68-76 | undocking succeeds exactly when the ship is docked; then its first occurrence is removed and the count drops; otherwise nothing changes |
| AgentsPort.AgentUpdateCapacity | src/agents/port.py:82-84 | the count becomes the length of the docked list and nothing else changes |
| AgentsPort.CountMatchesOnlyAfterRecount | src/agents/port.py:12-19 | a new port's count matches its empty list exactly when the caller passed 0; a recount always makes them match |
| AgentsPort.AgentDockKeepsConsistent | src/agents/port.py:57-66 | at a consistent port docking never raises and keeps the count matching the list and within the capacity |
| AgentsPort.AgentUndockKeepsConsistent | src/agents/port.py:68-76 | undocking keeps the count matching the list and within the capacity |
| AgentsPort.AgentUndockUndoesDock | src/agents/port.py:57-76 | undocking a ship that has just docked restores the port exactly |
| DestinationPort.SetPortId | src/destination/port.py:23-25 | the id has no setter: assigning it raises AttributeError |
| DestinationPort.SetPortName | src/destination/port.py:31-33 | the name setter replaces the name and nothing else |
| DestinationPort.SetMaxCapacity | src/destination/port.py:39-41 | the capacity setter replaces the capacity and nothing else |
| DestinationPort.MaxCapacityFilterAsWritten | src/destination/port.py:43-53 | as written, the filter rewrites 'M' to 30 and 'L' to 60 in place and returns None |
| DestinationPort.MaxCapacityFilter | src/destination/port.py:43-53 | corrected: the same rewrite, returning the number of berths exactly when the capacity is numeric |
| DestinationPort.FilterIdempotent | src/destination/port.py:43-53 | filtering a filtered port changes nothing |
| DestinationPort.ReprAsWritten | src/destination/port.py:60-61 | as written, the text is the fixed lead-in, then the decimal id in the name slot, then the unfiltered capacity and the count |
| DestinationPort.Repr | src/destination/port.py:60-61 | corrected: the text is the fixed lead-in, then the name, then the filtered capacity and the count |
| DestinationPort.ReprShowsName | src/destination/port.py:60-61 | the corrected text tells apart ports that differ only in name; the text as written, which prints the id in the name slot, cannot |
| DestinationPort.PortTestsAgainstCode | tests/test_port.py:9-25 | for Amsterdam ('M', id 123), the filter as written returns None and its text shows "123" as the name and "M" as the capacity; the corrected filter returns 30 and its text shows "Amsterdam" and "30", as the tests expect |
| SimpleFleet.NewSimpleShip | src/agents/ship.py:13-18 | a missing route becomes the empty route; the other fields are stored as given |
| SimpleFleet.MoveAsWritten | src/agents/ship.py:20-27 | as written, a move with a waypoint left sets the position to the first waypoint and shortens the route by exactly one; with none left it raises AttributeError on `unique_id` |
| SimpleFleet.Move | src/agents/ship.py:20-27 | corrected: it agrees with the code while a waypoint is left, and leaves a ship with no waypoints unchanged |
| SimpleFleet.MoveAlongRoute | src/agents/ship.py:24-25 | after k moves (k at most the route length) the ship is on the k-th waypoint, with the rest of the route ahead; nothing else changes |
| SimpleFleet.MovesEndAtLastWaypoint | src/agents/ship.py:24-27 | once the route is used up, further corrected moves change nothing |
| SimpleFleet.Discharge | src/agents/ship.py:29-34 | a ship discharges 10 exactly when it has a scrubber, and 0 exactly when it has none |
| SimpleFleet.AddShip | src/model/model.py:5-7 | the fleet grows by one at the end; the existing ships keep their order and are untouched |
| SimpleFleet.RunIntended | src/model/model.py:9-14 | the corrected run moves every ship once, in insertion order, and reports each ship's new position and discharge |
| SimpleFleet.RunIntendedExactly | src/model/model.py:9-14 | any result that moves and reports each ship once, in order, is the corrected run |
| SimpleFleet.Run | src/model/model.py:9-14 | the run as written completes exactly when every ship has a waypoint, and then equals the corrected run; otherwise it stops with AttributeError at the first ship without one, with the earlier ships moved and the rest untouched; an empty fleet is unchanged |
| SimpleFleet.RunDischargeTotal | src/model/model.py:13-14 | a run reports 10 litres for each scrubber ship and nothing for the others |
| SimpleFleet.FleetTestsAgainstCode | tests/test_model.py:9-48 | for the tests' two ships, one run moves both to (1, 1) and reports 10 and 0; a second move of the first ship reaches (2, 2); a second move of the second raises as written and leaves it at (1, 1) when corrected |

## Left out

- Loading the port data from CSV files, the lat/lon to grid conversion and the land polygons are left out. Ports are given as records with a name, a size class and a cell. The terrain is a given predicate on cells.
- The empirical ship-type distribution is left out. The drawn type is an input of each arrival.
- The scrubber uniform draw and every route draw are inputs. A route draw enters the model through its value in [0, 1) scaled by the current total.
- The random-activation order is an input: a sequence of ship and trail ids with each ship's random index. Ports and terrain cells do nothing when activated and are not in it.
- Floating-point rounding is not modelled. Fees, weights and ratios are exact reals.
- `str.lower` is modelled on ASCII letters only. `str.isspace` is modelled on Python's full whitespace set: U+0009 to U+000D, U+001C to U+0020, U+0085, U+00A0, U+1680, U+2000 to U+200A, U+2028, U+2029, U+202F, U+205F and U+3000.
- Printing, the data collector's agent reporters, CSV export, visualisation and the UI elements are left out.
- The `water_cells_cache` and `port_agents_cache` attributes are left out. The model recomputes the same cells and ports, which the cache would hold unchanged because terrain and ports never change after setup.
- `scrubber_ratio` is stored by the model but never read, so it is left out.
- `calculate_distance` and the `__repr__` of src/agents/port.py use floating-point arithmetic and formatting, so they are left out.
- `__repr__` of src/agents/ship.py is left out.
- `capacity_calculation` in src/destination/port.py does nothing and is left out.
- Routing.RouteAvoidsBanPorts: holds only when no route draw is exactly 0.0. A zero draw selects the first port even when its weight is 0 (Routing.ZeroDrawCanPickZeroWeightPort).
- Legacy.LegacyRound: names ships by their position in the fleet rather than by agent identity. This is the same ship because the older model never removes a ship.
- Legacy.DockNearby: tries neighbouring ports in the order of the Moore neighbourhood. The order in which the grid lists the neighbours of a cell is not modelled beyond that.
- Agent ids are not modelled as one shared namespace. Ship ids start at the port count (mesa/model.py:190), and trail ids start at 10000 (mesa/model.py:90, mesa/ship.py:134-137). Both kinds of agent go into one Mesa scheduler (mesa/model.py:271, mesa/ship.py:137). Their ids would collide once the port count plus the fleet size exceeds 10000. The model keeps ships and trails in separate lists, so this collision is not modelled.
- Simulation.Tick: the scrubber penalty sum and count are carried unchanged because no code increments them.

## Findings

| source | as written | input that shows it | evidently intended | confidence | as-written member | corrected member |
|---|---|---|---|---|---|---|
| mesa/ship.py:150-152 | the docked branch tests `isinstance(agent, Port)`, but `Port` is never imported in this module | a docked ship at its tenth docked step raises NameError | the first port holding the ship undocks it, the ship becomes undocked and its route index advances | high, not executed | Voyage.DockedStepAsWritten | Voyage.DockedStep |
| mesa/port.py:48-49 | a port without an explicit policy reads `model.port_policy`, which the model never assigns; a stored text would make `random.choice` pick one of its characters | any port not named in `custom_port_policies` | choose among the comma-separated default policies | high, not executed | Harbour.InitPolicyAsWritten | Harbour.InitPolicy |
| mesa/mesa_model.py:238 | ship ids run over `range(num_ports, num_ships)` | 20 ports and 10 ships gives no ships at all | `num_ships` ships, numbered after the ports | medium, not executed | Legacy.LegacyShipIds | Legacy.IntendedShipIds |
| src/destination/port.py:43-53 | the filter rewrites the capacity in place and returns None | Amsterdam with capacity 'M': the test expects 30 | return the number of berths | high, not executed | DestinationPort.MaxCapacityFilterAsWritten | DestinationPort.MaxCapacityFilter |
| src/destination/port.py:61 | the name slot prints `port_id`, and the capacity is printed unfiltered | Amsterdam, id 123: the text shows "name: 123" and "max capacity: M" | show the name and the filtered capacity | high, not executed | DestinationPort.ReprAsWritten | DestinationPort.Repr |
| src/agents/ship.py:26-27 | the completion message reads `self.unique_id`, which the class never sets | moving a ship whose route is used up raises AttributeError | report completion and leave the ship where it is | high, not executed | SimpleFleet.MoveAsWritten | SimpleFleet.Move |
