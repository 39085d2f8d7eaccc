# City generator layout, in Dafny

This project models the layout logic of the Unity component `CityGenerator`
(`Assets/CityGenerator.cs`):

- **Building placement.** `GenerateCity` is a bounded rejection sampler. Each
  attempt draws a position inside the city rectangle plus a width, a depth and
  a height. `IsSpaceAvailable` tests the candidate against every building
  already in the `placedBuildings` list. A candidate that passes is appended.
  The attempt counter grows on every attempt. The loop stops when the list
  holds `numberOfBuildings` entries or after `numberOfBuildings * 20` attempts.
- **Road lattice and traffic lights.** `GenerateRoads` lays a road at
  `-size/2 + k * roadSpacing` while that value is at most `size/2`, once per
  axis. `GenerateTrafficLights` puts a light at every (x, z) pair of those
  lines. `roadSpacing` is the private constant 30.

Layout of the model:

- `geometry.dfy` (module `Geometry`): `Vec2`/`Vec3` over exact reals, `Abs`,
  the `Within` range of `Random.Range`, and C# `int` wrap-around.
- `layout.dfy` (module `BuildingLayout`): the `BuildingData` record, one
  attempt's random draws (`Candidate`), the overlap test (`TooClose`,
  `SpaceAvailable`), the separation invariant (`Separated`, `NoOverlap`), and
  `Run`, the placement loop as a function of its draws, with its lemmas.
- `road_grid.dfy` (module `RoadGrid`): the lattice in closed form (`Lattice`),
  the road and light loops as methods proved equal to it, and lemmas about
  both.
- `city_generator.dfy` (module `CityGeneration`): the class `CityGenerator`.
  Its fields `placedBuildings`, `roads` and `trafficLights` are updated in
  place. `IsSpaceAvailable` is the early-return scan. `GenerateCity` is the
  `while` loop, proved to leave exactly `Run`'s list and to keep the invariant
  `Valid()`: no overlaps, everything in bounds, never more than the target.

Random draws are a parameter. `GenerateCity` takes `draws: seq<Candidate>`,
and `draws[k]` is what the random source yields on attempt `k`. The
precondition `Drawn` says every draw lies in its range. `Within(v, a, b)`
accepts either order of the bounds, as `Random.Range` does. Depth is drawn
from `buildingWidthRange`, as in the source (line 84). There is no separate
depth range.

`maxAttempts = numberOfBuildings * 20` is computed in C# `int` arithmetic
(`MaxAttempts`, via `WrapInt32`). It equals `20 * numberOfBuildings` for
counts up to 107374182. Beyond that the product wraps, and
`MaxAttemptsBudget` exhibits a negative budget for 200000000 buildings.

Behaviour of the code worth noting:

- The first candidate is always accepted, because an empty list leaves room
  for anything (`FirstCandidateAccepted`). So a city too small for one
  footprint does not yield an empty layout. Instead, a city too crowded for
  two footprints yields at most one building (`CrowdedCityHoldsOne`).
- The code has no configuration errors. It does not reject bad ranges,
  non-positive counts or a non-positive spacing, and the attempt multiplier
  is the literal 20. A non-positive count or budget simply places nothing. The
  spacing is the constant 30, so the lattice functions take `spacing > 0` as
  a precondition. With spacing 0 the source's loop would not end.
- The building type and rotation of each building do not affect placement.
  They are left out.

## Model

| member | source | states |
|---|---|---|
| `Geometry.WrapInt32` | Assets/CityGenerator.cs:73 | the result is the C# `int` congruent to the exact value modulo 2^32, and equals it when it is in range |
| `BuildingLayout.MaxAttemptsBudget` | Assets/CityGenerator.cs:73 | the attempt budget is 20 × numberOfBuildings up to 107374182 buildings, and wraps to a negative value at 200000000 |
| `BuildingLayout.DefaultBudget` | Assets/CityGenerator.cs:7 | the default target is 200 buildings, and its attempt budget (200 × 20) is 4000 |
| `BuildingLayout.TooCloseIffNotSeparated` | Assets/CityGenerator.cs:117-121 | the rejection test (strictly closer on x AND on z) holds exactly when the pair is not separated on x or z; separation is symmetric |
| `BuildingLayout.AppendKeepsNoOverlap` | Assets/CityGenerator.cs:89-96 | appending a candidate that passed the test to an overlap-free list keeps it overlap-free |
| `BuildingLayout.RunStep` | Assets/CityGenerator.cs:89-106 | while the guard holds, a candidate that passes the scan is appended at the end, a rejected one leaves the list exactly as it was, and the counter goes up either way |
| `BuildingLayout.RunAttempts` | Assets/CityGenerator.cs:72-106 | the attempt counter never passes numberOfBuildings * 20 and never decreases, and each attempt appends at most one building |
| `BuildingLayout.RunStops` | Assets/CityGenerator.cs:75 | the loop ends only with the target count reached or the attempt budget used up |
| `BuildingLayout.RunCount` | Assets/CityGenerator.cs:75-96 | the list never shrinks and never grows past max(its starting length, numberOfBuildings) |
| `BuildingLayout.RunAppendOnly` | Assets/CityGenerator.cs:89-96 | the starting list is an unchanged prefix of the final list |
| `BuildingLayout.RunDrawsFrom` | Assets/CityGenerator.cs:77-96 | every added building was drawn on one of the loop's own attempts and passed the overlap test against all buildings placed before it |
| `BuildingLayout.RunKeepsNoOverlap` | Assets/CityGenerator.cs:89-121 | no-overlap invariant: an overlap-free list stays overlap-free, with every pair separated by half-widths plus minExtraGap on x or on z |
| `BuildingLayout.RunInBounds` | Assets/CityGenerator.cs:77-96 | when every draw is in range, every building lies on the ground inside the city, width and depth in the width range, height in the height range |
| `BuildingLayout.FirstCandidateAccepted` | Assets/CityGenerator.cs:113-127 | with a positive target and budget, the first draw is always placed, since an empty list has room for anything |
| `BuildingLayout.CrowdedCityHoldsOne` | Assets/CityGenerator.cs:89-121 | if every two draws are too close, at most one building is placed |
| `RoadGrid.LatticeEdge` | Assets/CityGenerator.cs:159 | the k-th accumulator value is at most size/2 exactly when k < floor(size/spacing) + 1 (0 for a negative size) |
| `RoadGrid.LatticeWithinCity` | Assets/CityGenerator.cs:159 | every road line lies in [-size/2, size/2]; the first is -size/2 and each next is one spacing further |
| `RoadGrid.LatticeIncreasing` | Assets/CityGenerator.cs:159 | the road lines are strictly increasing |
| `RoadGrid.LatticeMaximal` | Assets/CityGenerator.cs:159 | one more step past the last road line exceeds size/2 |
| `RoadGrid.LatticeOfDefaultCity` | Assets/CityGenerator.cs:169 | size 100 with spacing 30 gives the lines -50, -20, 10, 40 |
| `RoadGrid.LatticeNext` | Assets/CityGenerator.cs:159 | `x += spacing` takes the k-th lattice value to the (k+1)-th |
| `RoadGrid.GenerateRoads` | Assets/CityGenerator.cs:157-178 | the two accumulator loops lay one road per x-lattice line (scaled roadWidth × 0.1 × city depth), then one per z-lattice line (city width × 0.1 × roadWidth) |
| `RoadGrid.LightsCount` | Assets/CityGenerator.cs:182-190 | there is one light per pair of lines: the count is the product of the two lattice lengths |
| `RoadGrid.LightsAt` | Assets/CityGenerator.cs:182-190 | the light for x line i and z line j sits at index i × (number of z lines) + j, at (xs[i], 1, zs[j]) |
| `RoadGrid.LightsCartesian` | Assets/CityGenerator.cs:182-190 | a point is a light exactly when it is (x, 1, z) for some x line and some z line |
| `RoadGrid.GenerateTrafficLights` | Assets/CityGenerator.cs:180-191 | the nested accumulator loops yield exactly the lights of the x-lattice × z-lattice, x outer and z inner |
| `CityGeneration.CityGenerator.constructor` | Assets/CityGenerator.cs:6-21 | a fresh component holds the given settings and no buildings, roads or lights, and satisfies the invariant |
| `CityGeneration.CityGenerator.IsSpaceAvailable` | Assets/CityGenerator.cs:113-127 | true exactly when no placed building is strictly within half-widths plus minExtraGap on both x and z; true on an empty list |
| `CityGeneration.CityGenerator.GenerateCity` | Assets/CityGenerator.cs:70-111 | the loop leaves exactly `Run`'s list, keeps the invariant (no overlaps, in bounds, at most the target), and appends the lattice roads and lights |

## Left out

- Material creation and assignment (`CreateMaterials`, `CreateColorMaterial`, `AssignMaterial`): shader and renderer calls with no layout content.
- The random building type and random rotation of each accepted building: cosmetic, with no effect on placement.
- `Instantiate`, `CreatePrimitive`, parenting the scale of each building object, and the fixed traffic-light scale (0.5, 2, 0.5): engine plumbing. The model keeps the placement data, the road positions and scales, and the light positions.
- `SpawnCars`, `MoveCars` and `CarMover`: per-frame motion scaled by `Time.deltaTime`, on engine transforms.
- `Start` and `Update`: engine callbacks. `Start` only calls material setup, `GenerateCity` and car spawning.
- `EmergencyVehicleAI`: NavMesh pathfinding, a timed coroutine and status text, all engine services.
- Unity's `Random`: replaced by the caller's `draws`, one `Candidate` per attempt.
- Floating-point rounding, including drift in the `x += roadSpacing` accumulators: all arithmetic is on exact reals.
- The inspector fields are fixed for the life of the component (`const`). Unity lets them be edited between frames, but `GenerateCity` never changes them.
