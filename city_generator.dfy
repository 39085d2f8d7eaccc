/** The CityGenerator component: its settings, the list of buildings it
    has placed, and the roads and traffic lights it has laid, updated in
    place by GenerateCity. The random source is replaced by the sequence of
    draws the caller passes in, one Candidate per attempt. */
module CityGeneration {
  import opened Geometry
  import opened BuildingLayout
  import opened RoadGrid

  class CityGenerator {
    // The inspector settings, fixed for the life of the component.
    const numberOfBuildings: int
    const citySize: Vec2
    const minExtraGap: real
    const buildingWidthRange: Vec2
    const buildingHeightRange: Vec2
    const roadWidth: real := 2.0
    const roadSpacing: real := 30.0

    /** The buildings accepted so far, in acceptance order. */
    var placedBuildings: seq<BuildingData>
    /** The road objects laid so far. */
    var roads: seq<Road>
    /** The positions of the traffic lights laid so far. */
    var trafficLights: seq<Vec3>

    function Config(): Settings
    {
      Settings(numberOfBuildings, citySize, minExtraGap, buildingWidthRange, buildingHeightRange)
    }

    /** The component's invariant: a C# int target, never more buildings than
        the target, no two buildings overlapping, every building in bounds. */
    ghost predicate Valid()
      reads this
    {
      && IsInt32(numberOfBuildings)
      && |placedBuildings| <= Max(0, numberOfBuildings)
      && NoOverlap(placedBuildings, minExtraGap)
      && forall b :: b in placedBuildings ==> InBounds(Config(), b)
    }

    constructor (s: Settings)
      requires IsInt32(s.numberOfBuildings)
      ensures Valid()
      ensures Config() == s
      ensures placedBuildings == [] && roads == [] && trafficLights == []
    {
      numberOfBuildings := s.numberOfBuildings;
      citySize := s.citySize;
      minExtraGap := s.minExtraGap;
      buildingWidthRange := s.buildingWidthRange;
      buildingHeightRange := s.buildingHeightRange;
      placedBuildings := [];
      roads := [];
      trafficLights := [];
    }

    /** The overlap scan: true when no placed building is within
        half-widths plus minExtraGap of the new footprint on both axes. */
    method IsSpaceAvailable(newPos: Vec3, newSize: Vec3) returns (available: bool)
      ensures available <==> SpaceAvailable(placedBuildings, newPos, newSize, minExtraGap)
      ensures !available <==> exists i :: 0 <= i < |placedBuildings| && TooClose(placedBuildings[i], newPos, newSize, minExtraGap)
      ensures placedBuildings == [] ==> available
    {
      for i := 0 to |placedBuildings|
        invariant forall k :: 0 <= k < i ==> !TooClose(placedBuildings[k], newPos, newSize, minExtraGap)
      {
        var building := placedBuildings[i];
        var minDistanceX := building.size.x / 2.0 + newSize.x / 2.0 + minExtraGap;
        var minDistanceZ := building.size.z / 2.0 + newSize.z / 2.0 + minExtraGap;
        if Abs(newPos.x - building.position.x) < minDistanceX
          && Abs(newPos.z - building.position.z) < minDistanceZ
        {
          return false;
        }
      }
      return true;
    }

    /** The rejection-sampling loop, then the roads and the traffic lights.
        draws[k] is what the random source yields on attempt k. */
    method GenerateCity(draws: seq<Candidate>)
      requires Valid()
      requires MaxAttempts(numberOfBuildings) <= |draws|
      requires forall k :: 0 <= k < |draws| ==> Drawn(Config(), draws[k])
      modifies this
      ensures Valid()
      ensures placedBuildings == Run(Config(), old(placedBuildings), draws, 0).placed
      ensures roads == old(roads)
                     + RoadsAcrossX(Lattice(citySize.x, roadSpacing), citySize.y, roadWidth)
                     + RoadsAcrossZ(Lattice(citySize.y, roadSpacing), citySize.x, roadWidth)
      ensures trafficLights == old(trafficLights)
                             + Lights(Lattice(citySize.x, roadSpacing), Lattice(citySize.y, roadSpacing))
    {
      var attempts := 0;
      var maxAttempts := MaxAttempts(numberOfBuildings);

      while |placedBuildings| < numberOfBuildings && attempts < maxAttempts
        invariant Run(Config(), placedBuildings, draws, attempts) == Run(Config(), old(placedBuildings), draws, 0)
        invariant roads == old(roads) && trafficLights == old(trafficLights)
        decreases maxAttempts - attempts
      {
        var draw := draws[attempts];
        var randomPos := Vec3(draw.x, 0.0, draw.z);
        var buildingSize := Vec3(draw.width, draw.height, draw.depth);

        var available := IsSpaceAvailable(randomPos, buildingSize);
        if available {
          placedBuildings := placedBuildings + [BuildingData(randomPos, buildingSize)];
        }

        attempts := attempts + 1;
      }

      RunCount(Config(), old(placedBuildings), draws, 0);
      RunKeepsNoOverlap(Config(), old(placedBuildings), draws, 0);
      RunInBounds(Config(), old(placedBuildings), draws, 0);

      var newRoads := GenerateRoads(citySize, roadSpacing, roadWidth);
      roads := roads + newRoads;
      var newLights := GenerateTrafficLights(citySize, roadSpacing);
      trafficLights := trafficLights + newLights;
    }
  }
}
