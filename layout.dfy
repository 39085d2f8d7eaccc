/** The building-placement part of the city generator, as values: the
    records it stores, the overlap test, and the rejection-sampling loop of
    GenerateCity written as a function of its random draws. */
module BuildingLayout {
  import opened Geometry

  /** One accepted building. The position lies on the ground (y = 0);
      size is (width, height, depth), so size.z is the depth. */
  datatype BuildingData = BuildingData(position: Vec3, size: Vec3)

  /** The five random draws of one attempt, in the order the loop makes
      them: x, z, width, depth, height. */
  datatype Candidate = Candidate(x: real, z: real, width: real, depth: real, height: real)

  /** The generator's inspector settings that placement reads. */
  datatype Settings = Settings(
    numberOfBuildings: int,
    citySize: Vec2,
    minExtraGap: real,
    buildingWidthRange: Vec2,
    buildingHeightRange: Vec2)

  /** The values the component starts with. */
  const DefaultSettings: Settings :=
    Settings(200, Vec2(100.0, 100.0), 5.0, Vec2(3.0, 8.0), Vec2(5.0, 30.0))

  /** The building record made from one attempt's draws. */
  function ToBuilding(c: Candidate): (b: BuildingData)
  {
    BuildingData(Vec3(c.x, 0.0, c.z), Vec3(c.width, c.height, c.depth))
  }

  /** What the random source promises about one attempt's draws: a position
      inside the city rectangle, and width AND depth from the width range
      (there is no separate depth range), height from the height range. */
  predicate Drawn(s: Settings, c: Candidate)
  {
    && Within(c.x, -s.citySize.x / 2.0, s.citySize.x / 2.0)
    && Within(c.z, -s.citySize.y / 2.0, s.citySize.y / 2.0)
    && Within(c.width, s.buildingWidthRange.x, s.buildingWidthRange.y)
    && Within(c.depth, s.buildingWidthRange.x, s.buildingWidthRange.y)
    && Within(c.height, s.buildingHeightRange.x, s.buildingHeightRange.y)
  }

  /** A building lies on the ground inside the city, with its sizes in range. */
  predicate InBounds(s: Settings, b: BuildingData)
  {
    && b.position.y == 0.0
    && Within(b.position.x, -s.citySize.x / 2.0, s.citySize.x / 2.0)
    && Within(b.position.z, -s.citySize.y / 2.0, s.citySize.y / 2.0)
    && Within(b.size.x, s.buildingWidthRange.x, s.buildingWidthRange.y)
    && Within(b.size.z, s.buildingWidthRange.x, s.buildingWidthRange.y)
    && Within(b.size.y, s.buildingHeightRange.x, s.buildingHeightRange.y)
  }

  /** The rejection test against one placed building: the new footprint is
      strictly closer than half-widths plus gap on x AND on z. */
  predicate TooClose(b: BuildingData, newPos: Vec3, newSize: Vec3, gap: real)
  {
    && Abs(newPos.x - b.position.x) < b.size.x / 2.0 + newSize.x / 2.0 + gap
    && Abs(newPos.z - b.position.z) < b.size.z / 2.0 + newSize.z / 2.0 + gap
  }

  /** A new footprint may be placed when no placed building is too close. */
  predicate SpaceAvailable(placed: seq<BuildingData>, newPos: Vec3, newSize: Vec3, gap: real)
  {
    forall i :: 0 <= i < |placed| ==> !TooClose(placed[i], newPos, newSize, gap)
  }

  /** Two footprints, each grown by the gap, are apart on x or on z. */
  predicate Separated(a: BuildingData, b: BuildingData, gap: real)
  {
    || Abs(a.position.x - b.position.x) >= (a.size.x + b.size.x) / 2.0 + gap
    || Abs(a.position.z - b.position.z) >= (a.size.z + b.size.z) / 2.0 + gap
  }

  /** Every two distinct entries of a layout are separated. */
  predicate NoOverlap(placed: seq<BuildingData>, gap: real)
  {
    forall i, j :: 0 <= i < |placed| && 0 <= j < |placed| && i != j ==> Separated(placed[i], placed[j], gap)
  }

  /** maxAttempts = numberOfBuildings * 20, computed in C# int arithmetic. */
  function MaxAttempts(numberOfBuildings: int): (budget: int)
  {
    WrapInt32(numberOfBuildings * 20)
  }

  /** Where the placement loop ends: the list it built and its attempt counter. */
  datatype Outcome = Outcome(placed: seq<BuildingData>, attempts: int)

  /** The placement loop of GenerateCity, from the list `placed` and the
      counter `attempts`; draws[k] is what the random source yields on
      attempt k. */
  function Run(s: Settings, placed: seq<BuildingData>, draws: seq<Candidate>, attempts: nat): (r: Outcome)
    requires MaxAttempts(s.numberOfBuildings) <= |draws|
    decreases MaxAttempts(s.numberOfBuildings) - attempts
  {
    if |placed| < s.numberOfBuildings && attempts < MaxAttempts(s.numberOfBuildings) then
      var b := ToBuilding(draws[attempts]);
      var next := if SpaceAvailable(placed, b.position, b.size, s.minExtraGap) then placed + [b] else placed;
      Run(s, next, draws, attempts + 1)
    else
      Outcome(placed, attempts)
  }

  // ---------------------------------------------------------------------
  // The overlap test

  /** The rejection test is exactly the negation of the separation invariant,
      and separation does not depend on which building came first. */
  lemma TooCloseIffNotSeparated(a: BuildingData, b: BuildingData, gap: real)
    ensures TooClose(a, b.position, b.size, gap) <==> !Separated(a, b, gap)
    ensures Separated(a, b, gap) <==> Separated(b, a, gap)
  {
    assert Abs(b.position.x - a.position.x) == Abs(a.position.x - b.position.x);
    assert Abs(b.position.z - a.position.z) == Abs(a.position.z - b.position.z);
  }

  /** Appending a building that passed the test keeps the layout free of overlaps. */
  lemma AppendKeepsNoOverlap(placed: seq<BuildingData>, b: BuildingData, gap: real)
    requires NoOverlap(placed, gap)
    requires SpaceAvailable(placed, b.position, b.size, gap)
    ensures NoOverlap(placed + [b], gap)
  {
    var next := placed + [b];
    forall i, j | 0 <= i < |next| && 0 <= j < |next| && i != j
      ensures Separated(next[i], next[j], gap)
    {
      if j == |placed| {
        TooCloseIffNotSeparated(next[i], b, gap);
      } else if i == |placed| {
        TooCloseIffNotSeparated(next[j], b, gap);
      }
    }
  }

  // ---------------------------------------------------------------------
  // The placement loop

  /** One attempt while the loop guard holds: a candidate that passes the
      overlap test is appended at the end, a rejected one leaves the list as
      it was, and the counter moves on either way. */
  lemma RunStep(s: Settings, placed: seq<BuildingData>, draws: seq<Candidate>, attempts: nat)
    requires MaxAttempts(s.numberOfBuildings) <= |draws|
    requires |placed| < s.numberOfBuildings && attempts < MaxAttempts(s.numberOfBuildings)
    ensures var b := ToBuilding(draws[attempts]);
      Run(s, placed, draws, attempts) ==
        if SpaceAvailable(placed, b.position, b.size, s.minExtraGap)
        then Run(s, placed + [b], draws, attempts + 1)
        else Run(s, placed, draws, attempts + 1)
  {
  }

  /** The loop runs at most maxAttempts times, and each attempt adds at most
      one building. */
  lemma {:induction false} RunAttempts(s: Settings, placed: seq<BuildingData>, draws: seq<Candidate>, attempts: nat)
    requires MaxAttempts(s.numberOfBuildings) <= |draws|
    ensures var r := Run(s, placed, draws, attempts);
      && attempts <= r.attempts <= Max(attempts, MaxAttempts(s.numberOfBuildings))
      && |r.placed| - |placed| <= r.attempts - attempts
    decreases MaxAttempts(s.numberOfBuildings) - attempts
  {
    if |placed| < s.numberOfBuildings && attempts < MaxAttempts(s.numberOfBuildings) {
      var b := ToBuilding(draws[attempts]);
      var next := if SpaceAvailable(placed, b.position, b.size, s.minExtraGap) then placed + [b] else placed;
      RunAttempts(s, next, draws, attempts + 1);
    }
  }

  /** The loop stops only when the target count is reached or the attempt
      budget is used up. */
  lemma {:induction false} RunStops(s: Settings, placed: seq<BuildingData>, draws: seq<Candidate>, attempts: nat)
    requires MaxAttempts(s.numberOfBuildings) <= |draws|
    ensures var r := Run(s, placed, draws, attempts);
      |r.placed| >= s.numberOfBuildings || r.attempts >= MaxAttempts(s.numberOfBuildings)
    decreases MaxAttempts(s.numberOfBuildings) - attempts
  {
    if |placed| < s.numberOfBuildings && attempts < MaxAttempts(s.numberOfBuildings) {
      var b := ToBuilding(draws[attempts]);
      var next := if SpaceAvailable(placed, b.position, b.size, s.minExtraGap) then placed + [b] else placed;
      RunStops(s, next, draws, attempts + 1);
    }
  }

  /** The list never grows past the target count (nor shrinks). */
  lemma {:induction false} RunCount(s: Settings, placed: seq<BuildingData>, draws: seq<Candidate>, attempts: nat)
    requires MaxAttempts(s.numberOfBuildings) <= |draws|
    ensures var r := Run(s, placed, draws, attempts);
      |placed| <= |r.placed| <= Max(|placed|, s.numberOfBuildings)
    decreases MaxAttempts(s.numberOfBuildings) - attempts
  {
    if |placed| < s.numberOfBuildings && attempts < MaxAttempts(s.numberOfBuildings) {
      var b := ToBuilding(draws[attempts]);
      var next := if SpaceAvailable(placed, b.position, b.size, s.minExtraGap) then placed + [b] else placed;
      RunCount(s, next, draws, attempts + 1);
    }
  }

  /** The list is append-only: what was placed stays, unchanged, at the front. */
  lemma {:induction false} RunAppendOnly(s: Settings, placed: seq<BuildingData>, draws: seq<Candidate>, attempts: nat)
    requires MaxAttempts(s.numberOfBuildings) <= |draws|
    ensures var r := Run(s, placed, draws, attempts);
      |placed| <= |r.placed| && r.placed[..|placed|] == placed
    decreases MaxAttempts(s.numberOfBuildings) - attempts
  {
    if |placed| < s.numberOfBuildings && attempts < MaxAttempts(s.numberOfBuildings) {
      var b := ToBuilding(draws[attempts]);
      var next := if SpaceAvailable(placed, b.position, b.size, s.minExtraGap) then placed + [b] else placed;
      RunAppendOnly(s, next, draws, attempts + 1);
      var r := Run(s, next, draws, attempts + 1);
      assert r.placed[..|placed|] == r.placed[..|next|][..|placed|];
    }
  }

  /** Some attempt in [lo, hi) drew b. */
  predicate DrawnDuring(b: BuildingData, draws: seq<Candidate>, lo: int, hi: int)
  {
    exists d :: lo <= d < hi && 0 <= d < |draws| && b == ToBuilding(draws[d])
  }

  /** Every building the loop adds was drawn on one of the attempts it made,
      and passed the overlap test against everything placed before it. */
  lemma {:induction false} RunDrawsFrom(s: Settings, placed: seq<BuildingData>, draws: seq<Candidate>, attempts: nat)
    requires MaxAttempts(s.numberOfBuildings) <= |draws|
    ensures var r := Run(s, placed, draws, attempts);
      && |placed| <= |r.placed|
      && forall k :: |placed| <= k < |r.placed| ==>
           && DrawnDuring(r.placed[k], draws, attempts, r.attempts)
           && SpaceAvailable(r.placed[..k], r.placed[k].position, r.placed[k].size, s.minExtraGap)
    decreases MaxAttempts(s.numberOfBuildings) - attempts
  {
    if |placed| < s.numberOfBuildings && attempts < MaxAttempts(s.numberOfBuildings) {
      var b := ToBuilding(draws[attempts]);
      var ok := SpaceAvailable(placed, b.position, b.size, s.minExtraGap);
      var next := if ok then placed + [b] else placed;
      RunDrawsFrom(s, next, draws, attempts + 1);
      RunAppendOnly(s, next, draws, attempts + 1);
      RunAttempts(s, next, draws, attempts + 1);
      var r := Run(s, next, draws, attempts + 1);
      assert r == Run(s, placed, draws, attempts);
      forall k | |placed| <= k < |r.placed|
        ensures DrawnDuring(r.placed[k], draws, attempts, r.attempts)
        ensures SpaceAvailable(r.placed[..k], r.placed[k].position, r.placed[k].size, s.minExtraGap)
      {
        if k < |next| {
          assert ok && k == |placed|;
          assert r.placed[k] == next[k] == b;
          assert r.placed[..k] == next[..k] == placed;
          assert DrawnDuring(b, draws, attempts, r.attempts);
        } else {
          assert DrawnDuring(r.placed[k], draws, attempts + 1, r.attempts);
        }
      }
    }
  }

  /** The no-overlap invariant: started from a layout without overlaps, the
      loop ends with one. */
  lemma {:induction false} RunKeepsNoOverlap(s: Settings, placed: seq<BuildingData>, draws: seq<Candidate>, attempts: nat)
    requires MaxAttempts(s.numberOfBuildings) <= |draws|
    requires NoOverlap(placed, s.minExtraGap)
    ensures NoOverlap(Run(s, placed, draws, attempts).placed, s.minExtraGap)
    decreases MaxAttempts(s.numberOfBuildings) - attempts
  {
    if |placed| < s.numberOfBuildings && attempts < MaxAttempts(s.numberOfBuildings) {
      var b := ToBuilding(draws[attempts]);
      if SpaceAvailable(placed, b.position, b.size, s.minExtraGap) {
        AppendKeepsNoOverlap(placed, b, s.minExtraGap);
        RunKeepsNoOverlap(s, placed + [b], draws, attempts + 1);
      } else {
        RunKeepsNoOverlap(s, placed, draws, attempts + 1);
      }
    }
  }

  /** Containment: when every draw is in range, every building of the result
      lies inside the city with its sizes in range. */
  lemma {:induction false} RunInBounds(s: Settings, placed: seq<BuildingData>, draws: seq<Candidate>, attempts: nat)
    requires MaxAttempts(s.numberOfBuildings) <= |draws|
    requires forall k :: 0 <= k < |draws| ==> Drawn(s, draws[k])
    requires forall b :: b in placed ==> InBounds(s, b)
    ensures forall b :: b in Run(s, placed, draws, attempts).placed ==> InBounds(s, b)
    decreases MaxAttempts(s.numberOfBuildings) - attempts
  {
    if |placed| < s.numberOfBuildings && attempts < MaxAttempts(s.numberOfBuildings) {
      var b := ToBuilding(draws[attempts]);
      assert Drawn(s, draws[attempts]);
      assert InBounds(s, b);
      var next := if SpaceAvailable(placed, b.position, b.size, s.minExtraGap) then placed + [b] else placed;
      RunInBounds(s, next, draws, attempts + 1);
    }
  }

  /** An empty list leaves room for anything: with a positive target and a
      positive budget the first candidate is always placed, however small the
      city is. */
  lemma FirstCandidateAccepted(s: Settings, draws: seq<Candidate>)
    requires MaxAttempts(s.numberOfBuildings) <= |draws|
    requires s.numberOfBuildings >= 1 && MaxAttempts(s.numberOfBuildings) >= 1
    ensures var r := Run(s, [], draws, 0);
      |r.placed| >= 1 && r.placed[0] == ToBuilding(draws[0])
  {
    var b := ToBuilding(draws[0]);
    assert SpaceAvailable([], b.position, b.size, s.minExtraGap);
    assert [] + [b] == [b];
    assert Run(s, [], draws, 0) == Run(s, [b], draws, 1);
    RunAppendOnly(s, [b], draws, 1);
    var r := Run(s, [b], draws, 1);
    assert r.placed[0] == r.placed[..1][0];
  }

  /** When every two draws are too close to each other (a city too small for
      two footprints plus gap), the loop places at most one building. */
  lemma {:induction false} CrowdedCityHoldsOne(s: Settings, placed: seq<BuildingData>, draws: seq<Candidate>, attempts: nat)
    requires MaxAttempts(s.numberOfBuildings) <= |draws|
    requires forall i, j :: 0 <= i < |draws| && 0 <= j < |draws| ==>
      TooClose(ToBuilding(draws[i]), ToBuilding(draws[j]).position, ToBuilding(draws[j]).size, s.minExtraGap)
    requires placed == [] || (|placed| == 1 && exists i :: 0 <= i < |draws| && placed[0] == ToBuilding(draws[i]))
    ensures |Run(s, placed, draws, attempts).placed| <= 1
    decreases MaxAttempts(s.numberOfBuildings) - attempts
  {
    if |placed| < s.numberOfBuildings && attempts < MaxAttempts(s.numberOfBuildings) {
      var b := ToBuilding(draws[attempts]);
      if placed == [] {
        var next := if SpaceAvailable(placed, b.position, b.size, s.minExtraGap) then placed + [b] else placed;
        CrowdedCityHoldsOne(s, next, draws, attempts + 1);
      } else {
        var i :| 0 <= i < |draws| && placed[0] == ToBuilding(draws[i]);
        assert TooClose(placed[0], b.position, b.size, s.minExtraGap);
        assert !SpaceAvailable(placed, b.position, b.size, s.minExtraGap);
        CrowdedCityHoldsOne(s, placed, draws, attempts + 1);
      }
    }
  }

  /** The budget is numberOfBuildings * 20 for every count up to 107374182;
      one past the int32 range, the product wraps and the budget is negative. */
  lemma MaxAttemptsBudget(n: int)
    ensures 0 <= n <= 107374182 ==> MaxAttempts(n) == 20 * n
    ensures MaxAttempts(200000000) < 0
  {
    assert WrapInt32(4000000000) == 4000000000 - TwoTo32;
  }

  /** With the default settings the loop has 4000 attempts for 200 buildings. */
  lemma DefaultBudget()
    ensures DefaultSettings.numberOfBuildings == 200
    ensures MaxAttempts(DefaultSettings.numberOfBuildings) == 4000
  {
    MaxAttemptsBudget(200);
  }
}
