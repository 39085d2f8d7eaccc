/** The road and traffic-light positions the city generator lays over the
    city rectangle: a lattice with fixed spacing on each axis, starting at
    the city's lower edge, and one light at every crossing of two lines. */
module RoadGrid {
  import opened Geometry

  /** One road object: where it stands and how it is scaled. */
  datatype Road = Road(position: Vec3, scale: Vec3)

  /** How many lattice lines fit on an axis of the given length: the steps
      -size/2, -size/2 + spacing, ... that do not pass size/2. */
  function LatticeCount(size: real, spacing: real): (n: nat)
    requires spacing > 0.0
  {
    if size < 0.0 then 0 else (size / spacing).Floor + 1
  }

  /** The k-th value the accumulator `x += spacing` takes, from -size/2. */
  function LatticePoint(size: real, spacing: real, k: int): (x: real)
  {
    -size / 2.0 + (k as real) * spacing
  }

  /** The road lines on one axis, in the order the loop visits them. */
  function Lattice(size: real, spacing: real): (xs: seq<real>)
    requires spacing > 0.0
  {
    seq(LatticeCount(size, spacing), k => LatticePoint(size, spacing, k))
  }

  /** k steps of spacing stay within size exactly when k is at most
      floor(size / spacing). */
  lemma StepsWithin(size: real, spacing: real, k: nat)
    requires spacing > 0.0
    ensures (k as real) * spacing <= size <==> (k as real) <= size / spacing
  {
    var q := size / spacing;
    assert q * spacing == size;
    if (k as real) <= q {
      assert (k as real) * spacing <= q * spacing;
    } else {
      assert (k as real) * spacing > q * spacing;
    }
  }

  /** The loop condition: the k-th accumulator value is still at most
      size/2 exactly when k indexes a lattice line. */
  lemma LatticeEdge(size: real, spacing: real, k: nat)
    requires spacing > 0.0
    ensures k < LatticeCount(size, spacing) <==> LatticePoint(size, spacing, k) <= size / 2.0
  {
    StepsWithin(size, spacing, k);
    if size >= 0.0 {
      var q := size / spacing;
      assert q >= 0.0 by {
        assert q * spacing == size;
      }
      assert (k as real) <= q <==> k <= q.Floor;
    } else {
      assert (k as real) * spacing >= 0.0;
    }
  }

  /** Every road line lies inside the city, [-size/2, size/2]; the first is
      on the lower edge, and each next line is one spacing further. */
  lemma LatticeWithinCity(size: real, spacing: real)
    requires spacing > 0.0
    ensures var xs := Lattice(size, spacing);
      && (forall k :: 0 <= k < |xs| ==> -size / 2.0 <= xs[k] <= size / 2.0)
      && (|xs| > 0 ==> xs[0] == -size / 2.0)
      && (forall k :: 0 < k < |xs| ==> xs[k] == xs[k - 1] + spacing)
  {
    var xs := Lattice(size, spacing);
    forall k | 0 <= k < |xs|
      ensures -size / 2.0 <= xs[k] <= size / 2.0
    {
      LatticeEdge(size, spacing, k);
      assert (k as real) * spacing >= 0.0;
    }
  }

  /** The lines are strictly increasing, so no road is laid twice. */
  lemma LatticeIncreasing(size: real, spacing: real)
    requires spacing > 0.0
    ensures var xs := Lattice(size, spacing);
      forall i, j :: 0 <= i < j < |xs| ==> xs[i] < xs[j]
  {
    var xs := Lattice(size, spacing);
    forall i, j | 0 <= i < j < |xs|
      ensures xs[i] < xs[j]
    {
      assert (j as real) * spacing - (i as real) * spacing == ((j - i) as real) * spacing;
      assert ((j - i) as real) * spacing > 0.0;
    }
  }

  /** The lattice is maximal: one more step would pass size/2. */
  lemma LatticeMaximal(size: real, spacing: real)
    requires spacing > 0.0
    ensures LatticePoint(size, spacing, |Lattice(size, spacing)|) > size / 2.0
  {
    LatticeEdge(size, spacing, |Lattice(size, spacing)|);
  }

  /** A 100-unit city with spacing 30 has roads at -50, -20, 10 and 40. */
  lemma LatticeOfDefaultCity()
    ensures Lattice(100.0, 30.0) == [-50.0, -20.0, 10.0, 40.0]
  {
    assert (100.0 / 30.0).Floor == 3 by {
      assert 3.0 <= 100.0 / 30.0 < 4.0;
    }
  }

  /** One more `+= spacing` moves the accumulator to the next lattice value. */
  lemma LatticeNext(size: real, spacing: real, k: int)
    ensures LatticePoint(size, spacing, k) + spacing == LatticePoint(size, spacing, k + 1)
  {
    assert ((k + 1) as real) * spacing == (k as real) * spacing + spacing;
  }

  /** Roads across the x axis, one per lattice line, each as long as the
      city is deep. */
  function RoadsAcrossX(xs: seq<real>, cityDepth: real, roadWidth: real): (roads: seq<Road>)
  {
    seq(|xs|, i requires 0 <= i < |xs| => Road(Vec3(xs[i], 0.0, 0.0), Vec3(roadWidth, 0.1, cityDepth)))
  }

  /** Roads across the z axis, one per lattice line, each as long as the
      city is wide. */
  function RoadsAcrossZ(zs: seq<real>, cityWidth: real, roadWidth: real): (roads: seq<Road>)
  {
    seq(|zs|, i requires 0 <= i < |zs| => Road(Vec3(0.0, 0.0, zs[i]), Vec3(cityWidth, 0.1, roadWidth)))
  }

  /** GenerateRoads: one float-accumulator loop per axis. The roads are the
      x-lattice's followed by the z-lattice's. */
  method GenerateRoads(citySize: Vec2, roadSpacing: real, roadWidth: real) returns (roads: seq<Road>)
    requires roadSpacing > 0.0
    ensures roads == RoadsAcrossX(Lattice(citySize.x, roadSpacing), citySize.y, roadWidth)
                   + RoadsAcrossZ(Lattice(citySize.y, roadSpacing), citySize.x, roadWidth)
  {
    ghost var xs := Lattice(citySize.x, roadSpacing);
    ghost var zs := Lattice(citySize.y, roadSpacing);
    roads := [];
    var x := -citySize.x / 2.0;
    while x <= citySize.x / 2.0
      invariant |roads| <= |xs|
      invariant x == LatticePoint(citySize.x, roadSpacing, |roads|)
      invariant roads == RoadsAcrossX(xs[..|roads|], citySize.y, roadWidth)
      decreases |xs| - |roads|
    {
      LatticeEdge(citySize.x, roadSpacing, |roads|);
      LatticeNext(citySize.x, roadSpacing, |roads|);
      roads := roads + [Road(Vec3(x, 0.0, 0.0), Vec3(roadWidth, 0.1, citySize.y))];
      x := x + roadSpacing;
    }
    LatticeEdge(citySize.x, roadSpacing, |roads|);
    assert xs[..|roads|] == xs;
    ghost var n := |roads|;
    var z := -citySize.y / 2.0;
    while z <= citySize.y / 2.0
      invariant n <= |roads| <= n + |zs|
      invariant z == LatticePoint(citySize.y, roadSpacing, |roads| - n)
      invariant roads == RoadsAcrossX(xs, citySize.y, roadWidth)
                       + RoadsAcrossZ(zs[..|roads| - n], citySize.x, roadWidth)
      decreases n + |zs| - |roads|
    {
      LatticeEdge(citySize.y, roadSpacing, |roads| - n);
      LatticeNext(citySize.y, roadSpacing, |roads| - n);
      roads := roads + [Road(Vec3(0.0, 0.0, z), Vec3(citySize.x, 0.1, roadWidth))];
      z := z + roadSpacing;
    }
    LatticeEdge(citySize.y, roadSpacing, |roads| - n);
    assert zs[..|roads| - n] == zs;
  }

  /** The lights at one x line: one per z line, in z order, at height 1. */
  function LightRow(x: real, zs: seq<real>): (row: seq<Vec3>)
  {
    seq(|zs|, j requires 0 <= j < |zs| => Vec3(x, 1.0, zs[j]))
  }

  /** The lights of the nested loops, row by row: x outer, z inner. */
  function Lights(xs: seq<real>, zs: seq<real>): (lights: seq<Vec3>)
    decreases |xs|
  {
    if xs == [] then [] else Lights(xs[..|xs| - 1], zs) + LightRow(xs[|xs| - 1], zs)
  }

  /** There is one light per pair of lines. */
  lemma {:induction false} LightsCount(xs: seq<real>, zs: seq<real>)
    ensures |Lights(xs, zs)| == |xs| * |zs|
    decreases |xs|
  {
    if xs != [] {
      LightsCount(xs[..|xs| - 1], zs);
      assert |xs| * |zs| == (|xs| - 1) * |zs| + |zs|;
    }
  }

  /** The light for the i-th x line and the j-th z line sits at index
      i * |zs| + j. */
  lemma {:induction false} LightsAt(xs: seq<real>, zs: seq<real>, i: nat, j: nat)
    requires i < |xs| && j < |zs|
    ensures |Lights(xs, zs)| == |xs| * |zs|
    ensures i * |zs| + j < |xs| * |zs|
    ensures Lights(xs, zs)[i * |zs| + j] == Vec3(xs[i], 1.0, zs[j])
    decreases |xs|
  {
    LightsCount(xs, zs);
    var init := xs[..|xs| - 1];
    LightsCount(init, zs);
    assert Lights(xs, zs) == Lights(init, zs) + LightRow(xs[|xs| - 1], zs);
    if i < |xs| - 1 {
      LightsAt(init, zs, i, j);
      assert i * |zs| + j < |init| * |zs|;
    } else {
      assert i * |zs| == |init| * |zs|;
    }
    assert i * |zs| + j < |xs| * |zs| by {
      assert i * |zs| <= (|xs| - 1) * |zs|;
    }
  }

  /** The lights are exactly the Cartesian product of the two lattices. */
  lemma {:induction false} LightsCartesian(xs: seq<real>, zs: seq<real>, p: Vec3)
    ensures p in Lights(xs, zs) <==>
      exists i, j :: 0 <= i < |xs| && 0 <= j < |zs| && p == Vec3(xs[i], 1.0, zs[j])
    decreases |xs|
  {
    if xs != [] {
      var init := xs[..|xs| - 1];
      LightsCartesian(init, zs, p);
      if p in Lights(xs, zs) {
        if p in LightRow(xs[|xs| - 1], zs) {
          var j :| 0 <= j < |zs| && LightRow(xs[|xs| - 1], zs)[j] == p;
          assert p == Vec3(xs[|xs| - 1], 1.0, zs[j]);
        } else {
          assert p in Lights(init, zs);
          var i, j :| 0 <= i < |init| && 0 <= j < |zs| && p == Vec3(init[i], 1.0, zs[j]);
          assert p == Vec3(xs[i], 1.0, zs[j]);
        }
      }
      if exists i, j :: 0 <= i < |xs| && 0 <= j < |zs| && p == Vec3(xs[i], 1.0, zs[j]) {
        var i, j :| 0 <= i < |xs| && 0 <= j < |zs| && p == Vec3(xs[i], 1.0, zs[j]);
        if i < |xs| - 1 {
          assert p == Vec3(init[i], 1.0, zs[j]);
          assert p in Lights(init, zs);
        } else {
          assert LightRow(xs[|xs| - 1], zs)[j] == p;
        }
      }
    }
  }

  /** GenerateTrafficLights: nested float-accumulator loops, x outer and z
      inner, one light per (x, z) pair of lattice lines. */
  method GenerateTrafficLights(citySize: Vec2, roadSpacing: real) returns (lights: seq<Vec3>)
    requires roadSpacing > 0.0
    ensures lights == Lights(Lattice(citySize.x, roadSpacing), Lattice(citySize.y, roadSpacing))
  {
    ghost var xs := Lattice(citySize.x, roadSpacing);
    ghost var zs := Lattice(citySize.y, roadSpacing);
    lights := [];
    var x := -citySize.x / 2.0;
    ghost var i: nat := 0;
    while x <= citySize.x / 2.0
      invariant i <= |xs|
      invariant x == LatticePoint(citySize.x, roadSpacing, i)
      invariant lights == Lights(xs[..i], zs)
      decreases |xs| - i
    {
      LatticeEdge(citySize.x, roadSpacing, i);
      ghost var before := lights;
      var z := -citySize.y / 2.0;
      ghost var j: nat := 0;
      while z <= citySize.y / 2.0
        invariant j <= |zs|
        invariant z == LatticePoint(citySize.y, roadSpacing, j)
        invariant lights == before + LightRow(x, zs[..j])
        decreases |zs| - j
      {
        LatticeEdge(citySize.y, roadSpacing, j);
        LatticeNext(citySize.y, roadSpacing, j);
        lights := lights + [Vec3(x, 1.0, z)];
        z := z + roadSpacing;
        j := j + 1;
      }
      LatticeEdge(citySize.y, roadSpacing, j);
      assert zs[..j] == zs;
      assert xs[..i + 1][..i] == xs[..i];
      LatticeNext(citySize.x, roadSpacing, i);
      x := x + roadSpacing;
      i := i + 1;
    }
    LatticeEdge(citySize.x, roadSpacing, i);
    assert xs[..i] == xs;
  }
}
