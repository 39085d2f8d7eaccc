/** Exact-arithmetic stand-ins for the engine's vector types, and the
    C# 32-bit integer arithmetic the generator's attempt budget relies on. */
module Geometry {

  /** Unity's Vector2; a city size uses x for width and y for depth. */
  datatype Vec2 = Vec2(x: real, y: real)

  /** Unity's Vector3; the ground plane is (x, z), y is up. */
  datatype Vec3 = Vec3(x: real, y: real, z: real)

  /** Mathf.Abs on exact reals. */
  function Abs(r: real): (a: real)
    ensures a >= 0.0
    ensures a == r || a == -r
  {
    if r < 0.0 then -r else r
  }

  /** The values Random.Range(a, b) can return: the closed interval
      between the two bounds, whichever of them is the smaller. */
  predicate Within(v: real, a: real, b: real)
  {
    (a <= v <= b) || (b <= v <= a)
  }

  function Max(a: int, b: int): (m: int)
  {
    if a < b then b else a
  }

  const TwoTo31: int := 0x8000_0000
  const TwoTo32: int := 0x1_0000_0000

  /** The values of a C# `int`. */
  predicate IsInt32(n: int)
  {
    -TwoTo31 <= n < TwoTo31
  }

  /** The C# `int` that an unchecked operation yields for the exact value n:
      the one value in int32 range that is congruent to n modulo 2^32. */
  function WrapInt32(n: int): (r: int)
    ensures IsInt32(r)
    ensures (r - n) % TwoTo32 == 0
    ensures IsInt32(n) ==> r == n
  {
    (n + TwoTo31) % TwoTo32 - TwoTo31
  }
}
