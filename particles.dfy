/**
 * The per-particle branch of every update: what the `//change pos` loops of
 * cloth.cpp's `update` and `midpointUpdate`, the `//find state at 1/2 timestep`
 * loop of `midpointUpdate`, and clothBackup.cpp's `update` do to particle (i, j).
 *
 * Each rule maps the grid as it stands when the loop reaches flat index k to the new
 * value of particle k; particles visited earlier in the same loop have already moved,
 * which matters for the aero sample and the normal, both read from neighbours.
 *
 * The mutable globals of the source (`wind`, `drop`, `sphereCenter`) and the step
 * length `dt` are fields of `Env`, and so is the square root.
 */
module Particles {
  import opened VecMath
  import opened Grid

  datatype Env = Env(wind: real, drop: bool, sphereCenter: Vec3, dt: real, sqrt: real -> real)

  /** The floor plane y = -2. */
  const FloorY: real := -2.0

  /** The radius at which a particle touches the sphere. */
  const ContactRadius: real := 0.55

  /** cloth.cpp's `gravity`, added to the velocity once per step, unscaled by dt. */
  const ClothGravity: real := -0.05

  /** clothBackup.cpp's `gravity`, multiplied by dt before it is added. */
  const BackupGravity: real := -2.0

  /** `pos[1] - (-2.0) < .02f`: the particle lies on the floor and is skipped. */
  predicate Resting(pos: Vec3) {
    pos.y - FloorY < 0.02
  }

  /** `i == 0 && !drop`: the top row hangs still until the cloth is dropped. */
  predicate Pinned(k: int, drop: bool) {
    Row(k) == 0 && !drop
  }

  /** `if (pos[1] < -2.0f) pos[1] = -2.0f;` */
  function ClampToFloor(pos: Vec3): (r: Vec3)
    ensures r.y >= FloorY
    ensures r.x == pos.x && r.z == pos.z
    ensures pos.y >= FloorY ==> r == pos
    ensures pos.y < FloorY ==> r.y == FloorY
  {
    if pos.y < FloorY then pos.(y := FloorY) else pos
  }

  // ---------------------------------------------------------------------------
  // Sphere contact
  // ---------------------------------------------------------------------------

  /** `n = n / distToOrigin`. At zero distance, where the source divides by zero, the
      model has no normal. */
  function ContactNormal(v: Vec3, dist: real): Vec3 {
    if dist == 0.0 then Zero else Scale(1.0 / dist, v)
  }

  /** Remove the velocity along n and push the particle out to the contact radius:
      `vel -= dot(vel, n)*n; pos += (.55 - dist)*n`. */
  function Bounce(p: Point, n: Vec3, dist: real): Point {
    p.(vel := Sub(p.vel, Scale(Dot(p.vel, n), n)),
       pos := Add(p.pos, Scale(ContactRadius - dist, n)))
  }

  /**
   * A particle within the sphere (but not at its centre) ends on the sphere's
   * surface, at distance exactly 0.55 from the centre, with no velocity component
   * along the outward normal.
   */
  lemma BounceGeometry(p: Point, center: Vec3, sqrt: real -> real)
    requires IsSqrt(sqrt) && p.pos != center
    ensures var v := Sub(p.pos, center);
            var dist := sqrt(Dot(v, v));
            var n := ContactNormal(Scale(-1.0, Sub(center, p.pos)), dist);
            var q := Bounce(p, n, dist);
            Dot(q.vel, n) == 0.0 &&
            Dot(Sub(q.pos, center), Sub(q.pos, center)) == ContactRadius * ContactRadius &&
            Length(Sub(q.pos, center), sqrt) == ContactRadius
  {
    var v := Sub(p.pos, center);
    assert Scale(-1.0, Sub(center, p.pos)) == v;
    var dist := sqrt(Dot(v, v));
    assert v != Zero;
    DotSelfPositive(v);
    SqrtPositive(sqrt, Dot(v, v));
    var n := ContactNormal(v, dist);
    assert n == Normalize(v, sqrt);
    NormalizeIsUnit(v, sqrt);
    var q := Bounce(p, n, dist);
    RemoveComponent(p.vel, n);
    ScaleInverse(dist, v);
    PushOut(p.pos, center, n, dist);
    DotScale(ContactRadius, n);
    SqrtOfSquare(sqrt, ContactRadius);
  }

  /** Taking away its component along a unit vector n leaves a velocity orthogonal to n. */
  lemma RemoveComponent(vel: Vec3, n: Vec3)
    requires Dot(n, n) == 1.0
    ensures Dot(Sub(vel, Scale(Dot(vel, n), n)), n) == 0.0
  {
    DotSubLeft(vel, Scale(Dot(vel, n), n), n);
    DotScaleLeft(Dot(vel, n), n, n);
  }

  /** Moving a point at dist * n from the centre by (0.55 - dist) * n puts it at 0.55 * n. */
  lemma PushOut(pos: Vec3, center: Vec3, n: Vec3, dist: real)
    requires Scale(dist, n) == Sub(pos, center)
    ensures Sub(Add(pos, Scale(ContactRadius - dist, n)), center) == Scale(ContactRadius, n)
  {
  }

  // ---------------------------------------------------------------------------
  // Aerodynamic drag (cloth.cpp only)
  // ---------------------------------------------------------------------------

  /**
   * The two neighbours that, with (i, j), form the triangle whose normal `n1` and
   * mean velocity drive the aero force, in the order they enter `cross`:
   *  - i < N-1, j < N-1: (i+1, j), (i+1, j+1)
   *  - i = N-1, j < N-1: (i-1, j+1), (i-1, j)
   *  - i = 0,   j = N-1: (i+1, j-1), (i+1, j)
   *  - otherwise:        (i-1, j), (i-1, j-1)
   */
  function AeroCorners(i: int, j: int): (r: (int, int, int, int))
    requires InGrid(i, j)
  {
    if i < N - 1 && j < N - 1 then (i + 1, j, i + 1, j + 1)
    else if i == N - 1 && j < N - 1 then (i - 1, j + 1, i - 1, j)
    else if i == 0 && j == N - 1 then (i + 1, j - 1, i + 1, j)
    else (i - 1, j, i - 1, j - 1)
  }

  /** In all four cases the sample reads two distinct in-range cells of the row above
      or below, each at most one column away, so no index leaves the grid. */
  lemma AeroCornersInGrid(i: int, j: int)
    requires InGrid(i, j)
    ensures var (a, b, c, d) := AeroCorners(i, j);
      InGrid(a, b) && InGrid(c, d) && (a, b) != (c, d) &&
      a == c && (a == i + 1 || a == i - 1) &&
      -1 <= b - j <= 1 && -1 <= d - j <= 1
  {
  }

  /** `(sqrt(dot(vel,vel))*dot(vel,n1)) / (-4.0f*sqrt(dot(n1,n1)))`, with no force when
      the sample triangle is degenerate. */
  function AeroCoefficient(vel: Vec3, n1: Vec3, sqrt: real -> real): real {
    var area := sqrt(Dot(n1, n1));
    if area == 0.0 then 0.0 else (sqrt(Dot(vel, vel)) * Dot(vel, n1)) / (-4.0 * area)
  }

  /** Under a true square root the aero force never pushes along the mean velocity:
      va * dot(vel, n1) <= 0. */
  lemma AeroOpposesFlow(vel: Vec3, n1: Vec3, sqrt: real -> real)
    requires IsSqrt(sqrt)
    ensures AeroCoefficient(vel, n1, sqrt) * Dot(vel, n1) <= 0.0
  {
    var area := sqrt(Dot(n1, n1));
    if area != 0.0 {
      var speed := sqrt(Dot(vel, vel));
      var d := Dot(vel, n1);
      LengthNonNegative(n1, sqrt);
      LengthNonNegative(vel, sqrt);
      assert AeroCoefficient(vel, n1, sqrt) == (speed * d) / (-4.0 * area);
      DragSign(speed, d, area);
    }
  }

  /** ((speed * d) / (-4 * area)) * d <= 0 for speed >= 0 and area > 0. */
  lemma DragSign(speed: real, d: real, area: real)
    requires speed >= 0.0 && area > 0.0
    ensures ((speed * d) / (-4.0 * area)) * d <= 0.0
  {
    var q := (speed * d) / (-4.0 * area);
    assert q * (-4.0 * area) == speed * d;
    if d > 0.0 {
      assert speed * d >= 0.0;
      assert q <= 0.0;
    } else if d < 0.0 {
      assert speed * d <= 0.0;
      assert q >= 0.0;
    }
  }

  /** The free-flight update of cloth.cpp's `update`: wind and gravity, the aero
      force from the sample triangle, a step of `vel*dt`, then the floor clamp. */
  function ClothFree(env: Env, s: seq<Point>, k: int): (r: Point)
    requires |s| == Cells && 0 <= k < Cells
  {
    var p := s[k];
    var vel1 := Add(p.vel, Vec3(env.wind * env.dt, ClothGravity, 0.0));
    var (a, b, c, d) := AeroCorners(Row(k), Col(k));
    IdxRoundTrip(Row(k), Col(k));
    AeroCornersInGrid(Row(k), Col(k));
    var e0 := s[Idx(a, b)];
    var e1 := s[Idx(c, d)];
    var mean := Scale(1.0 / 3.0, Add(Add(vel1, e0.vel), e1.vel));
    var n1 := Cross(Sub(e0.pos, p.pos), Sub(e1.pos, p.pos));
    var vel2 := Add(vel1, Scale(AeroCoefficient(mean, n1, env.sqrt), n1));
    p.(vel := vel2, pos := ClampToFloor(Add(p.pos, Scale(env.dt, vel2))))
  }

  // ---------------------------------------------------------------------------
  // The shading normal
  // ---------------------------------------------------------------------------

  /** `cross(b, a)` with a, b the normalised offsets to the two `NormalNeighbours`. */
  function NormalAt(s: seq<Point>, k: int, sqrt: real -> real): Vec3
    requires |s| == Cells && 0 <= k < Cells
  {
    var (n0, n1) := NormalNeighbours(k);
    var a := Normalize(Sub(s[n0].pos, s[k].pos), sqrt);
    var b := Normalize(Sub(s[n1].pos, s[k].pos), sqrt);
    Cross(b, a)
  }

  /** The recomputed normal is orthogonal to both offsets it was built from. */
  lemma NormalPerpendicular(s: seq<Point>, k: int, sqrt: real -> real)
    requires |s| == Cells && 0 <= k < Cells
    ensures Dot(NormalAt(s, k, sqrt), Sub(s[NormalNeighbours(k).0].pos, s[k].pos)) == 0.0
    ensures Dot(NormalAt(s, k, sqrt), Sub(s[NormalNeighbours(k).1].pos, s[k].pos)) == 0.0
  {
    var (n0, n1) := NormalNeighbours(k);
    var va := Sub(s[n0].pos, s[k].pos);
    var vb := Sub(s[n1].pos, s[k].pos);
    var a := Normalize(va, sqrt);
    var b := Normalize(vb, sqrt);
    OrthogonalToNormalized(Cross(b, a), va, sqrt);
    OrthogonalToNormalized(Cross(b, a), vb, sqrt);
  }

  /** If x is orthogonal to normalize(v) it is orthogonal to v, unless the
      normalisation degenerates, in which case x is built from the zero vector. */
  lemma OrthogonalToNormalized(x: Vec3, v: Vec3, sqrt: real -> real)
    requires Dot(x, Normalize(v, sqrt)) == 0.0
    requires Normalize(v, sqrt) == Zero ==> x == Zero
    ensures Dot(x, v) == 0.0
  {
    var m := Length(v, sqrt);
    if m != 0.0 {
      DotScaleRight(x, 1.0 / m, v);
    }
  }

  /** p with its normal recomputed from the grid in which p has taken k's place. */
  function WithNormal(s: seq<Point>, k: int, p: Point, sqrt: real -> real): (r: Point)
    requires |s| == Cells && 0 <= k < Cells
    ensures r == p.(norm := r.norm)
  {
    p.(norm := NormalAt(s[k := p], k, sqrt))
  }

  // ---------------------------------------------------------------------------
  // The four rules
  // ---------------------------------------------------------------------------

  /** cloth.cpp `update`'s branch for a particle off the floor: pinned row, sphere
      contact around `sphereCenter`, or free flight. Only pos and vel change. */
  function ClothBranch(env: Env, s: seq<Point>, k: int): (r: Point)
    requires |s| == Cells && 0 <= k < Cells
    ensures r == s[k].(pos := r.pos, vel := r.vel)
  {
    var p := s[k];
    var v := Sub(p.pos, env.sphereCenter);
    var dist := env.sqrt(Dot(v, v));
    if Pinned(k, env.drop) then p.(vel := Zero)
    else if dist <= ContactRadius then Bounce(p, ContactNormal(Scale(-1.0, Sub(env.sphereCenter, p.pos)), dist), dist)
    else ClothFree(env, s, k)
  }

  /** cloth.cpp `update`, after the spring passes: skip a particle on the floor,
      otherwise take the branch and recompute the normal. */
  function ClothEulerPoint(env: Env, s: seq<Point>, k: int): (r: Point)
    requires |s| == Cells && 0 <= k < Cells
    ensures Resting(s[k].pos) ==> r == s[k]
    ensures r == s[k].(pos := r.pos, vel := r.vel, norm := r.norm)
  {
    var p := s[k];
    if Resting(p.pos) then p
    else WithNormal(s, k, ClothBranch(env, s, k), env.sqrt)
  }

  /** A held top-row particle off the floor stops and stays where it is. */
  lemma ClothPinned(env: Env, s: seq<Point>, k: int)
    requires |s| == Cells && 0 <= k < Cells && !Resting(s[k].pos) && Pinned(k, env.drop)
    ensures ClothEulerPoint(env, s, k).vel == Zero
    ensures ClothEulerPoint(env, s, k).pos == s[k].pos
  {
  }

  /** A free particle inside the sphere ends on its surface with no normal velocity. */
  lemma ClothContact(env: Env, s: seq<Point>, k: int)
    requires |s| == Cells && 0 <= k < Cells && IsSqrt(env.sqrt)
    requires !Resting(s[k].pos) && !Pinned(k, env.drop) && s[k].pos != env.sphereCenter
    requires Length(Sub(s[k].pos, env.sphereCenter), env.sqrt) <= ContactRadius
    ensures var p := ClothEulerPoint(env, s, k);
            var n := Normalize(Sub(s[k].pos, env.sphereCenter), env.sqrt);
            Length(Sub(p.pos, env.sphereCenter), env.sqrt) == ContactRadius &&
            Dot(p.vel, n) == 0.0
  {
    var v := Sub(s[k].pos, env.sphereCenter);
    assert Scale(-1.0, Sub(env.sphereCenter, s[k].pos)) == v;
    var dist := env.sqrt(Dot(v, v));
    assert ContactNormal(v, dist) == Normalize(v, env.sqrt);
    BounceGeometry(s[k], env.sphereCenter, env.sqrt);
  }

  /** A particle in free flight never ends below the floor. */
  lemma ClothFreeAboveFloor(env: Env, s: seq<Point>, k: int)
    requires |s| == Cells && 0 <= k < Cells
    requires !Resting(s[k].pos) && !Pinned(k, env.drop)
    requires Length(Sub(s[k].pos, env.sphereCenter), env.sqrt) > ContactRadius
    ensures ClothEulerPoint(env, s, k).pos.y >= FloorY
  {
  }

  /** cloth.cpp `midpointUpdate`, `//find state at 1/2 timestep`: a particle off the
      floor gets wind and gravity on futureVel and half a step on futurePos. */
  function HalfStepPoint(env: Env, s: seq<Point>, k: int): (r: Point)
    requires |s| == Cells && 0 <= k < Cells
    ensures r == s[k].(futureVel := r.futureVel, futurePos := r.futurePos)
  {
    var p := s[k];
    if Resting(p.pos) then p
    else
      var fv := Add(p.futureVel, Vec3(env.wind, ClothGravity, 0.0));
      p.(futureVel := fv, futurePos := Add(p.futurePos, Scale(env.dt / 2.0, fv)))
  }

  /** The contact branch of `midpointUpdate`, which bounces with futureVel. Its guard
      ends in `&& false`, so the rule below never takes it. */
  function MidpointBounce(p: Point, n: Vec3, dist: real): Point {
    p.(vel := Sub(p.vel, Scale(Dot(p.futureVel, n), n)),
       pos := Add(p.pos, Scale(ContactRadius - dist, n)))
  }

  /** The branch of `midpointUpdate`'s last loop, before futureVel and futurePos are
      synchronised. */
  function MidpointBranch(env: Env, s: seq<Point>, k: int): (r: Point)
    requires |s| == Cells && 0 <= k < Cells
    ensures r == s[k].(pos := r.pos, vel := r.vel)
  {
    var p := s[k];
    var v := Sub(p.futurePos, env.sphereCenter);
    var dist := env.sqrt(Dot(v, v));
    if Pinned(k, env.drop) then p.(vel := Zero)
    else if dist <= ContactRadius && false then
      MidpointBounce(p, ContactNormal(Scale(-1.0, Sub(env.sphereCenter, p.futurePos)), dist), dist)
    else
      p.(vel := Add(p.vel, Vec3(env.wind, ClothGravity, 0.0)),
         pos := ClampToFloor(Add(p.pos, Scale(env.dt, p.futureVel))))
  }

  /** cloth.cpp `midpointUpdate`, last loop: skip particles whose predicted position is
      on the floor; otherwise the branch, then `futureVel = vel; futurePos = pos;`,
      then the normal. */
  function MidpointPoint(env: Env, s: seq<Point>, k: int): (r: Point)
    requires |s| == Cells && 0 <= k < Cells
    ensures Resting(s[k].futurePos) ==> r == s[k]
    ensures !Resting(s[k].futurePos) ==> r.futureVel == r.vel && r.futurePos == r.pos
    ensures r.texCoord == s[k].texCoord
  {
    var p := s[k];
    if Resting(p.futurePos) then p
    else
      var q := MidpointBranch(env, s, k);
      WithNormal(s, k, q.(futureVel := q.vel, futurePos := q.pos), env.sqrt)
  }

  /** The sphere never influences the midpoint rule. */
  lemma MidpointIgnoresCenter(env: Env, center: Vec3, s: seq<Point>, k: int)
    requires |s| == Cells && 0 <= k < Cells
    ensures MidpointPoint(env, s, k) == MidpointPoint(env.(sphereCenter := center), s, k)
  {
  }

  /** A held top-row particle stops where it is, its prediction reset to match. */
  lemma MidpointPinnedPoint(env: Env, s: seq<Point>, k: int)
    requires |s| == Cells && 0 <= k < Cells && !Resting(s[k].futurePos) && Pinned(k, env.drop)
    ensures MidpointPoint(env, s, k).vel == Zero && MidpointPoint(env, s, k).futureVel == Zero
    ensures MidpointPoint(env, s, k).pos == s[k].pos
  {
  }

  /** clothBackup.cpp `update`'s branch for a particle off the floor: the sphere sits
      at the origin, there is no wind and no aero force, and gravity is scaled by dt. */
  function BackupBranch(env: Env, s: seq<Point>, k: int): (r: Point)
    requires |s| == Cells && 0 <= k < Cells
    ensures r == s[k].(pos := r.pos, vel := r.vel)
  {
    var p := s[k];
    var dist := env.sqrt(Dot(p.pos, p.pos));
    if Pinned(k, env.drop) then p.(vel := Zero)
    else if dist <= ContactRadius then Bounce(p, ContactNormal(p.pos, dist), dist)
    else
      var vel1 := Add(p.vel, Scale(env.dt, Vec3(0.0, BackupGravity, 0.0)));
      p.(vel := vel1, pos := ClampToFloor(Add(p.pos, Scale(env.dt, vel1))))
  }

  /** clothBackup.cpp `update`, after the spring passes: skip a particle on the floor,
      otherwise take the branch and recompute the normal. */
  function BackupPoint(env: Env, s: seq<Point>, k: int): (r: Point)
    requires |s| == Cells && 0 <= k < Cells
    ensures Resting(s[k].pos) ==> r == s[k]
    ensures r == s[k].(pos := r.pos, vel := r.vel, norm := r.norm)
  {
    var p := s[k];
    if Resting(p.pos) then p
    else WithNormal(s, k, BackupBranch(env, s, k), env.sqrt)
  }

  /** A held top-row particle off the floor stops and stays where it is. */
  lemma BackupPinnedPoint(env: Env, s: seq<Point>, k: int)
    requires |s| == Cells && 0 <= k < Cells && !Resting(s[k].pos) && Pinned(k, env.drop)
    ensures BackupPoint(env, s, k).vel == Zero
    ensures BackupPoint(env, s, k).pos == s[k].pos
  {
  }

  /** A free particle within 0.55 of the origin ends on that sphere with no radial
      velocity. */
  lemma BackupContactPoint(env: Env, s: seq<Point>, k: int)
    requires |s| == Cells && 0 <= k < Cells && IsSqrt(env.sqrt)
    requires !Resting(s[k].pos) && !Pinned(k, env.drop)
    requires s[k].pos != Zero && Length(s[k].pos, env.sqrt) <= ContactRadius
    ensures var p := BackupPoint(env, s, k);
            Length(p.pos, env.sqrt) == ContactRadius &&
            Dot(p.vel, Normalize(s[k].pos, env.sqrt)) == 0.0
  {
    var pos := s[k].pos;
    assert Sub(pos, Zero) == pos && Scale(-1.0, Sub(Zero, pos)) == pos;
    var dist := env.sqrt(Dot(pos, pos));
    assert ContactNormal(pos, dist) == Normalize(pos, env.sqrt);
    BounceGeometry(s[k], Zero, env.sqrt);
    var q := BackupPoint(env, s, k);
    assert Sub(q.pos, Zero) == q.pos;
  }

  /** Free fall: vel gains exactly (0, -2 dt, 0), then pos moves by vel * dt and is
      clamped at the floor. */
  lemma BackupFreeFallPoint(env: Env, s: seq<Point>, k: int)
    requires |s| == Cells && 0 <= k < Cells
    requires !Resting(s[k].pos) && !Pinned(k, env.drop)
    requires Length(s[k].pos, env.sqrt) > ContactRadius
    ensures var v := s[k].vel;
            var p := BackupPoint(env, s, k);
            p.vel == Vec3(v.x, v.y - 2.0 * env.dt, v.z) &&
            p.pos == ClampToFloor(Add(s[k].pos, Scale(env.dt, p.vel))) &&
            p.pos.y >= FloorY
  {
  }
}
