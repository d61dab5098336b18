/**
 * The spring passes at the start of `update` (cloth.cpp and clothBackup.cpp) and of
 * `midpointUpdate` (cloth.cpp). Every pass walks the structural springs of one
 * direction in loop order, and each spring pushes its two end particles apart or
 * together along the spring axis with a damped Hooke force.
 *
 * Vertical spring t joins flat indices t and t + N (row i, column j, t = i*N + j);
 * horizontal spring t joins (i, j) and (i, j + 1) with t = i*(N-1) + j.
 */
module Springs {
  import opened VecMath
  import opened Grid

  /** Stiffness, damping and rest length. */
  datatype SpringConstants = SpringConstants(ks: real, kd: real, l0: real)

  /** cloth.cpp: `ks` is a mutable global (35 at start, changed by the arrow keys),
      `kd = 0.5f`, `l0 = 0.13f`. */
  function ClothConstants(ks: real): SpringConstants {
    SpringConstants(ks, 0.5, RestLength)
  }

  /** clothBackup.cpp: `ks = 15`, `kd = .8`, `l0 = .13`. */
  const BackupConstants: SpringConstants := SpringConstants(15.0, 0.8, 0.13)

  /**
   * Which fields a spring loop reads and writes.
   *  - Euler: update's loops; read pos and vel, accumulate into vel.
   *  - PredictVertical: midpointUpdate's first vertical loop; read pos and vel,
   *    ASSIGN futureVel = vel +/- impulse.
   *  - PredictHorizontal: midpointUpdate's first horizontal loop; read pos and vel,
   *    accumulate into futureVel.
   *  - Correct: midpointUpdate's second pair of loops; read futurePos and futureVel,
   *    accumulate into vel.
   */
  datatype Stage = Euler | PredictVertical | PredictHorizontal | Correct

  datatype Direction = Vertical | Horizontal

  /** Rows of springs in a pass: N - 1 rows of vertical springs, N rows of horizontal ones. */
  function Rows(dir: Direction): int {
    if dir == Vertical then 14 else 15
  }

  /** Springs per row: N vertical ones, N - 1 horizontal ones. */
  function RowLength(dir: Direction): int {
    if dir == Vertical then 15 else 14
  }

  /**
   * The impulse `f*e` a spring adds to its first end (and takes from its second):
   * e is the unit vector from a to b, l the distance,
   * f = -ks*(l0 - l) - kd*(dot(e, va) - dot(e, vb)).
   * A zero-length spring, where the source divides by zero, gives no impulse here.
   */
  function SpringImpulse(pa: Vec3, pb: Vec3, va: Vec3, vb: Vec3, c: SpringConstants, sqrt: real -> real): (r: Vec3)
    ensures pa == pb ==> r == Zero
  {
    var e := Sub(pb, pa);
    var l := sqrt(Dot(e, e));
    if l == 0.0 || pa == pb then Zero
    else
      var u := Scale(1.0 / l, e);
      Scale(AxialForce(l, u, va, vb, c), u)
  }

  /** The signed force along the unit axis u of a spring of length l. */
  function AxialForce(l: real, u: Vec3, va: Vec3, vb: Vec3, c: SpringConstants): real {
    (-1.0 * c.ks * (c.l0 - l)) - (c.kd * (Dot(u, va) - Dot(u, vb)))
  }

  /** The impulse acts along the spring axis. */
  lemma SpringImpulseAlongAxis(pa: Vec3, pb: Vec3, va: Vec3, vb: Vec3, c: SpringConstants, sqrt: real -> real)
    ensures Cross(SpringImpulse(pa, pb, va, vb, c, sqrt), Sub(pb, pa)) == Zero
  {
    var e := Sub(pb, pa);
    var l := sqrt(Dot(e, e));
    if l == 0.0 || pa == pb {
    } else {
      var u := Scale(1.0 / l, e);
      var f := AxialForce(l, u, va, vb, c);
      assert SpringImpulse(pa, pb, va, vb, c, sqrt) == Scale(f, u);
      CrossScaledTwice(f, 1.0 / l, e);
    }
  }

  /** Newton's third law: swapping the ends negates the impulse. */
  lemma SpringImpulseAntisymmetric(pa: Vec3, pb: Vec3, va: Vec3, vb: Vec3, c: SpringConstants, sqrt: real -> real)
    ensures SpringImpulse(pb, pa, vb, va, c, sqrt) == Scale(-1.0, SpringImpulse(pa, pb, va, vb, c, sqrt))
  {
    var e := Sub(pb, pa);
    var e' := Sub(pa, pb);
    assert Dot(e', e') == Dot(e, e);
    var l := sqrt(Dot(e, e));
    if l != 0.0 && pa != pb {
      var u := Scale(1.0 / l, e);
      var u' := Scale(1.0 / l, e');
      assert u' == Scale(-1.0, u);
      DotScaleLeft(-1.0, u, va);
      DotScaleLeft(-1.0, u, vb);
    }
  }

  /** A spring at its rest length whose ends move alike along it gives no impulse. */
  lemma SpringAtRest(pa: Vec3, pb: Vec3, va: Vec3, vb: Vec3, c: SpringConstants, sqrt: real -> real)
    requires IsSqrt(sqrt) && c.l0 >= 0.0
    requires Dot(Sub(pb, pa), Sub(pb, pa)) == c.l0 * c.l0
    requires Dot(Sub(pb, pa), va) == Dot(Sub(pb, pa), vb)
    ensures SpringImpulse(pa, pb, va, vb, c, sqrt) == Zero
  {
    var e := Sub(pb, pa);
    SqrtOfSquare(sqrt, c.l0);
    var l := sqrt(Dot(e, e));
    assert l == c.l0;
    if l != 0.0 && pa != pb {
      var u := Scale(1.0 / l, e);
      DotScaleLeft(1.0 / l, e, va);
      DotScaleLeft(1.0 / l, e, vb);
      ForceAtRest(l, u, va, vb, c);
      assert SpringImpulse(pa, pb, va, vb, c, sqrt) == Scale(0.0, u);
    }
  }

  /** At rest length, with equal velocity components along the axis, the force is zero. */
  lemma ForceAtRest(l: real, u: Vec3, va: Vec3, vb: Vec3, c: SpringConstants)
    requires l == c.l0 && Dot(u, va) == Dot(u, vb)
    ensures AxialForce(l, u, va, vb, c) == 0.0
  {
  }

  // ---------------------------------------------------------------------------
  // One spring
  // ---------------------------------------------------------------------------

  /** The two particles joined by spring (i, j) of a pass: (i, j) and (i+1, j) for
      vertical springs, (i, j) and (i, j+1) for horizontal ones. */
  function Ends(dir: Direction, i: int, j: int): (r: (int, int))
    requires 0 <= i < Rows(dir) && 0 <= j < RowLength(dir)
    ensures 0 <= r.0 < Cells && 0 <= r.1 < Cells && r.0 != r.1
  {
    match dir
    case Vertical => (Idx(i, j), Idx(i + 1, j))
    case Horizontal => (Idx(i, j), Idx(i, j + 1))
  }

  /** Spring (i, j) starts at particle (i, j) and ends at its grid neighbour one row
      down (vertical) or one column right (horizontal). */
  lemma EndsAreGridNeighbours(dir: Direction, i: int, j: int)
    requires 0 <= i < Rows(dir) && 0 <= j < RowLength(dir)
    ensures Row(Ends(dir, i, j).0) == i && Col(Ends(dir, i, j).0) == j
    ensures dir == Vertical ==> Row(Ends(dir, i, j).1) == i + 1 && Col(Ends(dir, i, j).1) == j
    ensures dir == Horizontal ==> Row(Ends(dir, i, j).1) == i && Col(Ends(dir, i, j).1) == j + 1
  {
    IdxRoundTrip(i, j);
    if dir == Vertical {
      IdxRoundTrip(i + 1, j);
    } else {
      IdxRoundTrip(i, j + 1);
    }
  }

  /** The position a stage's springs read. */
  function SpringPos(p: Point, stage: Stage): Vec3 {
    if stage == Correct then p.futurePos else p.pos
  }

  /** The velocity a stage's springs read. */
  function SpringVel(p: Point, stage: Stage): Vec3 {
    if stage == Correct then p.futureVel else p.vel
  }

  /** The velocity a stage's springs write. */
  function Written(p: Point, stage: Stage): Vec3 {
    if stage == Euler || stage == Correct then p.vel else p.futureVel
  }

  /** p with the written velocity replaced by w. */
  function WithWritten(p: Point, stage: Stage, w: Vec3): Point {
    if stage == Euler || stage == Correct then p.(vel := w) else p.(futureVel := w)
  }

  /** p with the written velocity blanked: everything a stage's springs leave alone. */
  function Unwritten(p: Point, stage: Stage): Point {
    WithWritten(p, stage, Zero)
  }

  /** One end's update: `vel += d`, `futureVel = vel + d` or `futureVel += d`. */
  function Push(p: Point, stage: Stage, d: Vec3): (r: Point)
    ensures Unwritten(r, stage) == Unwritten(p, stage)
    ensures stage != PredictVertical ==> Written(r, stage) == Add(Written(p, stage), d)
    ensures stage == PredictVertical ==> Written(r, stage) == Add(p.vel, d)
  {
    match stage
    case Euler => p.(vel := Add(p.vel, d))
    case Correct => p.(vel := Add(p.vel, d))
    case PredictVertical => p.(futureVel := Add(p.vel, d))
    case PredictHorizontal => p.(futureVel := Add(p.futureVel, d))
  }

  /**
   * A spring law: the impulse given the two end positions and velocities. The
   * passes below hold for any law; the simulation uses `HookeLaw`.
   */
  type Law = (Vec3, Vec3, Vec3, Vec3) -> Vec3

  /** The law of both source files: `SpringImpulse` with fixed constants. */
  function HookeLaw(c: SpringConstants, sqrt: real -> real): Law {
    (pa: Vec3, pb: Vec3, va: Vec3, vb: Vec3) => SpringImpulse(pa, pb, va, vb, c, sqrt)
  }

  /** The impulse of the spring from a to b, read from s. */
  function ImpulseIn(s: seq<Point>, a: int, b: int, stage: Stage, law: Law): Vec3
    requires 0 <= a < |s| && 0 <= b < |s|
  {
    law(SpringPos(s[a], stage), SpringPos(s[b], stage), SpringVel(s[a], stage), SpringVel(s[b], stage))
  }

  /** The grid after the spring from a to b acted. */
  function ApplySpring(s: seq<Point>, a: int, b: int, stage: Stage, law: Law): (r: seq<Point>)
    requires 0 <= a < |s| && 0 <= b < |s| && a != b
    ensures |r| == |s|
  {
    var f := ImpulseIn(s, a, b, stage, law);
    s[a := Push(s[a], stage, f)][b := Push(s[b], stage, Scale(-1.0, f))]
  }

  /** Row and column bounds of a point part-way through a pass. */
  predicate PassPoint(dir: Direction, i: int, j: int) {
    0 <= i <= Rows(dir) && 0 <= j <= RowLength(dir) && (i < Rows(dir) || j == 0)
  }

  /** The grid after the springs of rows before i, and of row i before column j, acted
      in loop order. */
  function Pass(s: seq<Point>, dir: Direction, stage: Stage, law: Law, i: int, j: int): (r: seq<Point>)
    requires |s| == Cells && PassPoint(dir, i, j)
    ensures |r| == Cells
    decreases i, j
  {
    if j == 0 then
      if i == 0 then s else Pass(s, dir, stage, law, i - 1, RowLength(dir))
    else
      ApplySpring(Pass(s, dir, stage, law, i, j - 1), Ends(dir, i, j - 1).0, Ends(dir, i, j - 1).1, stage, law)
  }

  /** No stage writes pos. */
  lemma UnwrittenKeepsPos(p: Point, q: Point, stage: Stage)
    requires Unwritten(p, stage) == Unwritten(q, stage)
    ensures p.pos == q.pos
  {
    assert Unwritten(p, stage).pos == Unwritten(q, stage).pos;
  }

  /** The grid after a whole pass. */
  function FullPass(s: seq<Point>, dir: Direction, stage: Stage, law: Law): (r: seq<Point>)
    requires |s| == Cells
    ensures |r| == Cells
  {
    Pass(s, dir, stage, law, Rows(dir), 0)
  }

  // ---------------------------------------------------------------------------
  // The loops
  // ---------------------------------------------------------------------------

  /** The body of every spring loop: compute the impulse, then update both ends. */
  method SpringStep(cloth: array<Point>, a: int, b: int, stage: Stage, law: Law)
    requires cloth.Length == Cells && 0 <= a < Cells && 0 <= b < Cells && a != b
    modifies cloth
    ensures cloth[..] == ApplySpring(old(cloth[..]), a, b, stage, law)
  {
    var f := law(SpringPos(cloth[a], stage), SpringPos(cloth[b], stage),
                 SpringVel(cloth[a], stage), SpringVel(cloth[b], stage));
    cloth[a] := Push(cloth[a], stage, f);
    cloth[b] := Push(cloth[b], stage, Scale(-1.0, f));
  }

  /** The loop body for spring (i, j) of a pass, as one step of `Pass`. */
  method PassStep(cloth: array<Point>, dir: Direction, i: int, j: int, stage: Stage, law: Law, ghost s: seq<Point>)
    requires cloth.Length == Cells && |s| == Cells && 0 <= i < Rows(dir) && 0 <= j < RowLength(dir)
    requires cloth[..] == Pass(s, dir, stage, law, i, j)
    modifies cloth
    ensures cloth[..] == Pass(s, dir, stage, law, i, j + 1)
  {
    var (a, b) := Ends(dir, i, j);
    SpringStep(cloth, a, b, stage, law);
  }

  /** A spring loop nest: rows 0..N-2 of vertical springs or rows 0..N-1 of
      horizontal ones, each row in column order. */
  method SpringPass(cloth: array<Point>, dir: Direction, stage: Stage, law: Law)
    requires cloth.Length == Cells
    modifies cloth
    ensures cloth[..] == FullPass(old(cloth[..]), dir, stage, law)
  {
    ghost var s := cloth[..];
    for i := 0 to Rows(dir)
      invariant cloth[..] == Pass(s, dir, stage, law, i, 0)
    {
      PassRow(cloth, dir, i, stage, law, s);
    }
  }

  /** One pass of the inner loop: the springs of row i, (i, j)-(i+1, j) for every
      column j (vertical) or (i, j)-(i, j+1) for j < N-1 (horizontal). */
  method PassRow(cloth: array<Point>, dir: Direction, i: int, stage: Stage, law: Law, ghost s: seq<Point>)
    requires cloth.Length == Cells && 0 <= i < Rows(dir) && |s| == Cells
    requires cloth[..] == Pass(s, dir, stage, law, i, 0)
    modifies cloth
    ensures cloth[..] == Pass(s, dir, stage, law, i + 1, 0)
  {
    for j := 0 to RowLength(dir)
      invariant cloth[..] == Pass(s, dir, stage, law, i, j)
    {
      PassStep(cloth, dir, i, j, stage, law, s);
    }
  }

  // ---------------------------------------------------------------------------
  // What a pass preserves
  // ---------------------------------------------------------------------------

  /** r differs from s at most in the velocity the stage writes. */
  ghost predicate OnlyWrittenChanged(s: seq<Point>, r: seq<Point>, stage: Stage) {
    |r| == |s| && forall k :: 0 <= k < |s| ==> Unwritten(r[k], stage) == Unwritten(s[k], stage)
  }

  /** A pass changes nothing but the velocity its stage writes: positions, normals,
      texture coordinates and the other velocity are untouched. */
  lemma {:induction false} PassChangesOnlyWritten(s: seq<Point>, dir: Direction, stage: Stage, law: Law, i: int, j: int)
    requires |s| == Cells && PassPoint(dir, i, j)
    ensures OnlyWrittenChanged(s, Pass(s, dir, stage, law, i, j), stage)
    decreases i, j
  {
    if j == 0 {
      if i > 0 {
        PassChangesOnlyWritten(s, dir, stage, law, i - 1, RowLength(dir));
      }
    } else {
      PassChangesOnlyWritten(s, dir, stage, law, i, j - 1);
      var prev := Pass(s, dir, stage, law, i, j - 1);
      var (a, b) := Ends(dir, i, j - 1);
      ApplySpringChangesOnlyWritten(prev, a, b, stage, law);
      OnlyWrittenChangedTrans(s, prev, Pass(s, dir, stage, law, i, j), stage);
    }
  }

  /** One spring writes only the stage's velocity field of its two ends. */
  lemma ApplySpringChangesOnlyWritten(s: seq<Point>, a: int, b: int, stage: Stage, law: Law)
    requires 0 <= a < |s| && 0 <= b < |s| && a != b
    ensures OnlyWrittenChanged(s, ApplySpring(s, a, b, stage, law), stage)
  {
  }

  lemma OnlyWrittenChangedTrans(s: seq<Point>, t: seq<Point>, r: seq<Point>, stage: Stage)
    requires OnlyWrittenChanged(s, t, stage) && OnlyWrittenChanged(t, r, stage)
    ensures OnlyWrittenChanged(s, r, stage)
  {
  }

  /** The sum over all particles of the velocity a stage writes. */
  function Total(s: seq<Point>, stage: Stage): Vec3 {
    if |s| == 0 then Zero else Add(Total(s[..|s| - 1], stage), Written(s[|s| - 1], stage))
  }

  /** Replacing one particle changes the total by the change in its written velocity. */
  lemma {:induction false} TotalUpdate(s: seq<Point>, k: int, p: Point, stage: Stage)
    requires 0 <= k < |s|
    ensures Total(s[k := p], stage) == Add(Sub(Total(s, stage), Written(s[k], stage)), Written(p, stage))
  {
    var t := s[k := p];
    if k == |s| - 1 {
      assert t[..|t| - 1] == s[..|s| - 1];
    } else {
      assert t[..|t| - 1] == s[..|s| - 1][k := p];
      TotalUpdate(s[..|s| - 1], k, p, stage);
      Rearrange(Total(s[..|s| - 1], stage), Written(s[k], stage), Written(p, stage), Written(s[|s| - 1], stage));
    }
  }

  lemma Rearrange(a: Vec3, b: Vec3, c: Vec3, d: Vec3)
    ensures Add(Add(Sub(a, b), c), d) == Add(Sub(Add(a, d), b), c)
  {
  }

  /** A spring of an accumulating stage moves velocity from one end to the other. */
  lemma ApplySpringKeepsTotal(s: seq<Point>, a: int, b: int, stage: Stage, law: Law)
    requires 0 <= a < |s| && 0 <= b < |s| && a != b && stage != PredictVertical
    ensures Total(ApplySpring(s, a, b, stage, law), stage) == Total(s, stage)
  {
    var f := ImpulseIn(s, a, b, stage, law);
    var s1 := s[a := Push(s[a], stage, f)];
    TotalUpdate(s, a, Push(s[a], stage, f), stage);
    TotalUpdate(s1, b, Push(s[b], stage, Scale(-1.0, f)), stage);
  }

  /**
   * The Euler passes, the predicting horizontal pass and the correcting passes
   * leave the sum of the velocity they write unchanged: every spring adds `f*e`
   * to one end and subtracts it from the other.
   */
  lemma {:induction false} PassKeepsTotal(s: seq<Point>, dir: Direction, stage: Stage, law: Law, i: int, j: int)
    requires |s| == Cells && PassPoint(dir, i, j) && stage != PredictVertical
    ensures Total(Pass(s, dir, stage, law, i, j), stage) == Total(s, stage)
    decreases i, j
  {
    if j == 0 {
      if i > 0 {
        PassKeepsTotal(s, dir, stage, law, i - 1, RowLength(dir));
      }
    } else {
      PassKeepsTotal(s, dir, stage, law, i, j - 1);
      PassStepKeepsTotal(s, dir, stage, law, i, j);
    }
  }

  /** One spring of a pass leaves the total where the springs before it left it. */
  lemma PassStepKeepsTotal(s: seq<Point>, dir: Direction, stage: Stage, law: Law, i: int, j: int)
    requires |s| == Cells && PassPoint(dir, i, j) && j > 0 && stage != PredictVertical
    ensures Total(Pass(s, dir, stage, law, i, j), stage) == Total(Pass(s, dir, stage, law, i, j - 1), stage)
  {
    var prev := Pass(s, dir, stage, law, i, j - 1);
    var (a, b) := Ends(dir, i, j - 1);
    ApplySpringKeepsTotal(prev, a, b, stage, law);
  }

  // ---------------------------------------------------------------------------
  // The predicting vertical pass assigns
  // ---------------------------------------------------------------------------

  /** Spring impulses of the predicting stages read only pos and vel, which those
      stages never write. */
  lemma PredictReadsUnwritten(s: seq<Point>, r: seq<Point>, a: int, b: int, stage: Stage, law: Law)
    requires stage == PredictVertical || stage == PredictHorizontal
    requires OnlyWrittenChanged(s, r, stage) && 0 <= a < |s| && 0 <= b < |s|
    ensures ImpulseIn(r, a, b, stage, law) == ImpulseIn(s, a, b, stage, law)
    ensures r[a].vel == s[a].vel && r[b].vel == s[b].vel
  {
    assert Unwritten(r[a], stage) == Unwritten(s[a], stage);
    assert Unwritten(r[b], stage) == Unwritten(s[b], stage);
  }

  /**
   * futureVel of particle k once the first t vertical springs of the predicting pass
   * have acted (t counts springs in loop order, so spring t starts at particle t):
   * a particle that was already the upper end of its own spring holds vel plus that
   * spring's impulse; one that so far was only the lower end of the spring above it
   * holds vel minus that impulse; the rest are untouched.
   */
  ghost function PredictedFutureVel(s: seq<Point>, law: Law, t: int, k: int): Vec3
    requires |s| == Cells && 0 <= k < Cells
  {
    if k < t && k + N < Cells then Add(s[k].vel, ImpulseIn(s, k, k + N, PredictVertical, law))
    else if N <= k && k - N < t then Add(s[k].vel, Scale(-1.0, ImpulseIn(s, k - N, k, PredictVertical, law)))
    else s[k].futureVel
  }

  lemma {:induction false} PredictVerticalPrefix(s: seq<Point>, law: Law, i: int, j: int)
    requires |s| == Cells && PassPoint(Vertical, i, j)
    ensures forall k :: 0 <= k < Cells ==>
      Pass(s, Vertical, PredictVertical, law, i, j)[k].futureVel == PredictedFutureVel(s, law, i * N + j, k)
    decreases i, j
  {
    if j == 0 {
      if i > 0 {
        PredictVerticalPrefix(s, law, i - 1, RowLength(Vertical));
      }
    } else {
      PredictVerticalPrefix(s, law, i, j - 1);
      PassChangesOnlyWritten(s, Vertical, PredictVertical, law, i, j - 1);
      forall k | 0 <= k < Cells
        ensures Pass(s, Vertical, PredictVertical, law, i, j)[k].futureVel == PredictedFutureVel(s, law, i * N + j, k)
      {
        PredictVerticalStep(s, law, i, j, k);
      }
    }
  }

  /** The spring that starts at particle i*N + j - 1 sets the futureVel of its two ends
      and of no other particle. */
  lemma PredictVerticalStep(s: seq<Point>, law: Law, i: int, j: int, k: int)
    requires |s| == Cells && PassPoint(Vertical, i, j) && j > 0 && 0 <= k < Cells
    requires OnlyWrittenChanged(s, Pass(s, Vertical, PredictVertical, law, i, j - 1), PredictVertical)
    requires Pass(s, Vertical, PredictVertical, law, i, j - 1)[k].futureVel == PredictedFutureVel(s, law, i * N + j - 1, k)
    ensures Pass(s, Vertical, PredictVertical, law, i, j)[k].futureVel == PredictedFutureVel(s, law, i * N + j, k)
  {
    var prev := Pass(s, Vertical, PredictVertical, law, i, j - 1);
    var a := Idx(i, j - 1);
    assert a == i * N + j - 1;
    assert Ends(Vertical, i, j - 1) == (a, a + N);
    PredictSpringAt(s, prev, law, a, k);
  }

  /** The vertical spring from particle a to a + N, acting on a state that so far has
      changed only futureVel, extends PredictedFutureVel by one spring. */
  lemma PredictSpringAt(s: seq<Point>, prev: seq<Point>, law: Law, a: int, k: int)
    requires |s| == Cells && 0 <= a && a + N < Cells && 0 <= k < Cells
    requires OnlyWrittenChanged(s, prev, PredictVertical)
    requires prev[k].futureVel == PredictedFutureVel(s, law, a, k)
    ensures ApplySpring(prev, a, a + N, PredictVertical, law)[k].futureVel == PredictedFutureVel(s, law, a + 1, k)
  {
    var r := ApplySpring(prev, a, a + N, PredictVertical, law);
    var f := ImpulseIn(prev, a, a + N, PredictVertical, law);
    if k == a {
      assert r[k] == Push(prev[a], PredictVertical, f);
      PredictReadsUnwritten(s, prev, a, a + N, PredictVertical, law);
    } else if k == a + N {
      assert r[k] == Push(prev[a + N], PredictVertical, Scale(-1.0, f));
      PredictReadsUnwritten(s, prev, a, a + N, PredictVertical, law);
    } else {
      assert r[k] == prev[k];
    }
  }


  /**
   * midpointUpdate's first vertical loop assigns `futureVel = vel +/- f*e` instead
   * of accumulating: afterwards every particle above the last row holds its own vel
   * plus the impulse of the spring to the particle below it, whatever futureVel held
   * before and whatever the spring above it contributed; a last-row particle holds
   * vel minus the impulse of the spring above it.
   */
  lemma PredictVerticalAssigns(s: seq<Point>, law: Law, k: int)
    requires |s| == Cells && 0 <= k < Cells
    ensures Row(k) < N - 1 ==>
      FullPass(s, Vertical, PredictVertical, law)[k].futureVel
        == Add(s[k].vel, ImpulseIn(s, k, k + N, PredictVertical, law))
    ensures Row(k) == N - 1 ==>
      FullPass(s, Vertical, PredictVertical, law)[k].futureVel
        == Add(s[k].vel, Scale(-1.0, ImpulseIn(s, k - N, k, PredictVertical, law)))
  {
    PredictVerticalPrefix(s, law, Rows(Vertical), 0);
  }
}
