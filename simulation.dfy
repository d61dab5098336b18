/**
 * One simulation step: cloth.cpp's `update` and `midpointUpdate` and clothBackup.cpp's
 * `update`. Each runs the spring passes of module Springs and then one or two sweeps
 * over every particle in row-major order, applying a rule of module Particles.
 *
 * Every method is proved against a function of the state before the step
 * (`ClothStep`, `MidpointStep`, `BackupStep`), and the lemmas below state what the
 * source promises about those functions particle by particle.
 */
module Simulation {
  import opened VecMath
  import opened Grid
  import opened Springs
  import opened Particles

  /** The new value of particle k given the grid as the loop finds it. */
  type ParticleRule = (seq<Point>, int) --> Point

  /** The rule may be applied at every particle of a full grid. */
  ghost predicate DefinedOnGrid(rule: ParticleRule) {
    forall t: seq<Point>, k: int :: |t| == Cells && 0 <= k < Cells ==> rule.requires(t, k)
  }

  /** The grid after the loop has visited particles 0 .. m-1. */
  function Sweep(rule: ParticleRule, s: seq<Point>, m: int): (r: seq<Point>)
    requires |s| == Cells && 0 <= m <= Cells && DefinedOnGrid(rule)
    ensures |r| == Cells
  {
    if m == 0 then s
    else
      var t := Sweep(rule, s, m - 1);
      t[m - 1 := rule(t, m - 1)]
  }

  /** A particle the loop has not reached yet is untouched. */
  lemma {:induction false} SweepNotYet(rule: ParticleRule, s: seq<Point>, m: int, k: int)
    requires |s| == Cells && 0 <= m <= k < Cells && DefinedOnGrid(rule)
    ensures Sweep(rule, s, m)[k] == s[k]
  {
    if m > 0 {
      SweepNotYet(rule, s, m - 1, k);
    }
  }

  /** A particle the loop has passed keeps the value its own turn gave it. */
  lemma {:induction false} SweepDone(rule: ParticleRule, s: seq<Point>, m: int, k: int)
    requires |s| == Cells && 0 <= k < m <= Cells && DefinedOnGrid(rule)
    ensures Sweep(rule, s, m)[k] == rule(Sweep(rule, s, k), k)
  {
    if m > k + 1 {
      SweepDone(rule, s, m - 1, k);
    }
  }

  /**
   * After the whole loop, particle k holds the rule applied to the grid as the loop
   * found it at k's turn, in which k itself still held its value from before the loop.
   */
  lemma SweepAt(rule: ParticleRule, s: seq<Point>, k: int)
    requires |s| == Cells && 0 <= k < Cells && DefinedOnGrid(rule)
    ensures Sweep(rule, s, Cells)[k] == rule(Sweep(rule, s, k), k)
    ensures Sweep(rule, s, k)[k] == s[k]
  {
    SweepDone(rule, s, Cells, k);
    SweepNotYet(rule, s, k, k);
  }

  /** Two rules that agree everywhere give the same sweep. */
  lemma {:induction false} SweepExtensional(r1: ParticleRule, r2: ParticleRule, s: seq<Point>, m: int)
    requires |s| == Cells && 0 <= m <= Cells && DefinedOnGrid(r1) && DefinedOnGrid(r2)
    requires forall t: seq<Point>, k: int :: |t| == Cells && 0 <= k < Cells ==> r1(t, k) == r2(t, k)
    ensures Sweep(r1, s, m) == Sweep(r2, s, m)
  {
    if m > 0 {
      SweepExtensional(r1, r2, s, m - 1);
    }
  }

  /** The per-particle loop: every row, every column, in order. */
  method SweepParticles(cloth: array<Point>, rule: ParticleRule)
    requires cloth.Length == Cells && DefinedOnGrid(rule)
    modifies cloth
    ensures cloth[..] == Sweep(rule, old(cloth[..]), Cells)
  {
    ghost var s := cloth[..];
    for i := 0 to N
      invariant cloth[..] == Sweep(rule, s, i * N)
    {
      SweepRow(cloth, rule, i, s);
    }
  }

  /** One row of the per-particle loop. */
  method SweepRow(cloth: array<Point>, rule: ParticleRule, i: int, ghost s: seq<Point>)
    requires cloth.Length == Cells && |s| == Cells && 0 <= i < N && DefinedOnGrid(rule)
    requires cloth[..] == Sweep(rule, s, i * N)
    modifies cloth
    ensures cloth[..] == Sweep(rule, s, i * N + N)
  {
    for j := 0 to N
      invariant cloth[..] == Sweep(rule, s, i * N + j)
    {
      cloth[i * N + j] := rule(cloth[..], i * N + j);
    }
  }

  // ---------------------------------------------------------------------------
  // The rules as loop bodies
  // ---------------------------------------------------------------------------

  function ClothEulerRule(env: Env): (r: ParticleRule)
    ensures DefinedOnGrid(r)
  {
    (t: seq<Point>, k: int) requires |t| == Cells && 0 <= k < Cells => ClothEulerPoint(env, t, k)
  }

  function HalfStepRule(env: Env): (r: ParticleRule)
    ensures DefinedOnGrid(r)
  {
    (t: seq<Point>, k: int) requires |t| == Cells && 0 <= k < Cells => HalfStepPoint(env, t, k)
  }

  function MidpointRule(env: Env): (r: ParticleRule)
    ensures DefinedOnGrid(r)
  {
    (t: seq<Point>, k: int) requires |t| == Cells && 0 <= k < Cells => MidpointPoint(env, t, k)
  }

  function BackupRule(env: Env): (r: ParticleRule)
    ensures DefinedOnGrid(r)
  {
    (t: seq<Point>, k: int) requires |t| == Cells && 0 <= k < Cells => BackupPoint(env, t, k)
  }

  // ---------------------------------------------------------------------------
  // Spring passes shared by both update functions
  // ---------------------------------------------------------------------------

  // The step functions below take the spring law as a parameter; the methods
  // instantiate it with `HookeLaw` and the constants of their file, and every lemma
  // about a step holds whatever law the springs follow.

  /** The grid after the two accumulating spring passes of `update`. */
  function EulerSprings(law: Law, s: seq<Point>): (r: seq<Point>)
    requires |s| == Cells
    ensures |r| == Cells
  {
    FullPass(FullPass(s, Vertical, Euler, law), Horizontal, Euler, law)
  }

  /** The accumulating spring passes leave every field but vel alone. */
  lemma EulerSpringsKeepPlace(law: Law, s: seq<Point>, k: int)
    requires |s| == Cells && 0 <= k < Cells
    ensures EulerSprings(law, s)[k] == s[k].(vel := EulerSprings(law, s)[k].vel)
  {
    var r1 := FullPass(s, Vertical, Euler, law);
    PassChangesOnlyWritten(s, Vertical, Euler, law, Rows(Vertical), 0);
    PassChangesOnlyWritten(r1, Horizontal, Euler, law, Rows(Horizontal), 0);
    assert Unwritten(r1[k], Euler) == Unwritten(s[k], Euler);
  }

  /** When every spring pushes its ends apart by opposite impulses, the two passes
      leave the sum of all velocities unchanged. */
  lemma EulerSpringsKeepMomentum(law: Law, s: seq<Point>)
    requires |s| == Cells
    ensures Total(EulerSprings(law, s), Euler) == Total(s, Euler)
  {
    PassKeepsTotal(s, Vertical, Euler, law, Rows(Vertical), 0);
    PassKeepsTotal(FullPass(s, Vertical, Euler, law), Horizontal, Euler, law, Rows(Horizontal), 0);
  }

  // ---------------------------------------------------------------------------
  // cloth.cpp update
  // ---------------------------------------------------------------------------

  /** The grid after cloth.cpp's update. */
  function ClothStep(law: Law, env: Env, s: seq<Point>): (r: seq<Point>)
    requires |s| == Cells
    ensures |r| == Cells
  {
    Sweep(ClothEulerRule(env), EulerSprings(law, s), Cells)
  }

  /** cloth.cpp `update(dt)`, with the global `ks` and the other globals as parameters. */
  method Update(cloth: array<Point>, ks: real, env: Env)
    requires cloth.Length == Cells
    modifies cloth
    ensures cloth[..] == ClothStep(HookeLaw(ClothConstants(ks), env.sqrt), env, old(cloth[..]))
  {
    var law := HookeLaw(ClothConstants(ks), env.sqrt);
    SpringPass(cloth, Vertical, Euler, law);
    SpringPass(cloth, Horizontal, Euler, law);
    SweepParticles(cloth, ClothEulerRule(env));
  }

  /** A particle lying on the floor when the step starts is skipped: its position and
      normal are left as they were. Only its velocity may change, by the springs. */
  lemma UpdateSkipsResting(law: Law, env: Env, s: seq<Point>, k: int)
    requires |s| == Cells && 0 <= k < Cells && Resting(s[k].pos)
    ensures ClothStep(law, env, s)[k] == s[k].(vel := ClothStep(law, env, s)[k].vel)
  {
    EulerSpringsKeepPlace(law, s, k);
    SweepAt(ClothEulerRule(env), EulerSprings(law, s), k);
  }

  /** While the cloth is held, every top-row particle off the floor ends the step at
      rest where it started. */
  lemma UpdatePinned(law: Law, env: Env, s: seq<Point>, k: int)
    requires |s| == Cells && 0 <= k < Cells && !Resting(s[k].pos) && Pinned(k, env.drop)
    ensures ClothStep(law, env, s)[k].vel == Zero
    ensures ClothStep(law, env, s)[k].pos == s[k].pos
  {
    var r := EulerSprings(law, s);
    EulerSpringsKeepPlace(law, s, k);
    SweepAt(ClothEulerRule(env), r, k);
    ClothPinned(env, Sweep(ClothEulerRule(env), r, k), k);
  }

  /**
   * Sphere contact: a free particle within 0.55 of `sphereCenter` (but not at it)
   * ends exactly 0.55 from the centre, with no velocity along the outward normal.
   */
  lemma UpdateContact(law: Law, env: Env, s: seq<Point>, k: int)
    requires |s| == Cells && 0 <= k < Cells && IsSqrt(env.sqrt)
    requires !Resting(s[k].pos) && !Pinned(k, env.drop)
    requires s[k].pos != env.sphereCenter
    requires Length(Sub(s[k].pos, env.sphereCenter), env.sqrt) <= ContactRadius
    ensures var p := ClothStep(law, env, s)[k];
            var n := Normalize(Sub(s[k].pos, env.sphereCenter), env.sqrt);
            Length(Sub(p.pos, env.sphereCenter), env.sqrt) == ContactRadius &&
            Dot(p.vel, n) == 0.0
  {
    var r := EulerSprings(law, s);
    EulerSpringsKeepPlace(law, s, k);
    SweepAt(ClothEulerRule(env), r, k);
    ClothContact(env, Sweep(ClothEulerRule(env), r, k), k);
  }

  /** A particle in free flight never ends below the floor. */
  lemma UpdateFreeAboveFloor(law: Law, env: Env, s: seq<Point>, k: int)
    requires |s| == Cells && 0 <= k < Cells
    requires !Resting(s[k].pos) && !Pinned(k, env.drop)
    requires Length(Sub(s[k].pos, env.sphereCenter), env.sqrt) > ContactRadius
    ensures ClothStep(law, env, s)[k].pos.y >= FloorY
  {
    var r := EulerSprings(law, s);
    EulerSpringsKeepPlace(law, s, k);
    SweepAt(ClothEulerRule(env), r, k);
    ClothFreeAboveFloor(env, Sweep(ClothEulerRule(env), r, k), k);
  }

  /** The step never changes a texture coordinate. */
  lemma UpdateKeepsTexture(law: Law, env: Env, s: seq<Point>, k: int)
    requires |s| == Cells && 0 <= k < Cells
    ensures ClothStep(law, env, s)[k].texCoord == s[k].texCoord
  {
    EulerSpringsKeepPlace(law, s, k);
    SweepAt(ClothEulerRule(env), EulerSprings(law, s), k);
  }

  // ---------------------------------------------------------------------------
  // cloth.cpp midpointUpdate
  // ---------------------------------------------------------------------------

  /** The grid after the predicting spring passes. */
  function PredictSprings(law: Law, s: seq<Point>): (r: seq<Point>)
    requires |s| == Cells
    ensures |r| == Cells
  {
    FullPass(FullPass(s, Vertical, PredictVertical, law), Horizontal, PredictHorizontal, law)
  }

  /** The grid after the predicting spring passes and the half step. */
  function MidpointHalf(law: Law, env: Env, s: seq<Point>): (r: seq<Point>)
    requires |s| == Cells
    ensures |r| == Cells
  {
    Sweep(HalfStepRule(env), PredictSprings(law, s), Cells)
  }

  /** The grid after the correcting spring passes. */
  function CorrectSprings(law: Law, h: seq<Point>): (r: seq<Point>)
    requires |h| == Cells
    ensures |r| == Cells
  {
    FullPass(FullPass(h, Vertical, Correct, law), Horizontal, Correct, law)
  }

  /** The grid after cloth.cpp's midpointUpdate. */
  function MidpointStep(law: Law, env: Env, s: seq<Point>): (r: seq<Point>)
    requires |s| == Cells
    ensures |r| == Cells
  {
    Sweep(MidpointRule(env), CorrectSprings(law, MidpointHalf(law, env, s)), Cells)
  }

  /** cloth.cpp `midpointUpdate(dt)`. */
  method MidpointUpdate(cloth: array<Point>, ks: real, env: Env)
    requires cloth.Length == Cells
    modifies cloth
    ensures cloth[..] == MidpointStep(HookeLaw(ClothConstants(ks), env.sqrt), env, old(cloth[..]))
  {
    var law := HookeLaw(ClothConstants(ks), env.sqrt);
    SpringPass(cloth, Vertical, PredictVertical, law);
    SpringPass(cloth, Horizontal, PredictHorizontal, law);
    SweepParticles(cloth, HalfStepRule(env));
    SpringPass(cloth, Vertical, Correct, law);
    SpringPass(cloth, Horizontal, Correct, law);
    SweepParticles(cloth, MidpointRule(env));
  }

  /** The predicting passes leave pos (and everything but the predicted fields) alone. */
  lemma PredictSpringsKeepPlace(law: Law, s: seq<Point>, k: int)
    requires |s| == Cells && 0 <= k < Cells
    ensures PredictSprings(law, s)[k].pos == s[k].pos
  {
    var p1 := FullPass(s, Vertical, PredictVertical, law);
    var p := FullPass(p1, Horizontal, PredictHorizontal, law);
    PassChangesOnlyWritten(s, Vertical, PredictVertical, law, Rows(Vertical), 0);
    PassChangesOnlyWritten(p1, Horizontal, PredictHorizontal, law, Rows(Horizontal), 0);
    UnwrittenKeepsPos(p1[k], s[k], PredictVertical);
    UnwrittenKeepsPos(p[k], p1[k], PredictHorizontal);
  }

  /** The correcting passes leave every field but vel alone. */
  lemma CorrectSpringsKeepPlace(law: Law, h: seq<Point>, k: int)
    requires |h| == Cells && 0 <= k < Cells
    ensures CorrectSprings(law, h)[k] == h[k].(vel := CorrectSprings(law, h)[k].vel)
  {
    var r1 := FullPass(h, Vertical, Correct, law);
    PassChangesOnlyWritten(h, Vertical, Correct, law, Rows(Vertical), 0);
    PassChangesOnlyWritten(r1, Horizontal, Correct, law, Rows(Horizontal), 0);
    assert Unwritten(r1[k], Correct) == Unwritten(h[k], Correct);
  }

  /** Every particle whose predicted position is off the floor ends the step with its
      predicted state synchronised to its actual state. */
  lemma MidpointSyncs(law: Law, env: Env, s: seq<Point>, k: int)
    requires |s| == Cells && 0 <= k < Cells && !Resting(MidpointHalf(law, env, s)[k].futurePos)
    ensures MidpointStep(law, env, s)[k].futureVel == MidpointStep(law, env, s)[k].vel
    ensures MidpointStep(law, env, s)[k].futurePos == MidpointStep(law, env, s)[k].pos
  {
    var h := MidpointHalf(law, env, s);
    CorrectSpringsKeepPlace(law, h, k);
    SweepAt(MidpointRule(env), CorrectSprings(law, h), k);
  }

  /** The sphere branch of midpointUpdate is dead: the step is the same wherever the
      sphere is. */
  lemma MidpointIgnoresSphere(law: Law, env: Env, s: seq<Point>, center: Vec3)
    requires |s| == Cells
    ensures MidpointStep(law, env, s) == MidpointStep(law, env.(sphereCenter := center), s)
  {
    var env' := env.(sphereCenter := center);
    HalfStepRulesAgree(env, env');
    SweepExtensional(HalfStepRule(env), HalfStepRule(env'), PredictSprings(law, s), Cells);
    var h := MidpointHalf(law, env, s);
    assert h == MidpointHalf(law, env', s);
    MidpointRulesAgree(env, center);
    SweepExtensional(MidpointRule(env), MidpointRule(env'), CorrectSprings(law, h), Cells);
  }

  lemma HalfStepRulesAgree(env: Env, env': Env)
    requires env' == env.(sphereCenter := env'.sphereCenter)
    ensures forall t: seq<Point>, k: int :: |t| == Cells && 0 <= k < Cells ==>
      HalfStepRule(env)(t, k) == HalfStepRule(env')(t, k)
  {
  }

  lemma MidpointRulesAgree(env: Env, center: Vec3)
    ensures forall t: seq<Point>, k: int :: |t| == Cells && 0 <= k < Cells ==>
      MidpointRule(env)(t, k) == MidpointRule(env.(sphereCenter := center))(t, k)
  {
    forall t: seq<Point>, k: int | |t| == Cells && 0 <= k < Cells
      ensures MidpointRule(env)(t, k) == MidpointRule(env.(sphereCenter := center))(t, k)
    {
      MidpointIgnoresCenter(env, center, t, k);
    }
  }

  /** While the cloth is held, a top-row particle whose predicted position is off the
      floor ends at rest where it started, its prediction reset to match. */
  lemma MidpointPinned(law: Law, env: Env, s: seq<Point>, k: int)
    requires |s| == Cells && 0 <= k < Cells && Pinned(k, env.drop)
    requires !Resting(MidpointHalf(law, env, s)[k].futurePos)
    ensures MidpointStep(law, env, s)[k].vel == Zero
    ensures MidpointStep(law, env, s)[k].futureVel == Zero
    ensures MidpointStep(law, env, s)[k].pos == s[k].pos
  {
    var p := PredictSprings(law, s);
    PredictSpringsKeepPlace(law, s, k);
    SweepAt(HalfStepRule(env), p, k);
    var h := MidpointHalf(law, env, s);
    var c := CorrectSprings(law, h);
    CorrectSpringsKeepPlace(law, h, k);
    SweepAt(MidpointRule(env), c, k);
    MidpointPinnedPoint(env, Sweep(MidpointRule(env), c, k), k);
  }

  // ---------------------------------------------------------------------------
  // clothBackup.cpp update
  // ---------------------------------------------------------------------------

  /** The grid after clothBackup.cpp's update. */
  function BackupStep(law: Law, env: Env, s: seq<Point>): (r: seq<Point>)
    requires |s| == Cells
    ensures |r| == Cells
  {
    Sweep(BackupRule(env), EulerSprings(law, s), Cells)
  }

  /** clothBackup.cpp `update(dt)`. */
  method BackupUpdate(cloth: array<Point>, env: Env)
    requires cloth.Length == Cells
    modifies cloth
    ensures cloth[..] == BackupStep(HookeLaw(BackupConstants, env.sqrt), env, old(cloth[..]))
  {
    var law := HookeLaw(BackupConstants, env.sqrt);
    SpringPass(cloth, Vertical, Euler, law);
    SpringPass(cloth, Horizontal, Euler, law);
    SweepParticles(cloth, BackupRule(env));
  }

  /** A particle on the floor is skipped: position and normal unchanged. */
  lemma BackupSkipsResting(law: Law, env: Env, s: seq<Point>, k: int)
    requires |s| == Cells && 0 <= k < Cells && Resting(s[k].pos)
    ensures BackupStep(law, env, s)[k] == s[k].(vel := BackupStep(law, env, s)[k].vel)
  {
    EulerSpringsKeepPlace(law, s, k);
    SweepAt(BackupRule(env), EulerSprings(law, s), k);
  }

  /** While the cloth is held, a top-row particle off the floor ends at rest where
      it started. */
  lemma BackupPinned(law: Law, env: Env, s: seq<Point>, k: int)
    requires |s| == Cells && 0 <= k < Cells && !Resting(s[k].pos) && Pinned(k, env.drop)
    ensures BackupStep(law, env, s)[k].vel == Zero
    ensures BackupStep(law, env, s)[k].pos == s[k].pos
  {
    var r := EulerSprings(law, s);
    EulerSpringsKeepPlace(law, s, k);
    SweepAt(BackupRule(env), r, k);
    BackupPinnedPoint(env, Sweep(BackupRule(env), r, k), k);
  }

  /** A free particle within 0.55 of the origin (but not at it) ends on the sphere of
      radius 0.55 around the origin, with no radial velocity. */
  lemma BackupContact(law: Law, env: Env, s: seq<Point>, k: int)
    requires |s| == Cells && 0 <= k < Cells && IsSqrt(env.sqrt)
    requires !Resting(s[k].pos) && !Pinned(k, env.drop)
    requires s[k].pos != Zero && Length(s[k].pos, env.sqrt) <= ContactRadius
    ensures var p := BackupStep(law, env, s)[k];
            Length(p.pos, env.sqrt) == ContactRadius &&
            Dot(p.vel, Normalize(s[k].pos, env.sqrt)) == 0.0
  {
    var r := EulerSprings(law, s);
    EulerSpringsKeepPlace(law, s, k);
    SweepAt(BackupRule(env), r, k);
    BackupContactPoint(env, Sweep(BackupRule(env), r, k), k);
  }

  /** Particle k after the step is the backup rule applied at k's turn, when k still
      holds its state from before the step with the springs' velocity. */
  lemma BackupStepAt(law: Law, env: Env, s: seq<Point>, k: int)
    requires |s| == Cells && 0 <= k < Cells
    ensures var t := Sweep(BackupRule(env), EulerSprings(law, s), k);
            t[k] == s[k].(vel := EulerSprings(law, s)[k].vel) &&
            BackupStep(law, env, s)[k] == BackupPoint(env, t, k)
  {
    EulerSpringsKeepPlace(law, s, k);
    SweepAt(BackupRule(env), EulerSprings(law, s), k);
  }

  /** Free fall: the velocity gains exactly (0, -2 dt, 0) on the velocity the springs
      left. */
  lemma BackupFreeFall(law: Law, env: Env, s: seq<Point>, k: int)
    requires |s| == Cells && 0 <= k < Cells
    requires !Resting(s[k].pos) && !Pinned(k, env.drop)
    requires Length(s[k].pos, env.sqrt) > ContactRadius
    ensures var v := EulerSprings(law, s)[k].vel;
            BackupStep(law, env, s)[k].vel == Vec3(v.x, v.y - 2.0 * env.dt, v.z)
  {
    var t := Sweep(BackupRule(env), EulerSprings(law, s), k);
    BackupStepAt(law, env, s, k);
    BackupFreeFallPoint(env, t, k);
  }

  /** Free fall, continued: the particle moves from where it was by the new velocity
      times dt, and y is clamped at -2. */
  lemma BackupFreeFallLands(law: Law, env: Env, s: seq<Point>, k: int)
    requires |s| == Cells && 0 <= k < Cells
    requires !Resting(s[k].pos) && !Pinned(k, env.drop)
    requires Length(s[k].pos, env.sqrt) > ContactRadius
    ensures var p := BackupStep(law, env, s)[k];
            p.pos == ClampToFloor(Add(s[k].pos, Scale(env.dt, p.vel))) && p.pos.y >= FloorY
  {
    var t := Sweep(BackupRule(env), EulerSprings(law, s), k);
    BackupStepAt(law, env, s, k);
    BackupFreeFallPoint(env, t, k);
  }
}
