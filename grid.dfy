/**
 * The cloth grid shared by cloth.cpp and clothBackup.cpp: an N x N matrix of
 * particles, stored row-major exactly as C lays out `Point cloth[N][N]`, so the
 * particle in row i and column j lives at flat index i * N + j.
 *
 * clothBackup.cpp's `Point` has only pos, norm, texCoord and vel; the two extra
 * fields futureVel and futurePos belong to cloth.cpp's midpoint integrator and the
 * clothBackup.cpp rules never read or write them.
 */
module Grid {
  import opened VecMath

  /** `const int N = 15` in both cloth.cpp and clothBackup.cpp. */
  const N: int := 15

  /** Number of particles, N * N. */
  const Cells: int := 225

  /** `const float clothHeight = 1.0f`. */
  const ClothHeight: real := 1.0

  /** `const float l0 = 0.13f`: the spring rest length, also the sheet spacing. */
  const RestLength: real := 0.13

  datatype Point = Point(
    pos: Vec3,
    norm: Vec3,
    texCoord: Vec2,
    vel: Vec3,
    futureVel: Vec3,
    futurePos: Vec3)

  /** Point(pos, texCoord): faces up, at rest, with its predicted position at pos. */
  function MakePoint(pos: Vec3, texCoord: Vec2): (p: Point)
    ensures p.pos == pos && p.texCoord == texCoord
    ensures p.norm == Vec3(0.0, 1.0, 0.0)
    ensures p.vel == Zero && p.futureVel == Zero
    ensures p.futurePos == pos
  {
    Point(pos, Vec3(0.0, 1.0, 0.0), texCoord, Zero, Zero, pos)
  }

  function Idx(i: int, j: int): int { i * N + j }

  function Row(k: int): int { k / N }

  function Col(k: int): int { k % N }

  predicate InGrid(i: int, j: int) { 0 <= i < N && 0 <= j < N }

  /** The flat index of (i, j) is in range and decodes back to (i, j). */
  lemma IdxRoundTrip(i: int, j: int)
    requires InGrid(i, j)
    ensures 0 <= Idx(i, j) < Cells
    ensures Row(Idx(i, j)) == i && Col(Idx(i, j)) == j
  {
  }

  // ---------------------------------------------------------------------------
  // initializeCloth
  // ---------------------------------------------------------------------------

  /** Half the sheet's width, `clothWidth / 2` with `clothWidth = spacing * (N - 1)`. */
  function HalfWidth(spacing: real): real { spacing * (N - 1) as real / 2.0 }

  /** The particle initializeCloth places at (i, j). */
  function SheetPoint(spacing: real, i: int, j: int): Point {
    MakePoint(
      Vec3(-HalfWidth(spacing) + i as real * spacing, ClothHeight, -HalfWidth(spacing) + j as real * spacing),
      Vec2(j as real / (N - 1) as real, i as real / (N - 1) as real))
  }

  /** The whole sheet initializeCloth(spacing) produces, in flat row-major order. */
  function InitialSheet(spacing: real): (s: seq<Point>)
    ensures |s| == Cells
  {
    seq(Cells, k requires 0 <= k < Cells => SheetPoint(spacing, Row(k), Col(k)))
  }

  /**
   * initializeCloth: walks the rows with running coordinates currX and currZ, the
   * latter restarting at the left edge on every row.
   */
  method InitializeCloth(cloth: array<Point>, spacing: real)
    requires cloth.Length == Cells
    modifies cloth
    ensures cloth[..] == InitialSheet(spacing)
  {
    var clothWidth := spacing * (N - 1) as real;
    var currX := -clothWidth / 2.0;
    var initZ := -clothWidth / 2.0;
    for i := 0 to N
      invariant currX == -HalfWidth(spacing) + i as real * spacing
      invariant forall k :: 0 <= k < i * N ==> cloth[k] == InitialSheet(spacing)[k]
    {
      InitializeRow(cloth, spacing, i, currX, initZ);
      NextOffset(spacing, i);
      currX := currX + spacing;
    }
  }

  /** The inner loop of initializeCloth: row i, left to right. */
  method InitializeRow(cloth: array<Point>, spacing: real, i: int, currX: real, initZ: real)
    requires cloth.Length == Cells && 0 <= i < N
    requires currX == -HalfWidth(spacing) + i as real * spacing && initZ == -HalfWidth(spacing)
    requires forall k :: 0 <= k < i * N ==> cloth[k] == InitialSheet(spacing)[k]
    modifies cloth
    ensures forall k :: 0 <= k < i * N + N ==> cloth[k] == InitialSheet(spacing)[k]
  {
    var currZ := initZ;
    for j := 0 to N
      invariant currZ == -HalfWidth(spacing) + j as real * spacing
      invariant forall k :: 0 <= k < i * N + j ==> cloth[k] == InitialSheet(spacing)[k]
    {
      PlacePoint(cloth, spacing, i, j, currX, currZ);
      NextOffset(spacing, j);
      currZ := currZ + spacing;
    }
  }

  /** The body of the inner loop: the particle at (i, j) with its texture coordinate. */
  method PlacePoint(cloth: array<Point>, spacing: real, i: int, j: int, currX: real, currZ: real)
    requires cloth.Length == Cells && InGrid(i, j)
    requires currX == -HalfWidth(spacing) + i as real * spacing
    requires currZ == -HalfWidth(spacing) + j as real * spacing
    modifies cloth
    ensures cloth[..] == old(cloth[..])[Idx(i, j) := InitialSheet(spacing)[Idx(i, j)]]
  {
    var p := Vec3(currX, ClothHeight, currZ);
    var t := Vec2(j as real / (N - 1) as real, i as real / (N - 1) as real);
    SheetAt(spacing, i, j);
    cloth[i * N + j] := MakePoint(p, t);
  }


  /** Every particle of the fresh sheet is at rest, faces up, sits at height 1.0 and
      has its predicted position at its position. */
  lemma SheetAtRest(spacing: real, k: int)
    requires 0 <= k < Cells
    ensures InitialSheet(spacing)[k].vel == Zero
    ensures InitialSheet(spacing)[k].futureVel == Zero
    ensures InitialSheet(spacing)[k].norm == Vec3(0.0, 1.0, 0.0)
    ensures InitialSheet(spacing)[k].pos.y == ClothHeight
    ensures InitialSheet(spacing)[k].futurePos == InitialSheet(spacing)[k].pos
  {
  }

  /** Particle (i, j) starts at (-w/2 + i*s, 1.0, -w/2 + j*s) with w = s*(N-1), and its
      texture coordinate is (j/(N-1), i/(N-1)), which lies in the unit square. */
  lemma SheetLayout(spacing: real, i: int, j: int)
    requires InGrid(i, j)
    ensures InitialSheet(spacing)[Idx(i, j)].pos
         == Vec3(-spacing * (N - 1) as real / 2.0 + i as real * spacing, 1.0,
                 -spacing * (N - 1) as real / 2.0 + j as real * spacing)
    ensures InitialSheet(spacing)[Idx(i, j)].texCoord
         == Vec2(j as real / (N - 1) as real, i as real / (N - 1) as real)
    ensures 0.0 <= InitialSheet(spacing)[Idx(i, j)].texCoord.u <= 1.0
    ensures 0.0 <= InitialSheet(spacing)[Idx(i, j)].texCoord.v <= 1.0
  {
    IdxRoundTrip(i, j);
  }

  /** Neighbours along a column are `spacing` apart in x. */
  lemma SheetColumnSpacing(spacing: real, i: int, j: int)
    requires InGrid(i, j) && i < N - 1
    ensures Sub(InitialSheet(spacing)[Idx(i + 1, j)].pos, InitialSheet(spacing)[Idx(i, j)].pos) == Vec3(spacing, 0.0, 0.0)
  {
    IdxRoundTrip(i, j);
    IdxRoundTrip(i + 1, j);
    assert (i + 1) as real * spacing == i as real * spacing + spacing;
  }

  /** Neighbours along a row are `spacing` apart in z. */
  lemma SheetRowSpacing(spacing: real, i: int, j: int)
    requires InGrid(i, j) && j < N - 1
    ensures Sub(InitialSheet(spacing)[Idx(i, j + 1)].pos, InitialSheet(spacing)[Idx(i, j)].pos) == Vec3(0.0, 0.0, spacing)
  {
    IdxRoundTrip(i, j);
    IdxRoundTrip(i, j + 1);
    assert (j + 1) as real * spacing == j as real * spacing + spacing;
  }

  /** The sheet is centred on the y axis: mirrored particles have opposite x and z. */
  lemma SheetCentred(spacing: real, i: int, j: int)
    requires InGrid(i, j)
    ensures InitialSheet(spacing)[Idx(i, j)].pos.x + InitialSheet(spacing)[Idx(N - 1 - i, j)].pos.x == 0.0
    ensures InitialSheet(spacing)[Idx(i, j)].pos.z + InitialSheet(spacing)[Idx(i, N - 1 - j)].pos.z == 0.0
  {
    SheetAt(spacing, i, j);
    SheetAt(spacing, N - 1 - i, j);
    SheetAt(spacing, i, N - 1 - j);
    SheetPointMirror(spacing, i, j);
  }

  lemma SheetPointMirror(spacing: real, i: int, j: int)
    ensures SheetPoint(spacing, i, j).pos.x + SheetPoint(spacing, N - 1 - i, j).pos.x == 0.0
    ensures SheetPoint(spacing, i, j).pos.z + SheetPoint(spacing, i, N - 1 - j).pos.z == 0.0
  {
    MirrorSum(spacing, i);
    MirrorSum(spacing, j);
  }

  lemma SheetAt(spacing: real, i: int, j: int)
    requires InGrid(i, j)
    ensures InitialSheet(spacing)[Idx(i, j)] == SheetPoint(spacing, i, j)
  {
    IdxRoundTrip(i, j);
  }

  /** Stepping `spacing` further moves from offset a to offset a + 1. */
  lemma NextOffset(spacing: real, a: int)
    ensures -HalfWidth(spacing) + a as real * spacing + spacing == -HalfWidth(spacing) + (a + 1) as real * spacing
  {
  }

  /** Offsets a and N-1-a from the left edge lie symmetrically about the centre. */
  lemma MirrorSum(spacing: real, a: int)
    ensures (-HalfWidth(spacing) + a as real * spacing) + (-HalfWidth(spacing) + (N - 1 - a) as real * spacing) == 0.0
  {
    assert a as real * spacing + (N - 1 - a) as real * spacing == (N - 1) as real * spacing;
  }

  // ---------------------------------------------------------------------------
  // Neighbours read by the normal recomputation
  // ---------------------------------------------------------------------------

  /**
   * The two particles whose offsets give particle k's shading normal: for rows
   * above the last, `cloth[i+1][j]` and `cloth[i][j+1]`; on the last row
   * `cloth[i-1][j]` and `cloth[i][j-1]`. The column step is taken on the flat
   * index, as C's row-major layout does.
   */
  function NormalNeighbours(k: int): (r: (int, int))
    requires 0 <= k < Cells
    ensures 0 <= r.0 < Cells && 0 <= r.1 < Cells
    ensures r.0 != k && r.1 != k
  {
    if Row(k) < N - 1 then (k + N, k + 1) else (k - N, k - 1)
  }

  /** Inside a row the normal uses true grid neighbours: (i+1, j) or (i-1, j), and
      (i, j+1) or (i, j-1). */
  lemma NormalNeighboursInRow(i: int, j: int)
    requires InGrid(i, j)
    requires (i < N - 1 && j < N - 1) || (i == N - 1 && j > 0)
    ensures i < N - 1 ==> NormalNeighbours(Idx(i, j)) == (Idx(i + 1, j), Idx(i, j + 1))
    ensures i == N - 1 ==> NormalNeighbours(Idx(i, j)) == (Idx(i - 1, j), Idx(i, j - 1))
  {
    IdxRoundTrip(i, j);
  }

  /** `cloth[i][j+1]` with j = N-1 is the first particle of the next row, and
      `cloth[i][j-1]` with i = N-1, j = 0 is the last particle of row N-2. */
  lemma NormalNeighboursAlias(i: int)
    requires 0 <= i < N
    ensures i < N - 1 ==> NormalNeighbours(Idx(i, N - 1)).1 == Idx(i + 1, 0)
    ensures i == N - 1 ==> NormalNeighbours(Idx(i, 0)).1 == Idx(N - 2, N - 1)
  {
    IdxRoundTrip(i, N - 1);
    IdxRoundTrip(i, 0);
  }
}
