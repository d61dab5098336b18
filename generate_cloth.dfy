/**
 * main.cpp `generateCloth`: an earlier, self-contained fill of a vertex buffer of
 * the same layout as flattenClothMatrix (six vertices of eight floats per cell), on
 * a grid of `N` points a side, where `N` is main.cpp's global (5).
 *
 * The fill is a sequence of stores `clothData[index] = value`. The model lists the
 * stores of one cell in the source's order (`CellStore`), strings the cells together
 * in the order of the two loops (`Before`, `AllStores`), and runs them on a buffer
 * that stops at the first store outside it (`Apply`). The method `GenerateCloth`
 * carries out the loops on an array and is proved to end exactly as `Generate`.
 *
 * `CellStore` keeps the source's slips: five x-stores per cell use `*` where `+`
 * is meant, `currZ` is never reset between rows, texture coordinates are integer
 * quotients, vertex 5 takes the texture row of the next grid row, and the column
 * loop runs one cell further than the row loop. `IntendedStore` is the fill with
 * those corrected, and the lemmas at the end of the module prove what the correction
 * achieves.
 */
module GenerateMesh {

  /** One store `clothData[index] = value`. */
  datatype Store = Store(index: int, value: real)

  /** A fill either completes, with the buffer's final contents, or stops at the first
      store outside the buffer (undefined behaviour in C), naming its index. */
  datatype Outcome = Filled(data: seq<real>) | OutOfBounds(index: int)

  /** main.cpp's global `N`. */
  const MainN: int := 5

  /** `clothHeight` */
  const Height: real := 1.5

  /** `clothWidth` */
  const Width: real := 3.0

  /** Floats written per cell. */
  const CellSize: int := 48

  /** `stepSize = clothWidth / N` */
  function StepSize(n: int): (s: real)
    requires n >= 1
    ensures s > 0.0
  {
    Width / (n as real)
  }

  /** A texture coordinate `a / (N - 1)`: C divides the two ints, truncating, and then
      converts the quotient to float. Both operands are non-negative here, where
      truncating and Dafny's Euclidean division agree. */
  function TexQuotient(a: int, n: int): real
    requires a >= 0 && n >= 2
  {
    (a / (n - 1)) as real
  }

  /** Vertices 1, 3 and 4 of a cell sit one row on, at `currX + stepSize`. */
  predicate NextRow(v: int) {
    v == 1 || v == 3 || v == 4
  }

  /** Vertices 2, 4 and 5 sit one column on, at `currZ - stepSize`. */
  predicate NextColumn(v: int) {
    v == 2 || v == 4 || v == 5
  }

  /** Vertices 1, 3, 4 and 5 take the texture row `i + 1`. */
  predicate NextTexRow(v: int) {
    v == 1 || v == 3 || v == 4 || v == 5
  }

  /**
   * Store number r (0 .. 47) of the cell k = N*i + j, in the order the loop body
   * issues them: vertex v = r / 8, field f = r % 8 (pos.xyz, norm.xyz, tex.uv). The
   * x-store of vertices 1 to 5 goes to `k*48*(8*v)` rather than `k*48 + 8*v`.
   */
  function CellStore(n: int, i: int, j: int, x: real, z: real, r: int): (st: Store)
    requires n >= 2 && 0 <= i && 0 <= j && 0 <= r < CellSize
  {
    var k := n * i + j;
    var v := r / 8;
    var f := r % 8;
    var s := StepSize(n);
    if f == 0 then
      Store(if v == 0 then k * 48 else k * 48 * (8 * v), if NextRow(v) then x + s else x)
    else if f == 1 then Store(k * 48 + r, Height)
    else if f == 2 then Store(k * 48 + r, if NextColumn(v) then z - s else z)
    else if f == 3 then Store(k * 48 + r, 0.0)
    else if f == 4 then Store(k * 48 + r, 1.0)
    else if f == 5 then Store(k * 48 + r, 0.0)
    else if f == 6 then Store(k * 48 + r, TexQuotient(if NextColumn(v) then j + 1 else j, n))
    else Store(k * 48 + r, TexQuotient(if NextTexRow(v) then i + 1 else i, n))
  }

  /** The 48 stores of one cell, given the running `currX` and `currZ`. */
  function CellStores(n: int, i: int, j: int, x: real, z: real): (r: seq<Store>)
    requires n >= 2 && 0 <= i && 0 <= j
    ensures |r| == CellSize
    ensures forall m :: 0 <= m < CellSize ==> r[m] == CellStore(n, i, j, x, z, m)
  {
    seq(CellSize, m requires 0 <= m < CellSize => CellStore(n, i, j, x, z, m))
  }

  /** `currX` during row i: -1.5, advanced by `stepSize` after every row. */
  function RowX(n: int, i: int): real
    requires n >= 1
  {
    -1.5 + (i as real) * StepSize(n)
  }

  /** `currZ` after c cells: 1.5, lowered by `stepSize` after every cell and never
      reset between rows. */
  function RunningZ(n: int, c: int): real
    requires n >= 1
  {
    1.5 - (c as real) * StepSize(n)
  }

  lemma RunningZStep(n: int, c: int)
    requires n >= 1
    ensures RunningZ(n, c) - StepSize(n) == RunningZ(n, c + 1)
  {
  }

  /** The stores of cell (i, j) as the loops issue them. */
  function CellAt(n: int, i: int, j: int): (r: seq<Store>)
    requires n >= 2 && 0 <= i && 0 <= j
    ensures |r| == CellSize
  {
    CellStores(n, i, j, RowX(n, i), RunningZ(n, n * i + j))
  }

  /** The loops reach cell (i, j), or the end at (N - 1, 0): rows 0 .. N-2, columns 0 .. N-1. */
  predicate LoopPoint(n: int, i: int, j: int) {
    n >= 1 && 0 <= i <= n - 1 && 0 <= j <= n && (i < n - 1 || j == 0)
  }

  /** Every store issued before the loops reach cell (i, j). */
  function Before(n: int, i: int, j: int): (r: seq<Store>)
    requires LoopPoint(n, i, j)
    decreases i, j
  {
    if j == 0 then
      if i == 0 then [] else Before(n, i - 1, n)
    else
      Before(n, i, j - 1) + CellAt(n, i, j - 1)
  }

  /** Every store `generateCloth` issues. */
  function AllStores(n: int): seq<Store>
    requires n >= 1
  {
    Before(n, n - 1, 0)
  }

  /** `new float[(N*N)*48]`, whose contents C leaves unspecified; the model zeroes them. */
  function Zeros(size: int): (r: seq<real>)
    requires size >= 0
    ensures |r| == size && forall m :: 0 <= m < size ==> r[m] == 0.0
  {
    seq(size, _ => 0.0)
  }

  /** The stores carried out in order on a buffer of fixed size. */
  function Apply(buffer: seq<real>, stores: seq<Store>): (r: Outcome)
    ensures r.Filled? ==> |r.data| == |buffer|
    decreases |stores|
  {
    if stores == [] then Filled(buffer)
    else if !(0 <= stores[0].index < |buffer|) then OutOfBounds(stores[0].index)
    else Apply(buffer[stores[0].index := stores[0].value], stores[1..])
  }

  /** A run completes exactly when every store is inside the buffer; otherwise it stops
      at the first store that is not. */
  lemma {:induction false} ApplyInBounds(buffer: seq<real>, stores: seq<Store>)
    ensures Apply(buffer, stores).Filled? <==>
      forall m :: 0 <= m < |stores| ==> 0 <= stores[m].index < |buffer|
    ensures Apply(buffer, stores).OutOfBounds? ==>
      exists m :: 0 <= m < |stores| && Apply(buffer, stores).index == stores[m].index &&
        !(0 <= stores[m].index < |buffer|) &&
        forall q :: 0 <= q < m ==> 0 <= stores[q].index < |buffer|
    decreases |stores|
  {
    if stores != [] {
      assert forall m :: 1 <= m < |stores| ==> stores[m] == stores[1..][m - 1];
      if 0 <= stores[0].index < |buffer| {
        var b := buffer[stores[0].index := stores[0].value];
        ApplyInBounds(b, stores[1..]);
        assert Apply(buffer, stores) == Apply(b, stores[1..]);
        if Apply(buffer, stores).OutOfBounds? {
          var m :| 0 <= m < |stores[1..]| && Apply(b, stores[1..]).index == stores[1..][m].index &&
            !(0 <= stores[1..][m].index < |b|) &&
            forall q :: 0 <= q < m ==> 0 <= stores[1..][q].index < |b|;
          assert forall q :: 0 <= q < m + 1 ==> 0 <= stores[q].index < |buffer|;
        }
      } else {
        assert !(0 <= stores[0].index < |buffer|);
      }
    }
  }

  /** What `generateCloth` leaves: a filled buffer of `48*N*N` floats, or the first
      store past its end. */
  function Generate(n: int): Outcome
    requires n >= 1
  {
    Apply(Zeros(48 * n * n), AllStores(n))
  }

  /** main.cpp `generateCloth()`, for a grid of n points a side. */
  method GenerateCloth(n: int) returns (r: Outcome)
    requires n >= 1
    ensures r == Generate(n)
  {
    var clothData := new real[48 * n * n](_ => 0.0);
    var clothHeight := 1.5;
    var clothWidth := 3.0;
    var currX := 0.0 - clothWidth / 2.0;
    var currZ := -1.0 * currX;
    var stepSize := clothWidth / (n as real);
    ghost var zeros := clothData[..];
    assert zeros == Zeros(48 * n * n);
    for i := 0 to n - 1
      invariant currX == RowX(n, i) && currZ == RunningZ(n, n * i)
      invariant Apply(zeros, Before(n, i, 0)) == Filled(clothData[..])
    {
      var stop, index;
      stop, index, currZ := FillRow(clothData, n, i, currX, currZ, zeros);
      if stop {
        return OutOfBounds(index);
      }
      currX := currX + stepSize;
    }
    return Filled(clothData[..]);
  }

  /** The inner loop for row i; returns `currZ` as the row leaves it. */
  method FillRow(clothData: array<real>, n: int, i: int, currX: real, currZ: real,
                 ghost zeros: seq<real>)
    returns (stop: bool, index: int, z: real)
    requires n >= 2 && 0 <= i < n - 1 && zeros == Zeros(48 * n * n)
    requires currX == RowX(n, i) && currZ == RunningZ(n, n * i)
    requires Apply(zeros, Before(n, i, 0)) == Filled(clothData[..])
    modifies clothData
    ensures stop ==> Generate(n) == OutOfBounds(index)
    ensures !stop ==> z == RunningZ(n, n * (i + 1))
    ensures !stop ==> Apply(zeros, Before(n, i + 1, 0)) == Filled(clothData[..])
  {
    var stepSize := StepSize(n);
    z := currZ;
    for j := 0 to n
      invariant z == RunningZ(n, n * i + j)
      invariant Apply(zeros, Before(n, i, j)) == Filled(clothData[..])
    {
      stop, index := FillCell(clothData, n, i, j, currX, z, zeros);
      if stop {
        return;
      }
      RunningZStep(n, n * i + j);
      z := z - stepSize;
    }
    assert n * i + n == n * (i + 1);
    return false, 0, z;
  }

  /** The 48 stores of the loop body for cell (i, j), stopping at the first one outside
      the buffer. */
  method FillCell(clothData: array<real>, n: int, i: int, j: int, currX: real, currZ: real,
                  ghost zeros: seq<real>)
    returns (stop: bool, index: int)
    requires n >= 2 && 0 <= i < n - 1 && 0 <= j < n && zeros == Zeros(48 * n * n)
    requires currX == RowX(n, i) && currZ == RunningZ(n, n * i + j)
    requires Apply(zeros, Before(n, i, j)) == Filled(clothData[..])
    modifies clothData
    ensures stop ==> Generate(n) == OutOfBounds(index)
    ensures !stop ==> Apply(zeros, Before(n, i, j + 1)) == Filled(clothData[..])
  {
    var stores := CellStores(n, i, j, currX, currZ);
    assert stores == CellAt(n, i, j);
    ghost var prefix := Before(n, i, j);
    assert prefix + stores[..0] == prefix;
    for w := 0 to CellSize
      invariant Apply(zeros, prefix + stores[..w]) == Filled(clothData[..])
    {
      var st := stores[w];
      PrefixStep(prefix, stores, w);
      ApplyOne(zeros, prefix + stores[..w], st);
      if !(0 <= st.index < clothData.Length) {
        CellPrefixIssued(n, i, j, w);
        assert Apply(zeros, prefix + stores[..w + 1]) == OutOfBounds(st.index);
        ApplyStops(zeros, prefix + stores[..w + 1], AllStores(n));
        return true, st.index;
      }
      clothData[st.index] := st.value;
    }
    assert stores[..CellSize] == stores;
    return false, 0;
  }

  // ---------------------------------------------------------------------------
  // Running stores in order
  // ---------------------------------------------------------------------------

  /** Two runs of stores one after the other are one run of both. */
  lemma {:induction false} ApplyAppend(buffer: seq<real>, xs: seq<Store>, ys: seq<Store>)
    ensures Apply(buffer, xs + ys) ==
      (if Apply(buffer, xs).Filled? then Apply(Apply(buffer, xs).data, ys) else Apply(buffer, xs))
    decreases |xs|
  {
    if xs != [] {
      assert (xs + ys)[0] == xs[0] && (xs + ys)[1..] == xs[1..] + ys;
      if 0 <= xs[0].index < |buffer| {
        ApplyAppend(buffer[xs[0].index := xs[0].value], xs[1..], ys);
      }
    } else {
      assert xs + ys == ys;
    }
  }

  /** One more element of `c` extends the prefix by that element. */
  lemma PrefixStep<T>(p: seq<T>, c: seq<T>, w: int)
    requires 0 <= w < |c|
    ensures p + c[..w + 1] == (p + c[..w]) + [c[w]]
  {
  }

  /** Every store issued while cell (i, j) is being written belongs to the whole run. */
  lemma CellPrefixIssued(n: int, i: int, j: int, w: int)
    requires n >= 2 && 0 <= i < n - 1 && 0 <= j < n && 0 <= w < CellSize
    ensures Before(n, i, j) + CellAt(n, i, j)[..w + 1] <= AllStores(n)
  {
    BeforePrefix(n, i, j + 1);
    assert Before(n, i, j + 1) == Before(n, i, j) + CellAt(n, i, j);
    PrefixWithin(Before(n, i, j), CellAt(n, i, j), w + 1, AllStores(n));
  }

  lemma PrefixWithin<T>(p: seq<T>, c: seq<T>, w: int, all: seq<T>)
    requires 0 <= w <= |c| && p + c <= all
    ensures p + c[..w] <= all
  {
    assert p + c[..w] == (p + c)[..|p| + w];
  }

  /** One more store: written when it is inside the buffer, the stop otherwise. */
  lemma ApplyOne(buffer: seq<real>, xs: seq<Store>, st: Store)
    requires Apply(buffer, xs).Filled?
    ensures var d := Apply(buffer, xs).data;
            Apply(buffer, xs + [st]) ==
              if 0 <= st.index < |d| then Filled(d[st.index := st.value]) else OutOfBounds(st.index)
  {
    ApplyAppend(buffer, xs, [st]);
  }

  /** Once a run stops, nothing that follows changes the outcome. */
  lemma ApplyStops(buffer: seq<real>, xs: seq<Store>, all: seq<Store>)
    requires xs <= all && Apply(buffer, xs).OutOfBounds?
    ensures Apply(buffer, all) == Apply(buffer, xs)
  {
    assert all == xs + all[|xs|..];
    ApplyAppend(buffer, xs, all[|xs|..]);
  }

  /** The stores issued before any point of the loops begin the whole run. */
  lemma {:induction false} BeforePrefix(n: int, i: int, j: int)
    requires LoopPoint(n, i, j)
    ensures Before(n, i, j) <= AllStores(n)
    decreases n - i, n - j
  {
    if i == n - 1 {
    } else if j < n {
      BeforePrefix(n, i, j + 1);
    } else {
      BeforePrefix(n, i + 1, 0);
    }
  }

  /** A store lands in slot p only where the run says so; a slot no store names keeps
      its initial contents. */
  lemma {:induction false} ApplyUntouched(buffer: seq<real>, stores: seq<Store>, p: int)
    requires Apply(buffer, stores).Filled? && 0 <= p < |buffer|
    requires forall m :: 0 <= m < |stores| ==> stores[m].index != p
    ensures Apply(buffer, stores).data[p] == buffer[p]
    decreases |stores|
  {
    if stores != [] {
      assert forall m :: 1 <= m < |stores| ==> stores[1..][m - 1] == stores[m];
      ApplyUntouched(buffer[stores[0].index := stores[0].value], stores[1..], p);
    }
  }

  /** The last store to name slot p decides its final contents. */
  lemma {:induction false} ApplyLast(buffer: seq<real>, stores: seq<Store>, m: int)
    requires Apply(buffer, stores).Filled? && 0 <= m < |stores| && 0 <= stores[m].index < |buffer|
    requires forall q :: m < q < |stores| ==> stores[q].index != stores[m].index
    ensures Apply(buffer, stores).data[stores[m].index] == stores[m].value
    decreases |stores|
  {
    ApplyInBounds(buffer, stores);
    var b := buffer[stores[0].index := stores[0].value];
    assert forall q :: 1 <= q < |stores| ==> stores[1..][q - 1] == stores[q];
    if m == 0 {
      ApplyUntouched(b, stores[1..], stores[0].index);
    } else {
      ApplyLast(b, stores[1..], m - 1);
    }
  }

  // ---------------------------------------------------------------------------
  // What every cell writes
  // ---------------------------------------------------------------------------

  /** Every store the fill issues apart from the x-stores lands in the cell's own
      block at offset r; the normal stores write (0, 1, 0) and the y-stores 1.5. */
  lemma CellLayout(n: int, i: int, j: int, x: real, z: real, r: int)
    requires n >= 2 && 0 <= i && 0 <= j && 0 <= r < CellSize
    ensures var st := CellStore(n, i, j, x, z, r);
            (r % 8 != 0 ==> st.index == (n * i + j) * 48 + r) &&
            (r % 8 == 1 ==> st.value == Height) &&
            (r % 8 == 3 || r % 8 == 5 ==> st.value == 0.0) &&
            (r % 8 == 4 ==> st.value == 1.0)
  {
  }

  /** Within the loops' range, texture coordinates are integer quotients: 0 or 1 once
      the grid has three points a side. */
  lemma TexIsZeroOrOne(n: int, i: int, j: int, x: real, z: real, r: int)
    requires n >= 3 && 0 <= i < n - 1 && 0 <= j < n && 0 <= r < CellSize && r % 8 >= 6
    ensures CellStore(n, i, j, x, z, r).value in {0.0, 1.0}
  {
    var v := r / 8;
    var a := if r % 8 == 6 then (if NextColumn(v) then j + 1 else j)
             else (if NextTexRow(v) then i + 1 else i);
    assert CellStore(n, i, j, x, z, r).value == TexQuotient(a, n);
    assert 0 <= a <= n;
    QuotientBelowTwo(a, n - 1);
  }

  lemma QuotientBelowTwo(a: int, d: int)
    requires 2 <= d && 0 <= a <= d + 1
    ensures a / d == 0 || a / d == 1
  {
    if a < d {
      assert a / d == 0;
    } else {
      assert a == d + (a - d) && 0 <= a - d < d;
      assert a / d == 1;
    }
  }

  /** The cell position `currX`, `currZ` at cell (i, j): the running values. */
  lemma CellCorner(n: int, i: int, j: int)
    requires n >= 2 && 0 <= i && 0 <= j
    ensures CellAt(n, i, j)[0] == Store((n * i + j) * 48, -1.5 + (i as real) * StepSize(n))
    ensures CellAt(n, i, j)[2].value == 1.5 - ((n * i + j) as real) * StepSize(n)
  {
    assert CellAt(n, i, j)[0] == CellStore(n, i, j, RowX(n, i), RunningZ(n, n * i + j), 0);
    assert CellAt(n, i, j)[2] == CellStore(n, i, j, RowX(n, i), RunningZ(n, n * i + j), 2);
  }

  // ---------------------------------------------------------------------------
  // The slips, as written
  // ---------------------------------------------------------------------------

  /** The first cell sends the x of all six vertices to slot 0, which ends holding the
      last of them, `currX` = -1.5; slots 8, 16, 24, 32 and 40 are never written. */
  lemma FirstCellCollapses(n: int)
    requires n >= 2
    ensures var o := Apply(Zeros(48 * n * n), CellAt(n, 0, 0));
            o.Filled? && o.data[0] == -1.5 &&
            o.data[8] == 0.0 && o.data[16] == 0.0 && o.data[24] == 0.0 &&
            o.data[32] == 0.0 && o.data[40] == 0.0
  {
    var c := CellAt(n, 0, 0);
    var b := Zeros(48 * n * n);
    FirstCellIndices(n);
    ApplyInBounds(b, c);
    ApplyLast(b, c, 40);
    forall p | p in {8, 16, 24, 32, 40}
      ensures Apply(b, c).data[p] == 0.0
    {
      ApplyUntouched(b, c, p);
    }
  }

  /** Cell 0's x-stores all go to slot 0; its other stores go to their own offsets. */
  lemma FirstCellIndices(n: int)
    requires n >= 2
    ensures 48 * n * n >= CellSize
    ensures forall m :: 0 <= m < CellSize ==>
      CellAt(n, 0, 0)[m].index == (if m % 8 == 0 then 0 else m)
    ensures CellAt(n, 0, 0)[40].value == -1.5
  {
    assert n * n >= 1 by { assert n * n >= n; }
    var c := CellAt(n, 0, 0);
    forall m | 0 <= m < CellSize
      ensures c[m].index == (if m % 8 == 0 then 0 else m)
    {
      assert c[m] == CellStore(n, 0, 0, RowX(n, 0), RunningZ(n, 0), m);
    }
    assert c[40] == CellStore(n, 0, 0, RowX(n, 0), RunningZ(n, 0), 40);
  }

  /** Offsets 8, 16, 24, 32 and 40 of a 48-float block: where the x coordinates of
      vertices 1 to 5 belong. */
  predicate XSlot(p: int) {
    p % CellSize in {8, 16, 24, 32, 40}
  }

  /** No store of any cell lands on an x slot: the misplaced x-stores go to multiples
      of 48, and every other store to its own offset, which is not a multiple of 8. */
  lemma CellStoreOffset(n: int, i: int, j: int, x: real, z: real, r: int)
    requires n >= 2 && 0 <= i && 0 <= j && 0 <= r < CellSize
    ensures !XSlot(CellStore(n, i, j, x, z, r).index)
  {
    var k := n * i + j;
    assert k >= 0;
    var v := r / 8;
    if r % 8 == 0 {
      XStoreOffset(k, v);
    } else {
      CellLayout(n, i, j, x, z, r);
      OwnOffset(k, r);
    }
  }

  /** The x-stores, at k*48 or k*48*(8*v), all land at offset 0 of a block. */
  lemma XStoreOffset(k: int, v: int)
    requires k >= 0 && v >= 0
    ensures (k * 48) % CellSize == 0 && (k * 48 * (8 * v)) % CellSize == 0
  {
    WholeBlocks(k);
    assert k * 48 * (8 * v) == 48 * (k * 8 * v);
    WholeBlocks(k * 8 * v);
  }

  lemma WholeBlocks(t: int)
    requires t >= 0
    ensures (48 * t) % CellSize == 0 && (t * 48) % CellSize == 0
  {
    assert 48 * t == CellSize * t + 0;
  }

  lemma OwnOffset(k: int, r: int)
    requires k >= 0 && 0 <= r < CellSize && r % 8 != 0
    ensures !XSlot(k * 48 + r)
  {
    assert (k * 48 + r) % CellSize == r;
  }


  /** No store issued before cell (i, j) lands on an x slot. */
  lemma {:induction false} BeforeOffXSlots(n: int, i: int, j: int)
    requires n >= 2 && LoopPoint(n, i, j)
    ensures forall m :: 0 <= m < |Before(n, i, j)| ==> !XSlot(Before(n, i, j)[m].index)
    decreases i, j
  {
    if j == 0 {
      if i > 0 {
        BeforeOffXSlots(n, i - 1, n);
      }
    } else {
      BeforeOffXSlots(n, i, j - 1);
      var c := CellAt(n, i, j - 1);
      forall r | 0 <= r < CellSize
        ensures !XSlot(c[r].index)
      {
        assert c[r] == CellStore(n, i, j - 1, RowX(n, i), RunningZ(n, n * i + j - 1), r);
        CellStoreOffset(n, i, j - 1, RowX(n, i), RunningZ(n, n * i + j - 1), r);
      }
      assert Before(n, i, j) == Before(n, i, j - 1) + c;
    }
  }

  /** Over the whole run no store names slot 48k + 8, 48k + 16, ..., 48k + 40 of any
      cell k: the x coordinates of vertices 1 to 5 are never in place. */
  lemma XSlotsNeverWritten(n: int)
    requires n >= 2
    ensures forall m :: 0 <= m < |AllStores(n)| ==> !XSlot(AllStores(n)[m].index)
  {
    BeforeOffXSlots(n, n - 1, 0);
  }

  /** However far the run gets before it stops, the x slots keep their initial
      contents. */
  lemma XSlotsStayZero(n: int, t: int, p: int)
    requires n >= 2 && 0 <= t <= |AllStores(n)| && 0 <= p < 48 * n * n && XSlot(p)
    requires Apply(Zeros(48 * n * n), AllStores(n)[..t]).Filled?
    ensures Apply(Zeros(48 * n * n), AllStores(n)[..t]).data[p] == 0.0
  {
    XSlotsNeverWritten(n);
    var done := AllStores(n)[..t];
    assert forall m :: 0 <= m < |done| ==> done[m] == AllStores(n)[m];
    ApplyUntouched(Zeros(48 * n * n), done, p);
  }

  /** Every grid of two or more points a side overruns the buffer: the x-store of
      vertex 5 in the last cell goes to `k*48*40` with k = N*N - N - 1, at least
      `48*N*N`. On main.cpp's N = 5 the fill never completes. */
  lemma GenerateOverruns(n: int)
    requires n >= 2
    ensures Generate(n).OutOfBounds?
  {
    var i, j := n - 2, n - 1;
    var before := Before(n, i, j);
    assert AllStores(n) == Before(n, i + 1, 0) == Before(n, i, n);
    assert Before(n, i, n) == before + CellAt(n, i, j);
    LastCellOverruns(n);
    assert AllStores(n)[|before| + 40] == CellAt(n, i, j)[40];
    ApplyInBounds(Zeros(48 * n * n), AllStores(n));
  }

  /** The x-store of vertex 5 in the last cell lands at or past `48*N*N`. */
  lemma LastCellOverruns(n: int)
    requires n >= 2
    ensures CellAt(n, n - 2, n - 1)[40].index >= 48 * n * n
  {
    var k := n * (n - 2) + (n - 1);
    assert CellAt(n, n - 2, n - 1)[40] == CellStore(n, n - 2, n - 1, RowX(n, n - 2), RunningZ(n, k), 40);
    assert CellAt(n, n - 2, n - 1)[40].index == k * 48 * (8 * 5);
    assert n * (n - 2) >= 0;
    assert k * 48 * (8 * 5) >= 48 * n * n;
  }

  /** main.cpp's own grid: the fill stops outside the buffer. */
  lemma MainGridOverruns()
    ensures Generate(MainN).OutOfBounds?
  {
    GenerateOverruns(MainN);
  }

  /** `currZ` is not reset: the second row starts at z = -1.5, where the first row
      ended, not at 1.5 where the first row started. */
  lemma RowsDrift(n: int)
    requires n >= 3
    ensures CellAt(n, 0, 0)[2].value == 1.5
    ensures CellAt(n, 1, 0)[2].value == -1.5
  {
    CellCorner(n, 0, 0);
    CellCorner(n, 1, 0);
    assert (n as real) * StepSize(n) == Width;
  }

  /** Integer quotients: on a grid of three or more points a side, the corner of every
      cell but those of the last column gets texture u = 0. */
  lemma TexCollapses(n: int, i: int, j: int)
    requires n >= 3 && 0 <= i < n - 1 && 0 <= j < n - 1
    ensures CellAt(n, i, j)[6].value == 0.0
  {
    assert CellAt(n, i, j)[6] == CellStore(n, i, j, RowX(n, i), RunningZ(n, n * i + j), 6);
    assert CellStore(n, i, j, RowX(n, i), RunningZ(n, n * i + j), 6).value == TexQuotient(j, n);
    SmallQuotient(j, n - 1);
  }

  lemma SmallQuotient(a: int, d: int)
    requires 0 <= a < d
    ensures a / d == 0
  {
  }

  /** Vertex 5 repeats vertex 2's position (x = `currX`, z = `currZ - stepSize`) but
      takes texture row i + 1 instead of i: in the last row of cells the two get
      texture v = 0 and v = 1. */
  lemma Vertex5TexRow(n: int, i: int, j: int)
    requires n >= 3 && i == n - 2 && 0 <= j < n
    ensures CellAt(n, i, j)[16].value == CellAt(n, i, j)[40].value
    ensures CellAt(n, i, j)[18].value == CellAt(n, i, j)[42].value
    ensures CellAt(n, i, j)[23].value == 0.0 && CellAt(n, i, j)[47].value == 1.0
  {
    var x := RowX(n, i);
    var z := RunningZ(n, n * i + j);
    assert CellAt(n, i, j)[16] == CellStore(n, i, j, x, z, 16);
    assert CellAt(n, i, j)[40] == CellStore(n, i, j, x, z, 40);
    assert CellAt(n, i, j)[18] == CellStore(n, i, j, x, z, 18);
    assert CellAt(n, i, j)[42] == CellStore(n, i, j, x, z, 42);
    assert CellAt(n, i, j)[23] == CellStore(n, i, j, x, z, 23);
    assert CellAt(n, i, j)[47] == CellStore(n, i, j, x, z, 47);
    assert (i + 1) / (n - 1) == 1;
    assert i / (n - 1) == 0;
  }

  /** The column loop runs to j = N - 1, one further than the row loop: the last cell
      of a row puts vertex 2 at column N, z = -1.5, and gives it texture u = N/(N-1)
      (integer division), which is 2 when N = 2. */
  lemma LastColumnTex(n: int)
    requires n >= 2
    ensures CellAt(n, 0, n - 1)[18].value == -1.5
    ensures CellAt(n, 0, n - 1)[22].value == (n / (n - 1)) as real && n / (n - 1) >= 1
    ensures n == 2 ==> CellAt(n, 0, n - 1)[22].value == 2.0
  {
    var x := RowX(n, 0);
    var z := RunningZ(n, n - 1);
    assert CellAt(n, 0, n - 1)[18] == CellStore(n, 0, n - 1, x, z, 18);
    assert CellAt(n, 0, n - 1)[22] == CellStore(n, 0, n - 1, x, z, 22);
    assert (n as real) * StepSize(n) == Width;
    assert z - StepSize(n) == 1.5 - (n as real) * StepSize(n);
  }

  // ---------------------------------------------------------------------------
  // The fill as evidently intended
  // ---------------------------------------------------------------------------

  /** Store r of cell (i, j) with `+` in every index, `currZ` restarted at 1.5 on
      every row, real-valued texture coordinates and every vertex's texture matching
      its grid point. Columns, like rows, stop one short of N, and cell (i, j) is
      number (N-1)*i + j, as in flattenClothMatrix of cloth.cpp. */
  function IntendedStore(n: int, i: int, j: int, r: int): (st: Store)
    requires n >= 2 && 0 <= r < CellSize
  {
    var v := r / 8;
    var f := r % 8;
    var s := StepSize(n);
    var row := if NextRow(v) then i + 1 else i;
    var column := if NextColumn(v) then j + 1 else j;
    var index := ((n - 1) * i + j) * 48 + r;
    if f == 0 then Store(index, -1.5 + (row as real) * s)
    else if f == 1 then Store(index, Height)
    else if f == 2 then Store(index, 1.5 - (column as real) * s)
    else if f == 3 then Store(index, 0.0)
    else if f == 4 then Store(index, 1.0)
    else if f == 5 then Store(index, 0.0)
    else if f == 6 then Store(index, (column as real) / ((n - 1) as real))
    else Store(index, (row as real) / ((n - 1) as real))
  }

  /** The stores of the first c cells, in loop order: cell c is (c / (N-1), c % (N-1)). */
  function IntendedStores(n: int, c: int): (r: seq<Store>)
    requires n >= 2 && c >= 0
    ensures |r| == CellSize * c
  {
    if c == 0 then []
    else IntendedStores(n, c - 1) + seq(CellSize, r requires 0 <= r < CellSize => IntendedStore(n, (c - 1) / (n - 1), (c - 1) % (n - 1), r))
  }

  /** Every store of the intended fill: the loops visit the cells 0 .. (N-1)*(N-1)-1. */
  function IntendedAll(n: int): (r: seq<Store>)
    requires n >= 2
  {
    IntendedStores(n, (n - 1) * (n - 1))
  }

  /** The whole intended fill. */
  function IntendedGenerate(n: int): Outcome
    requires n >= 2
  {
    Apply(Zeros(48 * n * n), IntendedAll(n))
  }

  /** Store m of the intended fill is store m % 48 of cell m / 48. */
  lemma {:induction false} IntendedStoresAt(n: int, c: int, m: int)
    requires n >= 2 && c >= 0 && 0 <= m < CellSize * c
    ensures var k := m / CellSize;
            IntendedStores(n, c)[m] == IntendedStore(n, k / (n - 1), k % (n - 1), m % CellSize)
    decreases c
  {
    IntendedStoresStep(n, c, m);
    if m < CellSize * (c - 1) {
      IntendedStoresAt(n, c - 1, m);
    } else {
      BlockOf(m, c - 1);
    }
  }

  /** The first c - 1 cells' stores come first, then the 48 of cell c - 1. */
  lemma IntendedStoresStep(n: int, c: int, m: int)
    requires n >= 2 && c >= 1 && 0 <= m < CellSize * c
    ensures m < CellSize * (c - 1) ==> IntendedStores(n, c)[m] == IntendedStores(n, c - 1)[m]
    ensures m >= CellSize * (c - 1) ==>
      IntendedStores(n, c)[m] == IntendedStore(n, (c - 1) / (n - 1), (c - 1) % (n - 1), m - CellSize * (c - 1))
  {
  }

  lemma BlockOf(m: int, k: int)
    requires k >= 0 && CellSize * k <= m < CellSize * (k + 1)
    ensures m / CellSize == k && m % CellSize == m - CellSize * k
  {
  }

  /** Each store of the intended fill goes to its own slot: cell k's block, offset r. */
  lemma IntendedSlot(n: int, c: int, m: int)
    requires n >= 2 && c >= 0 && 0 <= m < CellSize * c
    ensures IntendedStores(n, c)[m].index == m
  {
    IntendedStoresAt(n, c, m);
    IntendedStoreIndex(n, m / CellSize, m % CellSize);
  }

  /** The intended index of store `r` of cell `k` is `48 * k + r`. */
  lemma IntendedStoreIndex(n: int, k: int, r: int)
    requires n >= 2 && k >= 0 && 0 <= r < CellSize
    ensures IntendedStore(n, k / (n - 1), k % (n - 1), r).index == CellSize * k + r
  {
    assert (n - 1) * (k / (n - 1)) + k % (n - 1) == k;
  }

  /** The intended fill stays inside the buffer and covers the first 48*N*(N-1) slots,
      each written exactly once. */
  lemma IntendedFits(n: int)
    requires n >= 2
    ensures IntendedGenerate(n).Filled?
    ensures forall m :: 0 <= m < |IntendedAll(n)| ==> IntendedAll(n)[m].index == m
  {
    var c := (n - 1) * (n - 1);
    assert c >= 0 && c <= n * n;
    forall m | 0 <= m < CellSize * c
      ensures IntendedStores(n, c)[m].index == m
    {
      IntendedSlot(n, c, m);
    }
    assert CellSize * c <= 48 * n * n;
    ApplyInBounds(Zeros(48 * n * n), IntendedAll(n));
  }

  /** The intended vertices lie on the regular grid: vertex v of cell (i, j) at
      (-1.5 + i' * stepSize, 1.5, 1.5 - j' * stepSize) where (i', j') is its grid
      point, whatever row the cell is in. */
  lemma IntendedGrid(n: int, i: int, j: int, v: int)
    requires n >= 2 && 0 <= v < 6
    ensures var row := if NextRow(v) then i + 1 else i;
            var column := if NextColumn(v) then j + 1 else j;
            IntendedStore(n, i, j, 8 * v).value == -1.5 + (row as real) * StepSize(n) &&
            IntendedStore(n, i, j, 8 * v + 1).value == Height &&
            IntendedStore(n, i, j, 8 * v + 2).value == 1.5 - (column as real) * StepSize(n)
  {
    FieldOf(v, 0);
    FieldOf(v, 1);
    FieldOf(v, 2);
  }

  /** Store `8 * v + f` of a cell writes field f of vertex v. */
  lemma FieldOf(v: int, f: int)
    requires 0 <= f < 8
    ensures (8 * v + f) / 8 == v && (8 * v + f) % 8 == f
  {
  }

  /** The intended texture coordinates are the vertex's grid point divided by N - 1:
      within [0, 1] on the grid, and growing with the column. */
  lemma IntendedTex(n: int, i: int, j: int, v: int)
    requires n >= 2 && 0 <= i < n - 1 && 0 <= j < n - 1 && 0 <= v < 6
    ensures var row := if NextRow(v) then i + 1 else i;
            var column := if NextColumn(v) then j + 1 else j;
            var u := IntendedStore(n, i, j, 8 * v + 6).value;
            var w := IntendedStore(n, i, j, 8 * v + 7).value;
            u == (column as real) / ((n - 1) as real) && 0.0 <= u <= 1.0 &&
            w == (row as real) / ((n - 1) as real) && 0.0 <= w <= 1.0
    ensures IntendedStore(n, i, j, 6).value < IntendedStore(n, i, j + 1, 6).value
  {
    FieldOf(v, 6);
    FieldOf(v, 7);
    var d := (n - 1) as real;
    assert d > 0.0;
    var column := if NextColumn(v) then j + 1 else j;
    var row := if NextRow(v) then i + 1 else i;
    FractionInUnit(column, n - 1);
    FractionInUnit(row, n - 1);
    FractionGrows(j, n - 1);
  }

  /** Every texture coordinate the intended fill stores lies in [0, 1]. */
  lemma IntendedAllTex(n: int, m: int)
    requires n >= 2 && 0 <= m < |IntendedAll(n)| && m % 8 >= 6
    ensures 0.0 <= IntendedAll(n)[m].value <= 1.0
  {
    var c := (n - 1) * (n - 1);
    IntendedStoresAt(n, c, m);
    var k := m / CellSize;
    var r := m % CellSize;
    BlockBound(m, c);
    IntendedCell(n, k);
    SlotField(m);
    IntendedTex(n, k / (n - 1), k % (n - 1), r / 8);
  }

  lemma BlockBound(m: int, c: int)
    requires 0 <= m < CellSize * c
    ensures 0 <= m / CellSize < c
  {
  }

  /** Cell k of the intended fill is (k / (N-1), k % (N-1)), inside the cell grid. */
  lemma IntendedCell(n: int, k: int)
    requires n >= 2 && 0 <= k < (n - 1) * (n - 1)
    ensures 0 <= k / (n - 1) < n - 1 && 0 <= k % (n - 1) < n - 1
  {
    var d := n - 1;
    var q := k / d;
    assert k == d * q + k % d;
    if q >= d {
      MulNonNegative(d, q - d);
    }
  }

  lemma MulNonNegative(a: int, b: int)
    requires a >= 0 && b >= 0
    ensures a * b >= 0
  {
  }

  /** Offset m % 48 is field (m % 8) of vertex (m % 48) / 8. */
  lemma SlotField(m: int)
    requires m >= 0
    ensures m % CellSize == 8 * ((m % CellSize) / 8) + m % 8
  {
    var a := m / CellSize;
    var b := m % CellSize;
    var d := b % 8;
    assert b == 8 * (b / 8) + d;
    assert m == 8 * (6 * a + b / 8) + d;
    EighthRemainder(m, 6 * a + b / 8, d);
  }

  lemma EighthRemainder(m: int, q: int, d: int)
    requires 0 <= d < 8 && m == 8 * q + d
    ensures m % 8 == d
  {
  }

  lemma FractionInUnit(a: int, d: int)
    requires 0 <= a <= d && d >= 1
    ensures 0.0 <= (a as real) / (d as real) <= 1.0
  {
  }

  lemma FractionGrows(a: int, d: int)
    requires d >= 1
    ensures (a as real) / (d as real) < ((a + 1) as real) / (d as real)
  {
  }
}
