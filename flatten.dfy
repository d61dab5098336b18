/**
 * flattenClothMatrix and flattenClothMatrix2 (identical in cloth.cpp and
 * clothBackup.cpp): copy the grid into the float buffer handed to OpenGL.
 *
 * flattenClothMatrix emits two triangles per grid cell, six vertices of eight
 * floats each (pos.xyz, norm.xyz, texCoord.uv), 48 floats per cell; cell (i, j)
 * starts at slot 48 * (i * (N - 1) + j). flattenClothMatrix2 emits the positions
 * only, three floats per particle.
 */
module Flatten {
  import opened VecMath
  import opened Grid

  /** Floats per vertex. */
  const VertexSize: int := 8

  /** Floats per grid cell: two triangles of three vertices. */
  const CellSize: int := 48

  /** Cells per row (and rows of cells). */
  const CellsPerRow: int := 14

  /** `clothDataSize = 48 * (N - 1) * (N - 1)`. */
  const ClothDataSize: int := 9408

  /** The eight floats of one vertex: pos.xyz, norm.xyz, texCoord.uv. */
  function VertexFloats(p: Point): (r: seq<real>)
    ensures |r| == VertexSize
  {
    [p.pos.x, p.pos.y, p.pos.z, p.norm.x, p.norm.y, p.norm.z, p.texCoord.u, p.texCoord.v]
  }

  /**
   * The grid particle behind vertex v (0..5) of cell (i, j): triangle one is
   * (i,j), (i+1,j), (i,j+1); triangle two is (i+1,j), (i+1,j+1), (i,j+1).
   */
  function Corner(i: int, j: int, v: int): (k: int)
    requires 0 <= i < CellsPerRow && 0 <= j < CellsPerRow && 0 <= v < 6
    ensures 0 <= k < Cells
  {
    IdxRoundTrip(i, j);
    IdxRoundTrip(i + 1, j + 1);
    if v == 0 then Idx(i, j)
    else if v == 1 || v == 3 then Idx(i + 1, j)
    else if v == 4 then Idx(i + 1, j + 1)
    else Idx(i, j + 1)
  }

  /** The float flattenClothMatrix leaves at `slot`. */
  function FlattenedAt(s: seq<Point>, slot: int): real
    requires |s| == Cells && 0 <= slot < ClothDataSize
  {
    var cell := slot / CellSize;
    var r := slot % CellSize;
    VertexFloats(s[Corner(cell / CellsPerRow, cell % CellsPerRow, r / VertexSize)])[r % VertexSize]
  }

  /** The buffer flattenClothMatrix fills from the grid s. */
  function Flattened(s: seq<Point>): (r: seq<real>)
    requires |s| == Cells
    ensures |r| == ClothDataSize
  {
    seq(ClothDataSize, slot requires 0 <= slot < ClothDataSize => FlattenedAt(s, slot))
  }

  /** The slot of field f of vertex v of cell (i, j). */
  function SlotOf(i: int, j: int, v: int, f: int): int {
    CellSize * (i * CellsPerRow + j) + VertexSize * v + f
  }

  /** Slot `48*(i*(N-1)+j) + 8*v + f` holds field f of vertex v of cell (i, j). */
  lemma FlattenedSlot(s: seq<Point>, i: int, j: int, v: int, f: int)
    requires |s| == Cells
    requires 0 <= i < CellsPerRow && 0 <= j < CellsPerRow && 0 <= v < 6 && 0 <= f < VertexSize
    ensures 0 <= SlotOf(i, j, v, f) < ClothDataSize
    ensures Flattened(s)[SlotOf(i, j, v, f)] == VertexFloats(s[Corner(i, j, v)])[f]
  {
    SlotParts(i, j, v, f);
  }

  /** The divisions FlattenedAt performs recover cell, row, column, vertex and field. */
  lemma SlotParts(i: int, j: int, v: int, f: int)
    requires 0 <= i < CellsPerRow && 0 <= j < CellsPerRow && 0 <= v < 6 && 0 <= f < VertexSize
    ensures var slot := SlotOf(i, j, v, f);
      slot / CellSize == i * CellsPerRow + j && slot % CellSize == VertexSize * v + f &&
      (i * CellsPerRow + j) / CellsPerRow == i && (i * CellsPerRow + j) % CellsPerRow == j &&
      (VertexSize * v + f) / VertexSize == v && (VertexSize * v + f) % VertexSize == f
  {
  }

  /**
   * Every slot of the buffer belongs to exactly one (cell, vertex, field): the
   * cells' 48-float blocks tile the buffer with no gap and no overlap, so each slot
   * is written once.
   */
  lemma SlotsTileBuffer(slot: int)
    requires 0 <= slot < ClothDataSize
    ensures var cell := slot / CellSize; var r := slot % CellSize;
      0 <= cell / CellsPerRow < CellsPerRow && 0 <= cell % CellsPerRow < CellsPerRow &&
      slot == SlotOf(cell / CellsPerRow, cell % CellsPerRow, r / VertexSize, r % VertexSize)
    ensures forall i, j, v, f ::
      0 <= i < CellsPerRow && 0 <= j < CellsPerRow && 0 <= v < 6 && 0 <= f < VertexSize &&
      slot == SlotOf(i, j, v, f)
      ==> i == (slot / CellSize) / CellsPerRow && j == (slot / CellSize) % CellsPerRow &&
          v == (slot % CellSize) / VertexSize && f == (slot % CellSize) % VertexSize
  {
    forall i, j, v, f |
      0 <= i < CellsPerRow && 0 <= j < CellsPerRow && 0 <= v < 6 && 0 <= f < VertexSize &&
      slot == SlotOf(i, j, v, f)
      ensures i == (slot / CellSize) / CellsPerRow && j == (slot / CellSize) % CellsPerRow &&
              v == (slot % CellSize) / VertexSize && f == (slot % CellSize) % VertexSize
    {
      SlotParts(i, j, v, f);
    }
  }

  /** t with the block a written over it from slot i on. */
  function Splice(t: seq<real>, i: int, a: seq<real>): (r: seq<real>)
    requires 0 <= i && i + |a| <= |t|
    ensures |r| == |t|
  {
    t[..i] + a + t[i + |a|..]
  }

  /** Writing a at i and then b right after it is writing a + b at i. */
  lemma SpliceAdjacent(t: seq<real>, i: int, a: seq<real>, b: seq<real>)
    requires 0 <= i && i + |a| + |b| <= |t|
    ensures Splice(Splice(t, i, a), i + |a|, b) == Splice(t, i, a + b)
  {
    var u := Splice(t, i, a);
    assert u[..i + |a|] == t[..i] + a;
    assert u[i + |a| + |b|..] == t[i + |a| + |b|..];
  }

  /** One "vert" block of flattenClothMatrix: eight consecutive floats from p. */
  method WriteVertex(clothData: array<real>, index: int, p: Point)
    requires 0 <= index && index + VertexSize <= clothData.Length
    modifies clothData
    ensures clothData[..] == Splice(old(clothData[..]), index, VertexFloats(p))
  {
    ghost var t := clothData[..];
    ghost var pos, norm, tex := [p.pos.x, p.pos.y, p.pos.z], [p.norm.x, p.norm.y, p.norm.z], [p.texCoord.u, p.texCoord.v];
    WriteVec3(clothData, index, p.pos);
    WriteVec3(clothData, index + 3, p.norm);
    SpliceAdjacent(t, index, pos, norm);
    WriteVec2(clothData, index + 6, p.texCoord);
    SpliceAdjacent(t, index, pos + norm, tex);
    assert pos + norm + tex == VertexFloats(p);
  }

  /** The two texture-coordinate stores of a vertex. */
  method WriteVec2(clothData: array<real>, index: int, tex: Vec2)
    requires 0 <= index && index + 2 <= clothData.Length
    modifies clothData
    ensures clothData[..] == Splice(old(clothData[..]), index, [tex.u, tex.v])
  {
    ghost var t := clothData[..];
    clothData[index] := tex.u;
    clothData[index + 1] := tex.v;
    assert clothData[..index] == t[..index];
    assert clothData[index + 2..] == t[index + 2..];
    assert clothData[..] == clothData[..index] + clothData[index..index + 2] + clothData[index + 2..];
  }

  /** flattenClothMatrix: fills the first 48*(N-1)^2 floats, leaves the grid alone. */
  method FlattenClothMatrix(cloth: array<Point>, clothData: array<real>)
    requires cloth.Length == Cells && clothData.Length >= ClothDataSize
    modifies clothData
    ensures clothData[..] == Splice(old(clothData[..]), 0, Flattened(cloth[..]))
  {
    ghost var before := clothData[..];
    for i := 0 to CellsPerRow
      invariant clothData[..] == Splice(before, 0, Flattened(cloth[..])[..CellSize * (i * CellsPerRow)])
    {
      FlattenRow(cloth, clothData, i, before);
    }
    assert Flattened(cloth[..])[..ClothDataSize] == Flattened(cloth[..]);
  }

  /** One pass of flattenClothMatrix's inner loop: the cells of row i. */
  method FlattenRow(cloth: array<Point>, clothData: array<real>, i: int, ghost before: seq<real>)
    requires cloth.Length == Cells && clothData.Length >= ClothDataSize && |before| == clothData.Length
    requires 0 <= i < CellsPerRow
    requires clothData[..] == Splice(before, 0, Flattened(cloth[..])[..CellSize * (i * CellsPerRow)])
    modifies clothData
    ensures clothData[..] == Splice(before, 0, Flattened(cloth[..])[..CellSize * (i * CellsPerRow + CellsPerRow)])
  {
    ghost var s := cloth[..];
    for j := 0 to CellsPerRow
      invariant cloth[..] == s
      invariant clothData[..] == Splice(before, 0, Flattened(s)[..CellSize * (i * CellsPerRow + j)])
    {
      WriteCell(cloth, clothData, i, j, s);
      FlattenedPrefixGrows(before, s, i, j);
    }
  }

  /** Writing cell (i, j) after the cells before it extends the flattened prefix by one block. */
  lemma FlattenedPrefixGrows(before: seq<real>, s: seq<Point>, i: int, j: int)
    requires |s| == Cells && |before| >= ClothDataSize
    requires 0 <= i < CellsPerRow && 0 <= j < CellsPerRow
    ensures 0 <= CellSize * (i * CellsPerRow + j) && CellSize * (i * CellsPerRow + j) + CellSize <= ClothDataSize
    ensures Splice(Splice(before, 0, Flattened(s)[..CellSize * (i * CellsPerRow + j)]), CellSize * (i * CellsPerRow + j), CellFloats(s, i, j))
         == Splice(before, 0, Flattened(s)[..CellSize * (i * CellsPerRow + j) + CellSize])
  {
    var base := CellSize * (i * CellsPerRow + j);
    CellFloatsFlattened(s, i, j);
    SpliceAdjacent(before, 0, Flattened(s)[..base], CellFloats(s, i, j));
    assert Flattened(s)[..base] + CellFloats(s, i, j) == Flattened(s)[..base + CellSize];
  }

  /** The 48 floats of cell (i, j): its six vertices in drawing order. */
  function CellFloats(s: seq<Point>, i: int, j: int): (r: seq<real>)
    requires |s| == Cells && 0 <= i < CellsPerRow && 0 <= j < CellsPerRow
    ensures |r| == CellSize
  {
    VertexFloats(s[Corner(i, j, 0)]) + VertexFloats(s[Corner(i, j, 1)]) + VertexFloats(s[Corner(i, j, 2)])
    + VertexFloats(s[Corner(i, j, 3)]) + VertexFloats(s[Corner(i, j, 4)]) + VertexFloats(s[Corner(i, j, 5)])
  }

  /** Cell (i, j)'s block of the flattened buffer is exactly its six vertices. */
  lemma CellFloatsFlattened(s: seq<Point>, i: int, j: int)
    requires |s| == Cells && 0 <= i < CellsPerRow && 0 <= j < CellsPerRow
    ensures 0 <= CellSize * (i * CellsPerRow + j) && CellSize * (i * CellsPerRow + j) + CellSize <= ClothDataSize
    ensures Flattened(s)[CellSize * (i * CellsPerRow + j)..CellSize * (i * CellsPerRow + j) + CellSize] == CellFloats(s, i, j)
  {
    var base := CellSize * (i * CellsPerRow + j);
    FlattenedSlot(s, i, j, 0, 0);
    forall t | 0 <= t < CellSize
      ensures Flattened(s)[base + t] == CellFloats(s, i, j)[t]
    {
      var v := t / VertexSize;
      var f := t % VertexSize;
      FlattenedSlot(s, i, j, v, f);
      assert base + t == SlotOf(i, j, v, f);
      CellFloatsAt(s, i, j, t);
    }
  }

  /** Float t of a cell's block is field t % 8 of vertex t / 8. */
  lemma CellFloatsAt(s: seq<Point>, i: int, j: int, t: int)
    requires |s| == Cells && 0 <= i < CellsPerRow && 0 <= j < CellsPerRow && 0 <= t < CellSize
    ensures CellFloats(s, i, j)[t] == VertexFloats(s[Corner(i, j, t / VertexSize)])[t % VertexSize]
  {
  }

  /** The body of flattenClothMatrix's loops for cell (i, j): its six "vert" blocks. */
  method WriteCell(cloth: array<Point>, clothData: array<real>, i: int, j: int, ghost s: seq<Point>)
    requires cloth.Length == Cells && clothData.Length >= ClothDataSize && cloth[..] == s
    requires 0 <= i < CellsPerRow && 0 <= j < CellsPerRow
    modifies clothData
    ensures CellSize * (i * CellsPerRow + j) + CellSize <= clothData.Length
    ensures clothData[..] == Splice(old(clothData[..]), CellSize * (i * CellsPerRow + j), CellFloats(s, i, j))
  {
    var index := CellSize * (i * CellsPerRow + j);
    ghost var t := clothData[..];
    var p00, p10 := cloth[i * N + j], cloth[(i + 1) * N + j];
    var p01, p11 := cloth[i * N + j + 1], cloth[(i + 1) * N + j + 1];
    ghost var v0, v1, v2 := VertexFloats(p00), VertexFloats(p10), VertexFloats(p01);
    ghost var v3, v4, v5 := VertexFloats(p10), VertexFloats(p11), VertexFloats(p01);
    WriteVertex(clothData, index, p00);
    WriteVertex(clothData, index + 8, p10);
    SpliceAdjacent(t, index, v0, v1);
    WriteVertex(clothData, index + 16, p01);
    SpliceAdjacent(t, index, v0 + v1, v2);
    WriteVertex(clothData, index + 24, p10);
    SpliceAdjacent(t, index, v0 + v1 + v2, v3);
    WriteVertex(clothData, index + 32, p11);
    SpliceAdjacent(t, index, v0 + v1 + v2 + v3, v4);
    WriteVertex(clothData, index + 40, p01);
    SpliceAdjacent(t, index, v0 + v1 + v2 + v3 + v4, v5);
  }

  // ---------------------------------------------------------------------------
  // flattenClothMatrix2
  // ---------------------------------------------------------------------------

  /** The buffer flattenClothMatrix2 fills. */
  function Positions(s: seq<Point>): (r: seq<real>)
    requires |s| == Cells
    ensures |r| == 3 * Cells
  {
    seq(3 * Cells, t requires 0 <= t < 3 * Cells =>
      var p := s[t / 3].pos; if t % 3 == 0 then p.x else if t % 3 == 1 then p.y else p.z)
  }

  /** Particle k's position sits at slots 3k, 3k+1 and 3k+2 of flattenClothMatrix2's buffer. */
  lemma PositionsAt(s: seq<Point>, k: int)
    requires |s| == Cells && 0 <= k < Cells
    ensures Positions(s)[3 * k..3 * k + 3] == [s[k].pos.x, s[k].pos.y, s[k].pos.z]
  {
    assert (3 * k) / 3 == k && (3 * k + 1) / 3 == k && (3 * k + 2) / 3 == k;
  }

  /** flattenClothMatrix2: writes the 3*N*N position floats, leaves the grid alone. */
  method FlattenClothMatrix2(cloth: array<Point>, clothData: array<real>)
    requires cloth.Length == Cells && clothData.Length >= 3 * Cells
    modifies clothData
    ensures clothData[..] == Splice(old(clothData[..]), 0, Positions(cloth[..]))
  {
    ghost var before := clothData[..];
    for i := 0 to N
      invariant clothData[..] == Splice(before, 0, Positions(cloth[..])[..3 * (i * N)])
    {
      FlattenRow2(cloth, clothData, i, before);
    }
    assert Positions(cloth[..])[..3 * Cells] == Positions(cloth[..]);
  }

  /** One pass of flattenClothMatrix2's inner loop: the positions of row i. */
  method FlattenRow2(cloth: array<Point>, clothData: array<real>, i: int, ghost before: seq<real>)
    requires cloth.Length == Cells && clothData.Length >= 3 * Cells && |before| == clothData.Length
    requires 0 <= i < N
    requires clothData[..] == Splice(before, 0, Positions(cloth[..])[..3 * (i * N)])
    modifies clothData
    ensures clothData[..] == Splice(before, 0, Positions(cloth[..])[..3 * (i * N + N)])
  {
    for j := 0 to N
      invariant clothData[..] == Splice(before, 0, Positions(cloth[..])[..3 * (i * N + j)])
    {
      WriteVec3(clothData, 3 * (i * N + j), cloth[i * N + j].pos);
      PositionsPrefixGrows(before, cloth[..], i * N + j);
    }
  }

  /** Three stores of consecutive floats from a vector: a position in
      flattenClothMatrix2's loop body, a position or a normal in flattenClothMatrix's. */
  method WriteVec3(clothData: array<real>, index: int, pos: Vec3)
    requires 0 <= index && index + 3 <= clothData.Length
    modifies clothData
    ensures clothData[..] == Splice(old(clothData[..]), index, [pos.x, pos.y, pos.z])
  {
    ghost var t := clothData[..];
    clothData[index] := pos.x;
    clothData[index + 1] := pos.y;
    clothData[index + 2] := pos.z;
    assert clothData[..index] == t[..index];
    assert clothData[index + 3..] == t[index + 3..];
    assert clothData[..] == clothData[..index] + clothData[index..index + 3] + clothData[index + 3..];
  }

  /** Writing particle k's position after those before it extends the prefix by three floats. */
  lemma PositionsPrefixGrows(before: seq<real>, s: seq<Point>, k: int)
    requires |s| == Cells && |before| >= 3 * Cells && 0 <= k < Cells
    ensures Splice(Splice(before, 0, Positions(s)[..3 * k]), 3 * k, [s[k].pos.x, s[k].pos.y, s[k].pos.z])
         == Splice(before, 0, Positions(s)[..3 * k + 3])
  {
    PositionsAt(s, k);
    SpliceAdjacent(before, 0, Positions(s)[..3 * k], [s[k].pos.x, s[k].pos.y, s[k].pos.z]);
    assert Positions(s)[..3 * k] + Positions(s)[3 * k..3 * k + 3] == Positions(s)[..3 * k + 3];
  }
}
