# Cloth simulation: a Dafny model

This project models the simulation core of a small OpenGL cloth demo. The cloth is
an N x N grid (N = 15) of particles, `Point cloth[N][N]`. Each particle carries a
position, a shading normal, a texture coordinate and a velocity. The
midpoint integrator adds two more fields: a future velocity and a future position.
Neighbouring particles are joined by damped springs. One vertical spring runs from
(i, j) to (i + 1, j) and one horizontal spring from (i, j) to (i, j + 1).

Each frame does two things:

* The spring passes add Hooke-plus-damping impulses to both ends of every spring.
  The impulses are equal and opposite.
* A sweep in row-major order moves each particle. A particle resting on the floor
  (y = -2) is skipped. The top row is pinned while the cloth has not been dropped.
  A particle within 0.55 of the sphere is pushed out to the sphere's surface and
  loses its velocity along the surface normal. Any other particle takes gravity,
  wind and an aerodynamic drag, moves by vel * dt and is clamped at the floor.
  Finally its shading normal is recomputed from two grid neighbours.

Three variants are modelled:

* `update` in cloth.cpp, the explicit Euler step;
* `midpointUpdate` in cloth.cpp, which predicts a half step and then corrects;
* `update` in clothBackup.cpp, an older variant with its own constants and the
  sphere fixed at the origin.

Three more pieces are modelled:

* the two routines that flatten the grid into the float buffers handed to OpenGL;
* the grid initialisation;
* main.cpp's `generateCloth`, which builds a static triangle mesh directly.

Module layout:

* `VecMath` (vec_math.dfy): `dot`, `cross` and `normalize` over the reals. The C
  library's `sqrt` is a parameter that is assumed only to be a square root.
* `Grid` (grid.dfy): the particle record and row-major indexing. It also holds
  `initializeCloth` and the neighbours each particle uses for its normal.
* `Flatten` (flatten.dfy): `flattenClothMatrix` (two triangles per grid cell,
  8 floats per vertex) and `flattenClothMatrix2` (positions only). Both are
  imperative loops over arrays, proved against the buffer they produce.
* `Springs` (springs.dfy): the spring impulse and the spring passes. Each pass is
  written once as a function and once as nested loops proved equal to it. The
  module also states which field each stage writes, and that momentum is
  conserved.
* `Particles` (particles.dfy): the per-particle rules of each variant's sweep.
* `Simulation` (simulation.dfy): the row-major sweep, and the three frame updates
  as methods over the cloth array. Each update is proved equal to a function of
  the old grid. Lemmas follow the function into the individual branches.
* `GenerateMesh` (generate_cloth.dfy): `generateCloth` as a list of buffer stores.
  It shows what the code as written does, and proves a corrected layout. The six
  vertices of a cell are numbered 0 to 5 in the order the loop body stores them.

## Model

| member | source | states |
|---|---|---|
| VecMath.Cross | cloth.cpp:845-850 | the cross product is orthogonal to both of its arguments |
| VecMath.CrossAntiSymmetric | cloth.cpp:845-850 | cross(a, b) is minus cross(b, a), so the normal `cross(b, a)` points opposite to `cross(a, b)` |
| VecMath.CrossScaledSelf | cloth.cpp:845-850 | the cross product of a vector with a multiple of itself is zero |
| VecMath.Normalize | cloth.cpp:840-843 | the zero vector, whose magnitude is zero, normalises to zero (the guarded division) |
| VecMath.NormalizeIsUnit | cloth.cpp:840-843 | for a non-zero vector and a true square root, normalize gives a unit vector pointing the same way |
| VecMath.LengthNonNegative | cloth.cpp:836-838 | sqrt(dot(v, v)) is never negative |
| VecMath.SqrtOfSquare | cloth.cpp:620 | the square root of a*a is a for a >= 0, so the spring length of a vector of length a is a |
| Grid.MakePoint | cloth.cpp:60-67 | a new particle has the given position and texture coordinate, normal (0, 1, 0), zero velocity and future velocity, and future position equal to its position |
| Grid.IdxRoundTrip | cloth.cpp:69 | row-major index i*N + j lies in the grid, and row and column recover (i, j) |
| Grid.InitializeCloth | cloth.cpp:486-502 | the filled array equals the initial sheet, point by point |
| Grid.InitializeRow | cloth.cpp:493-499 | one pass of the inner loop fills row i with the initial sheet's particles, keeping the rows before it |
| Grid.PlacePoint | cloth.cpp:495-497 | the loop body stores the initial sheet's particle (i, j) at flat index i*N + j and changes nothing else |
| Grid.SheetAtRest | cloth.cpp:495-497 | every initial particle is at rest at height 1.0, with normal (0, 1, 0) and future position equal to its position |
| Grid.SheetLayout | cloth.cpp:488-497 | particle (i, j) sits at (-w/2 + i*spacing, 1.0, -w/2 + j*spacing), where w = spacing*(N - 1); its texture coordinate is (j/(N - 1), i/(N - 1)), inside [0, 1] |
| Grid.SheetAt | cloth.cpp:492-497 | the particle stored at (i, j) is the sheet point built from row i and column j |
| Grid.SheetColumnSpacing | cloth.cpp:498-500 | consecutive rows are exactly `spacing` apart in x |
| Grid.SheetRowSpacing | cloth.cpp:494-498 | consecutive columns are exactly `spacing` apart in z |
| Grid.SheetCentred | cloth.cpp:488-490 | the sheet is symmetric about the origin in both x and z |
| Grid.SheetPointMirror | cloth.cpp:488-498 | the sheet points of rows i and N-1-i have opposite x, and those of columns j and N-1-j opposite z |
| Grid.NormalNeighbours | cloth.cpp:700-712 | the two neighbours used for a particle's normal are in the grid and distinct from it |
| Grid.NormalNeighboursInRow | cloth.cpp:701-711 | above the last row they are (i + 1, j) and (i, j + 1); in the last row they are (i - 1, j) and (i, j - 1) |
| Grid.NormalNeighboursAlias | cloth.cpp:703 | the `[i][j+1]` read of the last column aliases the first particle of the next row, and in the last row `[i][j-1]` at column 0 aliases the end of the row before |
| Flatten.FlattenedSlot | cloth.cpp:531-606 | float f of vertex v of cell (i, j) lands at 48*(i*(N - 1) + j) + 8*v + f, inside the buffer, and is field f of the cell's corner particle |
| Flatten.SlotsTileBuffer | cloth.cpp:533 | every slot of the 9408-float buffer belongs to exactly one (cell, vertex, float) |
| Flatten.WriteVertex | cloth.cpp:536-545 | eight consecutive floats become position, normal and texture coordinate; nothing else in the buffer changes |
| Flatten.WriteCell | cloth.cpp:533-606 | the cell's 48 floats are written at its slot and nothing else changes |
| Flatten.FlattenRow | cloth.cpp:531-607 | one pass of the outer loop appends row i's cells to the flattened prefix of the buffer |
| Flatten.CellFloatsFlattened | cloth.cpp:533-606 | the 48 floats one cell writes are the matching slice of the flattened buffer |
| Flatten.FlattenClothMatrix | cloth.cpp:529-612 | the first 9408 floats become the flattened grid; the rest of the buffer is unchanged |
| Flatten.PositionsAt | cloth.cpp:518-521 | floats 3k to 3k + 2 are particle k's position |
| Flatten.WriteVec3 | cloth.cpp:519-521 | three consecutive floats at `index` become the vector's components (a position, or in flattenClothMatrix also a normal); nothing else changes |
| Flatten.WriteVec2 | cloth.cpp:544-545 | two consecutive floats at `index` become the texture coordinate; nothing else changes |
| Flatten.FlattenRow2 | cloth.cpp:517-522 | after row i the buffer holds the positions of rows 0 to i |
| Flatten.FlattenClothMatrix2 | cloth.cpp:514-527 | the first 3*N*N floats become the particle positions; the rest of the buffer is unchanged |
| Springs.SpringImpulse | cloth.cpp:619-624 | two coincident ends (length 0, a NaN in floating point) give no impulse |
| Springs.SpringImpulseAlongAxis | cloth.cpp:619-624 | the impulse lies along the spring's axis |
| Springs.SpringImpulseAntisymmetric | cloth.cpp:619-624 | swapping the two ends negates the impulse |
| Springs.SpringAtRest | cloth.cpp:619-624 | a spring at rest length whose ends move alike along its axis exerts no impulse |
| Springs.ForceAtRest | cloth.cpp:620-624 | at rest length and with equal axial velocities the scalar spring force is zero |
| Springs.Ends | cloth.cpp:617-640 | both ends of every spring are in the grid and distinct |
| Springs.EndsAreGridNeighbours | cloth.cpp:617-641 | a vertical spring joins (i, j) to (i + 1, j); a horizontal spring joins (i, j) to (i, j + 1) |
| Springs.Push | cloth.cpp:625-626 | a spring changes only the field its stage writes, adding the impulse; the first predict loop of midpointUpdate instead overwrites futureVel with vel plus the impulse |
| Springs.SpringStep | cloth.cpp:619-626 | one loop body changes the array exactly as the functional spring step does |
| Springs.PassStep | cloth.cpp:619-626 | one loop body advances the functional pass by one spring |
| Springs.PassRow | cloth.cpp:617-641 | one pass of the inner loop advances the functional pass by one row of springs |
| Springs.SpringPass | cloth.cpp:616-641 | each of the vertical and horizontal loop nests changes the array exactly as the full functional pass does |
| Springs.PassChangesOnlyWritten | cloth.cpp:616-641 | a spring pass changes no field except the one its stage writes |
| Springs.ApplySpringChangesOnlyWritten | cloth.cpp:625-626 | one spring changes no field except the one its stage writes |
| Springs.ApplySpringKeepsTotal | cloth.cpp:625-626 | one accumulating spring leaves the grid's summed velocity unchanged |
| Springs.PassKeepsTotal | cloth.cpp:616-641 | every accumulating pass conserves the summed written field (total momentum) |
| Springs.PassStepKeepsTotal | cloth.cpp:619-626 | each spring of an accumulating pass leaves the summed written field where the springs before it left it |
| Springs.PredictReadsUnwritten | cloth.cpp:723-730 | the predict loop reads only pos and vel, so earlier springs in the pass do not change what later springs compute |
| Springs.PredictVerticalPrefix | cloth.cpp:721-732 | after the first k vertical springs every particle's futureVel is vel plus the impulse of the last spring that wrote it |
| Springs.PredictSpringAt | cloth.cpp:723-730 | one vertical predict spring sets futureVel of its two ends from their vel and of no other particle |
| Springs.PredictVerticalAssigns | cloth.cpp:729-730 | after the whole first predict loop, futureVel of a particle above the last row is vel plus only the spring below it; in the last row it is vel minus the spring above |
| Particles.ClampToFloor | cloth.cpp:696-698 | the result is never below y = -2, keeps x and z, and changes nothing above the floor |
| Particles.BounceGeometry | cloth.cpp:655-663 | after a sphere contact the particle lies exactly on the 0.55 sphere and has no velocity along the contact normal |
| Particles.AeroCornersInGrid | cloth.cpp:670-691 | each of the four corner cases samples two in-grid neighbours in an adjacent row, at most one column away |
| Particles.AeroOpposesFlow | cloth.cpp:692-694 | the drag force va*n1 never points along the averaged velocity: va * dot(vel, n1) <= 0 |
| Particles.NormalPerpendicular | cloth.cpp:700-712 | the recomputed normal is perpendicular to both edges it was built from |
| Particles.WithNormal | cloth.cpp:700-712 | the normal step changes only the normal |
| Particles.ClothBranch | cloth.cpp:652-698 | the branch step of `update` changes only position and velocity |
| Particles.ClothEulerPoint | cloth.cpp:645-713 | a resting particle is left untouched; otherwise only position, velocity and normal change |
| Particles.ClothPinned | cloth.cpp:652-654 | a pinned top-row particle stops and keeps its position |
| Particles.ClothContact | cloth.cpp:655-663 | a particle inside the sphere ends on its surface, with no velocity along the normal |
| Particles.ClothFreeAboveFloor | cloth.cpp:664-698 | a free particle never ends below the floor |
| Particles.HalfStepPoint | cloth.cpp:749-756 | the half step changes only futureVel and futurePos |
| Particles.MidpointBranch | cloth.cpp:796-815 | the branch step of midpointUpdate changes only position and velocity |
| Particles.MidpointPoint | cloth.cpp:789-831 | a particle whose future position rests is left untouched; otherwise futureVel and futurePos are synchronised with vel and pos, and the texture coordinate is kept |
| Particles.MidpointIgnoresCenter | cloth.cpp:799 | the sphere branch is dead (`&& false`), so the result does not depend on where the sphere is |
| Particles.MidpointPinnedPoint | cloth.cpp:796-817 | a pinned particle stops, keeps its position and gets a zero future velocity |
| Particles.BackupBranch | clothBackup.cpp:455-473 | the branch step of the backup update changes only position and velocity |
| Particles.BackupPoint | clothBackup.cpp:448-487 | a resting particle is left untouched; otherwise only position, velocity and normal change |
| Particles.BackupPinnedPoint | clothBackup.cpp:455-457 | a pinned particle stops and keeps its position |
| Particles.BackupContactPoint | clothBackup.cpp:458-466 | a particle inside the sphere at the origin ends on its surface, with no velocity along the normal |
| Particles.BackupFreeFallPoint | clothBackup.cpp:467-473 | free fall adds exactly (0, -2 dt, 0) to the velocity, moves by the new velocity times dt, and clamps at the floor |
| Simulation.SweepNotYet | cloth.cpp:643-644 | particles the row-major sweep has not reached are unchanged |
| Simulation.SweepDone | cloth.cpp:643-714 | a swept particle is the rule applied to the grid as the sweep found it when it got there |
| Simulation.SweepAt | cloth.cpp:643-714 | the final particle k is the rule applied at k to the partly swept grid, in which particle k is still the original |
| Simulation.SweepRow | cloth.cpp:644-713 | one row of the sweep loop advances the functional sweep by one row |
| Simulation.SweepParticles | cloth.cpp:643-714 | the two sweep loops change the array exactly as the functional sweep does |
| Simulation.EulerSpringsKeepPlace | cloth.cpp:616-641 | the two Euler spring passes change only velocities |
| Simulation.EulerSpringsKeepMomentum | cloth.cpp:616-641 | the two Euler spring passes conserve the total velocity of the cloth |
| Simulation.Update | cloth.cpp:614-715 | `update` turns the grid into the Euler step of the old grid: both spring passes, then the sweep |
| Simulation.UpdateSkipsResting | cloth.cpp:646-648 | a particle resting on the floor keeps everything except the velocity the springs gave it |
| Simulation.UpdatePinned | cloth.cpp:652-654 | a pinned top-row particle ends the frame stopped, in its place |
| Simulation.UpdateContact | cloth.cpp:655-663 | a particle inside the sphere ends the frame on its surface, with no velocity along the contact normal |
| Simulation.UpdateFreeAboveFloor | cloth.cpp:664-698 | a free particle ends the frame on or above the floor |
| Simulation.UpdateKeepsTexture | cloth.cpp:614-715 | a frame never changes texture coordinates |
| Simulation.MidpointUpdate | cloth.cpp:717-834 | `midpointUpdate` turns the grid into the midpoint step of the old grid: predict, half step, correct, then sweep |
| Simulation.PredictSpringsKeepPlace | cloth.cpp:719-745 | the predict passes never move a particle |
| Simulation.CorrectSpringsKeepPlace | cloth.cpp:760-785 | the correct passes change only velocities |
| Simulation.MidpointSyncs | cloth.cpp:816-817 | after the frame, a particle not resting has futureVel == vel and futurePos == pos |
| Simulation.MidpointIgnoresSphere | cloth.cpp:799 | the midpoint frame does not depend on where the sphere is |
| Simulation.MidpointPinned | cloth.cpp:796-798 | a pinned top-row particle ends the frame stopped, in its place, with zero future velocity |
| Simulation.BackupUpdate | clothBackup.cpp:417-489 | the backup `update` turns the grid into the backup step of the old grid, with ks = 15, kd = 0.8 and l0 = 0.13 |
| Simulation.BackupSkipsResting | clothBackup.cpp:449-451 | a resting particle keeps everything except the velocity the springs gave it |
| Simulation.BackupPinned | clothBackup.cpp:455-457 | a pinned particle ends the frame stopped, in its place |
| Simulation.BackupContact | clothBackup.cpp:458-466 | a particle inside the sphere at the origin ends the frame on its surface, with no velocity along the normal |
| Simulation.BackupStepAt | clothBackup.cpp:446-488 | particle k of the backup frame is the backup rule applied to the partly swept grid, where k still holds its spring-updated self |
| Simulation.BackupFreeFall | clothBackup.cpp:467-468 | a free particle's velocity after the frame is its spring-updated velocity plus (0, -2 dt, 0) |
| Simulation.BackupFreeFallLands | clothBackup.cpp:469-472 | a free particle moves from where it was by its new velocity times dt, and is clamped at the floor |
| GenerateMesh.StepSize | main.cpp:226 | the grid step is positive |
| GenerateMesh.Zeros | main.cpp:221 | the fresh buffer has 48*N*N floats, all zero |
| GenerateMesh.ApplyInBounds | main.cpp:221-302 | a store list fills the buffer iff every index is in range; otherwise the result names the first store that is out of range |
| GenerateMesh.FillCell | main.cpp:231-296 | one loop body stores its 48 values in order, or stops at the first out-of-range store and reports it as the outcome of the whole function |
| GenerateMesh.CellPrefixIssued | main.cpp:231-296 | every store made while a cell is being written is part of the function's whole run of stores |
| GenerateMesh.FillRow | main.cpp:230-299 | one row of cells performs all its stores and advances currZ by N steps, or stops at the overrun |
| GenerateMesh.GenerateCloth | main.cpp:219-303 | the loops produce exactly the outcome of applying every store in order to a zero buffer |
| GenerateMesh.RunningZStep | main.cpp:298 | `currZ -= stepSize` moves the running z to that of the next cell |
| GenerateMesh.CellCorner | main.cpp:231-234 | cell (i, j) starts at index 48*(N*i + j), with x = -1.5 + i*step and z = 1.5 - (N*i + j)*step |
| GenerateMesh.CellLayout | main.cpp:232-296 | which index and value each of the 48 stores uses |
| GenerateMesh.TexIsZeroOrOne | main.cpp:240-296 | for N >= 3 every texture store is 0 or 1, because the division is between integers; at N = 2 the last column stores 2 (see LastColumnTex) |
| GenerateMesh.FirstCellIndices | main.cpp:232-287 | in cell (0, 0) every x-store index `k*48*8`, ..., `k*48*40` is 0 |
| GenerateMesh.FirstCellCollapses | main.cpp:232-287 | after cell (0, 0) slot 0 holds -1.5 and slots 8, 16, 24, 32 and 40 still hold 0 |
| GenerateMesh.CellStoreOffset | main.cpp:232-296 | no store of a cell lands at offset 8, 16, 24, 32 or 40 of any 48-float block |
| GenerateMesh.BeforeOffXSlots | main.cpp:228-299 | no store issued before cell (i, j) lands at such an offset |
| GenerateMesh.XSlotsNeverWritten | main.cpp:228-299 | over the whole run, no store names slot 48k + 8, ..., 48k + 40 of any cell k: the x coordinates of vertices 1 to 5 are never in place |
| GenerateMesh.XSlotsStayZero | main.cpp:228-299 | however far the run gets, those slots keep the buffer's initial contents |
| GenerateMesh.GenerateOverruns | main.cpp:221-287 | for every N >= 2 the stores run past the end of the buffer |
| GenerateMesh.LastCellOverruns | main.cpp:287 | the x store of vertex 5 of the last cell of the last row lands at or past 48*N*N |
| GenerateMesh.MainGridOverruns | main.cpp:22 | the program's own N = 5 overruns |
| GenerateMesh.RowsDrift | main.cpp:224-300 | currZ is never reset, so the first cell of row 1 is N steps further along z than the first cell of row 0 |
| GenerateMesh.TexCollapses | main.cpp:240 | the u coordinate of vertex 0 of every cell off the last column is 0 |
| GenerateMesh.Vertex5TexRow | main.cpp:287-296 | vertices 2 and 5 have the same position but different texture rows |
| GenerateMesh.LastColumnTex | main.cpp:230-262 | the last cell of a row puts vertex 2 at column N (z = -1.5) with texture u = N/(N-1) in integer division, at least 1, and 2 when N = 2 |
| GenerateMesh.IntendedStoresAt | main.cpp:228-299 | store m of the corrected fill is store m % 48 of cell m / 48, which is cell (m/48 / (N-1), m/48 % (N-1)) |
| GenerateMesh.IntendedSlot | main.cpp:231-296 | in the corrected layout store m writes slot m |
| GenerateMesh.IntendedStoreIndex | main.cpp:231-296 | in the corrected layout store r of cell k writes slot 48k + r |
| GenerateMesh.IntendedCell | main.cpp:228-230 | every cell number the corrected fill visits is a cell (i, j) with i and j below N - 1 |
| GenerateMesh.IntendedFits | main.cpp:221 | the corrected stores all fall inside the 48*N*N buffer and fill its first 48*(N-1)*(N-1) slots, store m at slot m |
| GenerateMesh.IntendedGrid | main.cpp:222-226 | corrected vertices lie on the regular grid: x from the row, z from the column, height 1.5 |
| GenerateMesh.IntendedTex | main.cpp:240-296 | for every cell the corrected fill visits, texture coordinates are grid point over N - 1, inside [0, 1] and increasing along a row |
| GenerateMesh.IntendedAllTex | main.cpp:240-296 | every texture coordinate the corrected fill stores lies in [0, 1] |

## Left out

- Rendering, SDL and OpenGL setup, shaders, the camera, keyboard handling, frame
  timing and `printCloth` are not modelled. The time step `dt`, the `drop` flag,
  the wind and the sphere centre become fields of a parameter record.
- The choice between `update` and `midpointUpdate` in the main loop is not
  modelled. Both are modelled separately.
- Floating point is modelled by reals: no rounding, no NaN, no infinity.
- The C library's `sqrt` is a parameter. Lemmas that need it assume only that it
  is a square root.
- The spring passes are proved for an arbitrary force law. The Hooke law with the
  source's constants is what the frame methods pass in, but no lemma unfolds its
  arithmetic beyond the spring lemmas.
- Springs.SpringImpulse: when a spring has length 0 the source divides by zero
  (NaN). The model gives no impulse instead.
- Particles.BounceGeometry: when a particle sits exactly at the sphere centre the
  source divides by zero. The model gives no push, and the contact lemmas require a
  non-zero distance.
- Particles.AeroOpposesFlow: when the sample triangle is degenerate the source
  divides by zero. The model gives no drag force.
- VecMath.Normalize: the zero vector gives NaN in the source and the zero vector in
  the model.
- N is fixed at 15, as in both simulation files.
- The backup file's particle has no futureVel or futurePos. The model uses one
  particle record for both files, and the backup update never reads or writes
  those two fields.
- GenerateMesh.Zeros: `new float[...]` leaves the buffer uninitialised in C++.
  The model starts from zeros, so the values the code never writes are not the
  garbage the program would see.
- GenerateMesh.GenerateCloth requires N >= 1. With N = 0 the source divides by
  zero when computing the step.
- GenerateMesh.GenerateCloth: an out-of-range store is undefined behaviour in C++.
  The model stops at the first one and reports its index.
- GenerateMesh.IntendedTex: the increase along a row compares a cell with the next
  one, so it is stated for cells before the last column of the corrected fill
  (j + 1 < N - 1); the bounds in [0, 1] hold for every cell it visits.

## Findings

| source | as written | input that shows it | evidently intended | confidence | as-written member | corrected member |
|---|---|---|---|---|---|---|
| main.cpp:243-287 | the x coordinate of vertices 1 to 5 is stored at `k*48*8`, `k*48*16`, ..., `k*48*40` (a `*` where `+` was meant) | any N >= 2: cell (0, 0) writes all six x values to slot 0, and the last cell's `k*48*40` store is far past the 48*N*N buffer | store at `k*48+8`, ..., `k*48+40`, so that cell k fills exactly slots 48k to 48k + 47 | high, not executed | GenerateMesh.GenerateOverruns | GenerateMesh.IntendedFits |
| main.cpp:224-300 | `currZ` is set once before both loops and decremented once per cell, never reset per row | N = 3: cell (0, 0) has z = 1.5 and cell (1, 0) has z = -1.5 | reset z to 1.5 at the start of every row, so that z depends on the column only | high, not executed | GenerateMesh.RowsDrift | GenerateMesh.IntendedGrid |
| main.cpp:240-296 | texture coordinates are `j/(N-1)` and `i/(N-1)` in integer arithmetic, and vertex 5 takes its row from `i+1` although its position is on row i | N = 3, cell (0, 0): u = 0/2 = 0 and (j+1)/2 = 0; at i = N - 2, vertices 2 and 5 share a position but get texture rows 0 and 1 | divide as reals, and take vertex 5's texture row from the row its position is on | medium, not executed | GenerateMesh.Vertex5TexRow | GenerateMesh.IntendedTex |
| main.cpp:228-230 | the column loop runs `j < N` while the row loop runs `i < N-1`, although each cell spans columns j and j + 1 as it spans rows i and i + 1 | any N >= 2: cell (0, N-1) puts vertex 2 at column N, z = -1.5, with texture u = N/(N-1); at N = 2 store 22 of cell (0, 1) is (1+1)/(2-1) = 2 | columns stop at `j < N-1` like the rows, with cell number (N-1)*i + j as in flattenClothMatrix (cloth.cpp:531-534), so every texture coordinate lies in [0, 1] | medium, not executed | GenerateMesh.LastColumnTex | GenerateMesh.IntendedAllTex |
