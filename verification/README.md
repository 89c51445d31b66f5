# Ocean surface and device selection of a Vulkan water renderer

This project models the logic that decides what the water renderer draws and
where it draws it:

- **The ocean mesh** (`OceanGrid`, grid.dfy). For a resolution `n` the mesh
  has `n * n` vertices, laid out row by row over a square tile of side
  `tile` centred on the origin, all in the water colour. The index pass walks
  three cursors `a`, `b`, `c` over the lattice and emits the triangles as it
  goes. The model follows that walk step by step and proves it produces the
  closed-form list: two clockwise triangles per lattice square, squares in
  row-major order. From that list follow its length, `6 (n-1)^2`, and the
  fact that every index is a vertex and every triangle joins three adjacent
  vertices.
- **The waves** (`Waves`, waves.dfy). Applying one Gerstner wave adds, to
  each vertex, its displacement at the vertex's lattice point, scaled by the
  lattice spacing. Updating the ocean starts from zero and applies every wave
  in turn. The per-point Gerstner formula is a parameter. The result per
  vertex is the sum of the waves' contributions, and it does not depend on
  the order of the waves.
- **Swapchain settings** (`Swapchain`, swapchain.dfy): the present mode
  (mailbox, then immediate, then FIFO), the surface format (8-bit BGRA sRGB
  when offered or when the surface leaves it open), the image extent
  (the surface's own, or the window size clamped into its limits), and the
  image count (one above the minimum, capped by the maximum).
- **Device checks** (`DeviceSelection`, device.dfy): the memory-type search
  (lowest index allowed by the filter with all requested property flags),
  the required-extension check, and the device score (type bonus plus
  largest 2D image size, zeroed by each failed requirement).
- **Resolution input** (`AppConfig`, config.dfy): debug builds use 64. Other
  builds reject resolutions of 0 or 1, and give up on resolutions of 2048 or
  more unless the user answers `y`/`Y`.

Supporting modules: `MachineInts` (machine.dfy) holds 32-bit wrap-around and
the signed 32-bit view. `Outcomes` (outcomes.dfy) holds the `Ok`/`Fail`
result with the three failures of the modelled operations. `LatticeArith` (arith.dfy)
holds division facts about lattice indices.

Floating-point values are modelled as `real`. Integer widths are written out
where they matter:

- the `uint32` square of the resolution;
- the `uint32` image count;
- the score, summed in 32 bits and stored in an `int`;
- the memory-type masks, as `bv32`.

## Model

| member | source | states |
|---|---|---|
| OceanGrid.GenerateVertices | VulkanTutorial/ocean.cpp:9-21 | there are `n*n` vertices, and vertex `i` sits at column `i % n` and row `i / n` of the tile. Its position is `-tile/2` plus the lattice step times that column/row; it has the water colour. Its texture coordinates are `i / n` and `row / n` in real division, u taken from the flat index as the source computes it. The row counter the loop keeps equals `i / n` |
| OceanGrid.RowCounterStep | VulkanTutorial/ocean.cpp:16-18 | bumping the row whenever the column index is a positive multiple of `n` keeps the row equal to `column / n` |
| OceanGrid.VertexInsideTile | VulkanTutorial/ocean.cpp:13-20 | every vertex position lies in `[-tile/2, tile/2)` in x and y, at height 0, and has the water colour |
| OceanGrid.LatticeCoordBelowTile | VulkanTutorial/ocean.cpp:13-20 | a lattice offset `k * tile / n` with `k < n` lies in `[0, tile)` |
| OceanGrid.TexcoordUIsRowPlusColumnFraction | VulkanTutorial/ocean.cpp:14-20 | the u texture coordinate, `texStep * column` over the flat index, equals the row plus the column's fraction of the row |
| OceanGrid.GenerateIndices | VulkanTutorial/ocean.cpp:25-59 | the cursor walk, with its skip at row ends and its bounds guard, emits exactly the row-major enumeration of lattice squares, two clockwise triangles each; its loop counter ends at the number of triangles emitted, a third of the index count |
| OceanGrid.WalkIsQuadEnumeration | VulkanTutorial/ocean.cpp:25-59 | the walk started at `a = 0, b = n, c = 1` equals the closed-form triangle list, for every resolution, including 0 and 1 (no triangles) |
| OceanGrid.EvenWalk | VulkanTutorial/ocean.cpp:29-58 | from an even step with `a` and `b` at the top-left and bottom-left corners of square `(r, j)`, the rest of the walk is the enumeration from that square on |
| OceanGrid.OddWalk | VulkanTutorial/ocean.cpp:29-58 | from the odd step inside square `(r, j)`, the rest of the walk is that square's second triangle followed by the enumeration from the next square on |
| OceanGrid.EvenStepIntoNextRow | VulkanTutorial/ocean.cpp:37-42 | at the last column of a row, the skip moves all cursors one step, so the walk continues with the first square of the next row and never joins the end of one row to the start of the next |
| OceanGrid.EvenStepOffLastRow | VulkanTutorial/ocean.cpp:44-51 | at the end of the last row of squares, the bounds guard ends the walk |
| OceanGrid.IsRowStartIsMultiple | VulkanTutorial/ocean.cpp:38 | the model's row-start test agrees with the source's `c % resolution == 0` |
| OceanGrid.EnumerationLength | VulkanTutorial/ocean.cpp:25-59 | for `n >= 2` the index list has `6 (n-1)^2` entries; for `n < 2` it is empty |
| OceanGrid.QuadAtItsSlot | VulkanTutorial/ocean.cpp:44-58 | the six indices at offset `6 (r (n-1) + j)` are the two triangles of square `(r, j)`: `(a, a+1, a+n)` and `(a+1, a+n+1, a+n)` with `a = r n + j` |
| OceanGrid.QuadsFromIsTail | VulkanTutorial/ocean.cpp:25-59 | the enumeration from square `(r, j)` on is the suffix of the whole list after the squares before it |
| OceanGrid.RowAndColumnOf | VulkanTutorial/ocean.cpp:17-20 | the row and column the locality statements use are the quotient and remainder by `n` that the mesh code uses |
| OceanGrid.CellCoordinates | VulkanTutorial/ocean.cpp:17-20 | the vertex at flat index `r n + j`, with `j < n`, lies on row `r` and column `j` |
| OceanGrid.CellsIsProduct | VulkanTutorial/ocean.cpp:9 | the vertex count built by repeated addition equals `n * n` |
| OceanGrid.QuadsFromLength | VulkanTutorial/ocean.cpp:25-59 | the enumeration from square `(r, j)` on has six entries per remaining square |
| OceanGrid.EnumerationInGridAndLocal | VulkanTutorial/ocean.cpp:44-51 | every emitted index is below `Cells(n)`, which `CellsIsProduct` shows is `n*n`, and the three corners of each triangle are lattice neighbours (at most one row and one column apart) |
| OceanGrid.QuadsFromLocal | VulkanTutorial/ocean.cpp:44-51 | the same for every suffix of the list, whose length is a multiple of three |
| OceanGrid.QuadIsLocal | VulkanTutorial/ocean.cpp:44-51 | the two triangles of one square are inside the grid and join neighbouring vertices |
| Waves.SamplePoint | VulkanTutorial/gerstner_waves.cpp:51 | vertex `i` is sampled at column `i % n` and row `i / n`, in index units: both coordinates are whole numbers, the column lies in `[0, n)`, and row times `n` plus column gives back `i`, which fixes the point |
| Waves.ApplyWave | VulkanTutorial/gerstner_waves.cpp:40-56 | the result has `resolution^2` entries; entry `i` is input entry `i` plus the wave's displacement at vertex `i` scaled by `tile / resolution` |
| Waves.UpdateWaves | VulkanTutorial/ocean.cpp:109-119 | with no waves the result is one zero displacement per vertex; otherwise it has `resolution^2` entries, each the sum of every wave's contribution, in list order, starting from zero |
| Waves.SuperposedConcat | VulkanTutorial/ocean.cpp:114-116 | applying two lists of waves one after the other adds their displacements |
| Waves.WaveOrderIrrelevant | VulkanTutorial/ocean.cpp:114-116 | any rearrangement of the wave list (the same waves, as a multiset) gives every vertex the same displacement |
| Swapchain.ChoosePresentMode | VulkanTutorial/application.cpp:1784-1802 | mailbox is chosen if and only if it is offered; immediate if and only if it is offered and mailbox is not; FIFO if and only if neither is offered |
| Swapchain.ChooseSurfaceFormat | VulkanTutorial/application.cpp:1765-1781 | when the only offer is an undefined format, the preferred BGRA sRGB format; otherwise the preferred format if it is offered, else the first offer |
| Swapchain.ChooseExtent | VulkanTutorial/application.cpp:1805-1821 | the surface's current extent unless its width is the "window decides" marker. In that case each dimension is the window's clamped into the surface's limits. It lies within them when they are ordered, and equals the window's when that already lies within them. Below the minimum it is the minimum; above the maximum it is the larger of the two limits |
| Swapchain.ExtentIdempotent | VulkanTutorial/application.cpp:1805-1821 | choosing again with the chosen extent as the window size gives the same extent |
| Swapchain.ImageCount | VulkanTutorial/application.cpp:425-430 | never above a non-zero maximum. For conforming capabilities it is at least the minimum, one above the minimum unless that exceeds the maximum, and otherwise the maximum. A minimum of `2^32 - 1` wraps the count to zero |
| DeviceSelection.FindMemoryType | VulkanTutorial/application.cpp:1495-1510 | on success, the index is allowed by the filter bit, has every requested property flag, and no lower index does both. It fails with "no suitable memory" exactly when no index qualifies |
| DeviceSelection.CheckExtensionSupport | VulkanTutorial/application.cpp:1433-1452 | true exactly when every required name is among the supported ones, with or without the early stop of non-debug builds |
| DeviceSelection.Score | VulkanTutorial/application.cpp:1361-1430 | zero for a device without geometry shaders, without complete queue families, without the required extensions, or without a surface format or present mode. Otherwise the 32-bit signed value of type bonus plus largest 2D image size, which is that sum itself when it fits |
| DeviceSelection.ScoreIgnoresOptionalFeatures | VulkanTutorial/application.cpp:1389-1399 | missing wireframe or anisotropic-filtering support never changes a device's score |
| DeviceSelection.DeviceTypeRanking | VulkanTutorial/application.cpp:1371-1386 | of two usable devices with the same image limit, at most `2^31 - 1 - 10000` so that the 32-bit sum cannot wrap, the one with the higher-ranked type (discrete, integrated, virtual, other) scores higher |
| AppConfig.ConfigureResolution | VulkanTutorial/application.cpp:51-68 | debug builds get 64. Otherwise 0 and 1 fail as unfit; 2048 and above fail as aborted unless the answer is `y` or `Y`; every other request, 2 to 2047 or a confirmed larger one, is accepted unchanged. Any accepted resolution is at least 2 |
| AppConfig.AcceptedResolutionHasTriangles | VulkanTutorial/application.cpp:51-70 | any resolution the corrected check accepts has a square that fits in 32 bits, and gives a mesh with at least one lattice square, six indices, in which every index names a vertex and every triangle joins neighbouring vertices |
| AppConfig.SquareAsWritten | VulkanTutorial/ocean.cpp:9 | the vertex count is the square of the resolution reduced modulo `2^32`, and equals the true square when that fits |
| AppConfig.ConfirmedResolutionCanWrap | VulkanTutorial/ocean.cpp:9 | a confirmed resolution of 65536 passes the check, yet its 32-bit square is 0 |
| AppConfig.ConfigureResolutionChecked | VulkanTutorial/application.cpp:51-68 | the check with an upper bound: every accepted resolution lies between 2 and 32768, a larger request fails as unfit, and otherwise it behaves like the check as written |
| AppConfig.WalkCounterFits | VulkanTutorial/ocean.cpp:29 | the index walk's signed counter, which ends at a third of the index count, stays within the signed 32-bit range if and only if the resolution is at most 32768 |
| AppConfig.SquareFits | VulkanTutorial/ocean.cpp:9 | the square of a resolution fits in 32 bits if and only if the resolution is at most 65535 |
| AppConfig.CheckedResolutionFitsGrid | VulkanTutorial/gerstner_waves.cpp:42-48 | for every resolution the corrected check accepts, the 32-bit square is the true square, which is what the mesh generator and the wave pass require; the square is also at most `2^31 - 1`, so the wave pass's signed counter cannot overflow, and neither can the index walk's |
| MachineInts.Wrap32 | VulkanTutorial/application.cpp:425 | unsigned 32-bit arithmetic: the result is below `2^32`, congruent to the exact value, and equal to it when it fits |
| MachineInts.AsInt32 | VulkanTutorial/application.cpp:1386 | storing a 32-bit value in an `int`: the result is in the signed 32-bit range, congruent modulo `2^32` to the input, and equal to it when it fits |

## Left out

- The Gerstner displacement formula (`get_displacement`) and the wave constants (`initializeWave`) are left out. They are single-precision trigonometry with fixed constants. The formula is a function parameter of `Waves`.
- Float rounding is left out: positions, texture coordinates, step sizes and displacements are reals.
- The mesh's vertex-position formula is modelled with `real` division `tile / n`.
- The logger calls and their messages are left out.
- The console prompt is left out. The typed resolution and the confirmation character are parameters.
- The window-size query is left out. The window size is an unsigned extent parameter, so a negative size from the windowing library is not modelled.
- The driver queries are left out: device properties, features, memory properties, extension lists and surface support. Their results are parameters or fields of `PhysicalDevice`.
- The device extension list comes from a header that is not part of this model, so the required names are a parameter.
- `pick_physical_device`, which orders the scores in a multimap and takes the best, is left out.
- `find_queue_families` is reduced to its verdict, the `queuesComplete` field.
- The Vulkan object creation and destruction around these functions is left out (buffers, images, pipelines, command buffers).
- OceanGrid.GenerateIndices: the source's loop counter `i` is a signed `int`, modelled as an unbounded natural returned as `counter`. It overflows, which is undefined behaviour in C++, for resolutions above 32768 (`AppConfig.WalkCounterFits`); the model does not represent that overflow.
- OceanGrid.GenerateVertices, OceanGrid.GenerateIndices, Waves.ApplyWave, Waves.UpdateWaves: these require the square of the resolution to fit in 32 bits. The source computes it modulo `2^32`; that case is the finding below, and `AppConfig.CheckedResolutionFitsGrid` shows that the corrected resolution check establishes the requirement.
- Waves.ApplyWave: the source's loop counter `i` is a signed `int` compared against the unsigned vertex count. For resolutions of 46341 and above the count exceeds `2^31 - 1` and the counter overflows, which is undefined behaviour in C++; the model counts with an unbounded natural and does not represent that overflow. The corrected resolution check keeps the count at most `2^31 - 1`.
- Swapchain.ChooseSurfaceFormat: requires a non-empty offer list, as the source indexes its first element. Devices without formats score zero and are never chosen.

## Findings

| source | as written | input that shows it | evidently intended | confidence | as-written member | corrected member |
|---|---|---|---|---|---|---|
| VulkanTutorial/ocean.cpp:9 | the vertex count `resolution * resolution` is computed in `uint32_t` (also in gerstner_waves.cpp:42), and the resolution check at application.cpp:55-66 has no upper bound once the user confirms | resolution 65536 confirmed with `y`: the check accepts it and the square wraps to 0, so the mesh has no vertices | reject a resolution the program cannot handle, as it rejects one too small for a grid: above 65535 the square wraps, and above 32768 the signed loop counters of the index walk (ocean.cpp:29) and, from 46341, of the wave pass (gerstner_waves.cpp:50) overflow, so the corrected check accepts at most 32768 | not executed; high that the wrap happens, medium that rejection is the intended remedy | AppConfig.ConfirmedResolutionCanWrap | AppConfig.ConfigureResolutionChecked |
