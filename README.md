# Voxel world core, modelled in Dafny

This project models the core of a procedural voxel engine:

- **Chunks.** A chunk is a flat buffer of 32·32·32 = 32768 block ids (`u8`, 0 = air). Cells are read and written through the linear index `z·32² + y·32 + x`.
- **Chunk positions.** A world coordinate splits into a chunk coordinate (Euclidean quotient by 32) and a local coordinate (Euclidean remainder).
- **Terrain generator.** It fills every cell of a chunk from a seeded heightfield. A cell is solid (1) when its world height is at or below the height of its column, and air (0) otherwise.
- **World.** A registry maps chunk positions to chunks. A block whose chunk is absent reads as air. Generating a chunk inserts it, replacing any earlier entry.
- **Ray traversal.** This is the discrete step rule of 3D-DDA (Amanatides–Woo): pick the axis with the nearest boundary crossing, step the voxel along it, and move that axis's next crossing on by its increment. The march loop repeats this until it reaches a solid voxel or the ray's range.

Modules, one per source file or component:

- `Primitives` (`primitives.dfy`) holds the machine integer ranges (`u8`, `u32`, `i32`) and `Option`.
- `ChunkStorage` (`chunk.dfy`) holds `Chunk`, a class over an `array<u8>`. It also holds pure lemmas about the index arithmetic and about buffers as sequences.
- `ChunkCoords` (`chunk_pos.dfy`) holds `ChunkPos` and the quotient/remainder split.
- `TerrainGen` (`generate.dfy`) holds `WorldGenerator`, a class. It fills a chunk with a triple nested loop proved against the specification function `Terrain`.
- `WorldRegistry` (`world.dfy`) holds `World`, a class holding a `map<ChunkPos, Chunk>`. Its abstract view `Contents()` maps each position to its chunk's buffer. The pure function `BlockAt` states what a world query returns.
- `RayTraversal` (`ray.dfy`) holds `At`, `FindNextAxis`, `StepVoxel` and the `t_max` update as functions. One loop step is `Advance`. `Trace` is the recursive specification of the march, and `March` is the loop, proved equal to `Trace`.

Three compile defects and one tie-break are resolved as follows:

- **Tie-break.** The strict comparisons in `src/utils/ray.rs:88-94` give a tie between `t_max` components to the higher axis, not to the lower axis of the usual Amanatides–Woo statement. `FindNextAxis` selects the last axis that attains the minimum, and `NextAxisTieBreaks` spells the cases out.
- **Coordinate checks.** The code checks only the flat index against the buffer length (`src/world/chunk.rs:19,25`), not each local coordinate against `[0,32)`. So `Chunk.GetBlock` and `Chunk.SetBlock` require only `BlockIndex(x, y, z) < VOLUME`, and `OverflowingAxisAliases` shows that `(32,0,0)` lands on the cell of `(0,1,0)`.
- **Generator field name.** `World::generate_chunk` calls `self.generator`, but the field is named `generate` (`src/world/mod.rs:12` vs `:58`). The model uses the generator built in the constructor.
- **March's block lookup.** `march` matches `Some(block)` on the `u8` that `Chunk::get_block` returns, and passes `i32` coordinates to a `usize` API (`src/utils/ray.rs:48-52`). The model reads this as the evidently intended bounds-checked lookup `VoxelAt`: `Some(id)` for a voxel inside `[0,32)³` and nothing outside it, in which case the march moves on. The `t_max[axis]` index on a type with no indexing (`src/utils/ray.rs:95`) is read as the component of the selected axis.

## Model

| member | source | states |
|---|---|---|
| ChunkStorage.BlockIndex | src/world/chunk.rs:28-31 | for local coordinates each below 32 the flat index lies in [0, 32768) |
| ChunkStorage.DecodeIndex | src/world/chunk.rs:28-31 | every cell index below 32768 is the flat index of exactly the in-range triple it decodes to (i mod 32, i/32 mod 32, i/1024) |
| ChunkStorage.EncodeIndex | src/world/chunk.rs:28-31 | decoding the flat index of an in-range triple gives the triple back |
| ChunkStorage.BlockIndexInjective | src/world/chunk.rs:28-31 | two in-range triples share a flat index if and only if they are equal |
| ChunkStorage.OverflowingAxisAliases | src/world/chunk.rs:18-31 | the only guard is the buffer bound on the flat index: (32,0,0) passes it and aliases (0,1,0) |
| ChunkStorage.CellAfterWrite | src/world/chunk.rs:23-26 | after writing v at (x,y,z), reading (x,y,z) gives v and every other in-range cell reads as before |
| ChunkStorage.Chunk.constructor | src/world/chunk.rs:10-15 | a new chunk has exactly 32768 cells, all air |
| ChunkStorage.Chunk.GetBlock | src/world/chunk.rs:17-20 | returns the cell at the flat index; as a function it changes nothing |
| ChunkStorage.Chunk.SetBlock | src/world/chunk.rs:22-26 | the buffer afterwards is the old one with only the flat index overwritten; the set value reads back; every other index and the length are unchanged |
| ChunkCoords.ChunkCoord | src/world/mod.rs:25-31 | the chunk coordinate c of v satisfies 32c <= v < 32c + 32 (floor, not truncation), and fits the range whose chunks generation can fill |
| ChunkCoords.LocalCoord | src/world/mod.rs:48-50 | the local coordinate r satisfies 0 <= r < 32 and v == 32 * ChunkCoord(v) + r |
| ChunkCoords.FromWorld | src/world/mod.rs:25-31 | each component c of the position satisfies 32c <= coordinate < 32c + 32 |
| ChunkCoords.ChunkCoordUnique | src/world/mod.rs:25-31 | the floor quotient is the only c whose span [32c, 32c + 32) holds v |
| ChunkCoords.FromWorldExamples | src/world/mod.rs:25-31 | -1 maps to -1, -33 to -2, 0 and 31 to 0, 32 to 1 |
| ChunkCoords.FromWorldInGeneratorRange | src/world/mod.rs:25-31 | the chunk of any 32-bit world block lies where pos * 32 + l cannot overflow 32 bits |
| ChunkCoords.SplitCompose | src/world/generate.rs:25-34 | composing chunk coordinate c and local l < 32 into c * 32 + l and splitting again gives c and l back, without 32-bit overflow |
| TerrainGen.WorldCoord | src/world/generate.rs:25-34 | for a local coordinate below 32, the world coordinate splits back into the chunk coordinate (quotient) and the local coordinate (remainder) |
| TerrainGen.Solid | src/world/generate.rs:34-37 | a cell's id is 0 or 1, and 1 exactly when its world height is at or below the height of its world column |
| TerrainGen.Terrain | src/world/generate.rs:18-42 | the generated buffer has exactly 32768 cells |
| TerrainGen.TerrainCell | src/world/generate.rs:25-38 | cell (x,y,z) is 1 iff pos.y*32 + y <= height(pos.x*32 + x, pos.z*32 + z), and 0 iff it is above |
| TerrainGen.TerrainIsBinary | src/world/generate.rs:35-38 | every generated cell holds 0 or 1 |
| TerrainGen.ColumnDownwardClosed | src/world/generate.rs:28-38 | if (x,y,z) is solid then (x,y',z) is solid for every y' < y |
| TerrainGen.TerrainDeterministic | src/world/generate.rs:18-42 | the generated buffer depends only on the heightfield's values and the position |
| TerrainGen.WorldGenerator.constructor | src/world/generate.rs:11-16 | stores the seed unchanged, with the heightfield of the noise field that seed selects |
| TerrainGen.WorldGenerator.GenerateChunk | src/world/generate.rs:18-42 | the chunk afterwards equals Terrain(height, pos) whatever it held before, so all 32768 cells are overwritten and two runs agree |
| WorldRegistry.BlockAt | src/world/mod.rs:44-52 | a block is air when its chunk is absent, else the chunk's cell at the block's offset from the chunk's corner (world coordinate minus 32 times the chunk coordinate) |
| WorldRegistry.UnloadedIsAir | src/world/mod.rs:44-46 | a block whose chunk position is not in the registry reads as 0 |
| WorldRegistry.BlockAfterGenerate | src/world/mod.rs:55-60 | after inserting the generated chunk at pos, a world block (x,y,z) in pos reads 1 iff y <= height(x, z) and 0 otherwise; blocks of all other chunks read as before |
| WorldRegistry.World.constructor | src/world/mod.rs:35-41 | the registry starts empty; the world and its generator keep the given seed |
| WorldRegistry.World.GetBlock | src/world/mod.rs:43-53 | returns BlockAt of the registry: 0 when the chunk is absent, else the chunk's cell at the three Euclidean remainders |
| WorldRegistry.World.GenerateChunk | src/world/mod.rs:55-60 | the registry afterwards is the old one with pos mapped to the generated chunk, replacing any earlier entry; no other entry changes |
| WorldRegistry.World.Update | src/world/mod.rs:62-65 | the registry is unchanged |
| WorldRegistry.World.Seed | src/world/mod.rs:67-70 | returns the seed the generator was built from, which the constructor fixed |
| RayTraversal.At | src/utils/ray.rs:25-31 | each component of at(t) is origin + direction * t |
| RayTraversal.AtMovesAlongDirection | src/utils/ray.rs:25-31 | at(0) is the origin, and at(t + s) is at(t) moved by direction * s |
| RayTraversal.FindNextAxis | src/utils/ray.rs:87-96 | returns an axis in {0,1,2} with exactly t_max[axis]; that value is <= every component and strictly below every later component |
| RayTraversal.NextAxisIsLastMinimum | src/utils/ray.rs:87-96 | an axis is selected if and only if it is the last axis attaining the minimum |
| RayTraversal.NextAxisTieBreaks | src/utils/ray.rs:88-94 | axis 0 iff x < y and x < z; y == z <= x gives 2; x == y < z gives 1; all equal gives 2 |
| RayTraversal.StepVoxel | src/utils/ray.rs:98-106 | only the selected coordinate changes, by step[axis]; the other two are unchanged |
| RayTraversal.Signum | src/utils/ray.rs:37-41 | the step sign is 1 or -1, and negative exactly for a negative direction component |
| RayTraversal.StepOf | src/utils/ray.rs:37-41 | each step component is 1 or -1, negative exactly where the direction component is negative |
| RayTraversal.Start | src/utils/ray.rs:36-44 | the march starts at t = 0 with the given first crossings, in the voxel whose unit cell holds the origin on every axis |
| RayTraversal.Advance | src/utils/ray.rs:63-68 | one iteration crosses along the last axis whose crossing is nearest: t becomes that crossing, the voxel steps along that axis, and only that axis's crossing moves on |
| RayTraversal.Trace | src/utils/ray.rs:47-71 | the march as recursion; any hit it reports has a nonzero voxel, a distance below the ray's range and the position at(distance) |
| RayTraversal.AdvanceTMax | src/utils/ray.rs:66-68 | only t_max[axis] changes, increased by t_delta[axis]; the other two components are unchanged |
| RayTraversal.AdvanceKeepsOrder | src/utils/ray.rs:63-68 | with t_delta >= 0 and t <= every t_max component, a step never decreases t and keeps t <= every component |
| RayTraversal.VoxelAt | src/utils/ray.rs:48-52 | the lookup yields a block exactly for voxels inside [0,32)³, and that block is the chunk's cell at the voxel's flat index |
| RayTraversal.MeasureDrops | src/utils/ray.rs:47-69 | with positive increments, every iteration taken below the range lowers a natural-number bound, so the loop ends |
| RayTraversal.TraceSkipsOpen | src/utils/ray.rs:47-69 | iterations at in-range, non-solid voxels do not change the march's outcome |
| RayTraversal.TraceMissIff | src/utils/ray.rs:47-71 | no hit if and only if, after passing only in-range non-solid voxels, t reaches the range (the loop guard fails) |
| RayTraversal.TraceMissWitness | src/utils/ray.rs:47-71 | a miss names the iteration count at which the loop guard failed, every earlier state being in range and non-solid |
| RayTraversal.TraceHitIff | src/utils/ray.rs:47-61 | a hit if and only if the march reaches, through non-solid voxels, an in-range state at a solid voxel; the hit carries at(t), t and that voxel's id |
| RayTraversal.TraceHitSound | src/utils/ray.rs:47-61 | a hit has a nonzero voxel, distance == its t < the ray's range, position at(distance), and from an ordered state is not behind the start |
| RayTraversal.March | src/utils/ray.rs:35-72 | the loop returns exactly Trace of its start state; any hit has a nonzero voxel, distance < range and position at(distance), and is at t >= 0 when the first crossings are non-negative |

## Left out

- Concurrency: the `RwLock` around the registry is left out (`src/world/mod.rs:7,11,46,59`). The registry is a plain map in a class, used sequentially. The duplicate-generation race, where the last insert wins, is a concurrency matter and is not modelled.
- Perlin noise and its scaling (`src/world/generate.rs:2,13,28-31`): the noise comes from a foreign library and uses floating point. It becomes a parameter `perlin: u32 -> HeightField` that maps a seed to a deterministic height function on world columns. The division by 64, the factor 16 and the offset 64 are inside that function and are not modelled numerically.
- TerrainGen.WorldGenerator.GenerateChunk: the chunk position is bounded by a precondition (`InGeneratorRange`) instead of modelling 32-bit overflow of `pos * 32 + l`. `FromWorldInGeneratorRange` shows that every chunk holding a 32-bit world block meets the bound.
- ChunkStorage.Chunk.GetBlock: an out-of-range flat index makes the source panic. That panic is a precondition (`BlockIndex(x, y, z) < VOLUME`), the exact bound the buffer checks, not a modelled error result. The same holds for `SetBlock`. Overflow of the `usize` index arithmetic itself is not modelled.
- Floating-point ray helpers: `calc_t_max`, `calc_t_delta`, `Vec3f::normalize`, `calculate_normal` (`src/utils/ray.rs:75-85,108-115`). Their results involve IEEE division by zero, float `%`, NaN and infinities. The first crossings `tMax0` and the increments `tDelta` are parameters of `March`, and every increment must be positive and finite.
- Zero direction components: an axis the ray does not move along has an infinite increment. Neither infinities nor NaN can be written over the reals, so that case is not modelled. In the source, the first update of that axis's crossing computes `inf + inf * 0`, which is NaN (`src/utils/ray.rs:66-68`). Every comparison with NaN is false (`src/utils/ray.rs:88-94`). A NaN x or y crossing is never selected again, and a NaN y crossing makes z win every step. A NaN z crossing is selected every time, which makes t NaN and ends the loop with no hit. For a direction like (1, 0, 1) the march steps only along z after its first step.
- RayTraversal.March: the hit's surface normal is not modelled, so `RaycastHit` has no normal field. Arithmetic is exact over the reals, so `f32` rounding is not modelled.
- RayTraversal.March: floor and signum are exact over the reals. Signum treats 0 as positive, like `f32::signum(+0.0)`. Negative zero and NaN are not modelled.
- `Ray::new` (`src/utils/ray.rs:16-22`): it normalizes the direction in floating point and sets the range to 1000. A ray here is any origin, direction and range.
- WorldRegistry.World.Update: the frame time is ignored, as in the source.
- Rendering, the window and event loop, camera input, and the float matrix helpers are left out. These are `src/renderer/`, `src/main.rs`, `src/window.rs` and `src/utils/math.rs`. They are GPU plumbing, I/O and floating point. Re-export modules and `examples/basic.rs` hold no logic.
