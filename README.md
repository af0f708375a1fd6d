# Pillar world: chunk generation, digging and picking

A model of two pieces of the plantex hex-pillar world.

The world is a grid of hexagonal columns, called pillars. Each pillar is an ordered list of material sections `[bottom, top)` plus a list of surface props. Heights are counted in steps of `PILLAR_STEP_HEIGHT`, stored as a `u16` (`HeightType`).

- **Generator** (`generator.dfy`, module `Generator`). `WorldGenerator` holds a seed. `LoadChunk` assembles a chunk of `CHUNK_SIZE × CHUNK_SIZE` pillars with nested loops, `i` outer and `j` inner. Each pillar gets one Dirt section from 0 up to the column's height. A column whose coordinates are both multiples of 8 also gets one plant, rooted at that height. The height field and the plant generator are parameters: `HeightField` and `PlantSource`.
- **Digging as written** (`game.dfy`, module `Game`). `DigSections` is the body of `remove_hexagon_at`: the scan loop, then the in-place insert, top assignment and remove. It is proved equal to the case table `Dug`. `RemoveHexagonAt` looks up the pillar in the `World` object's pillar map and writes the edited list back. It returns whether a chunk recalculation is requested.
- **Lookup and pick** (`game.dfy`). `SectionAt` returns the first section that strictly contains a height. `PillarSectionLookingAt` is the ray pick's search. It walks a finite sequence of ray samples and returns the first sample whose pillar is loaded and contains the sample's snapped height.
- **Intended digging** (`excavation.dfy`, module `Excavation`). `Excavate` is the corrected dig: it removes exactly the step `[u, u + 1)`. Lemmas compare it with the code as written (see Findings).
- **Shared types** (`world.dfy`, module `World`): sections, pillars, chunks, the pillar-map `World` class, the section-list invariant `WellFormed` and the solid-step predicate `Covers`.

Where the design description and the code disagree, the model follows the code:

- The height is the `as u16` cast of the sine formula, not a rounded value.
- Digging returns nothing; a miss is a silent `return`, not a `NotFound` error.
- The dig scan stops at the first section whose top is at or above the dig height.
- The split branch behaves as described under Findings.

## Model

| member | source | states |
|---|---|---|
| `Generator.WithSeed` | base/src/gen/world/mod.rs:17-24 | `Seed()` of the created generator is the seed passed in |
| `Generator.IsChunkLoadable` | base/src/gen/world/mod.rs:61-64 | every chunk index is loadable |
| `Generator.LoadChunk` | base/src/gen/world/mod.rs:28-59 | always returns `Some`; the chunk has exactly `CHUNK_SIZE²` pillars; pillar `k` is the column at global `(q·CS + k / CS, r·CS + k % CS)`, generated from the seed and those coordinates only |
| `Generator.Column` | base/src/gen/world/mod.rs:35-54 | the pillar generated for global column `(i, j)`; it only computes, and its contents are stated by `Generator.ColumnShape` |
| `Generator.ColumnShape` | base/src/gen/world/mod.rs:35-54 | a generated pillar has exactly one section, Dirt `[0, height(i, j))`; it has one prop iff `i % 8 == 0 && j % 8 == 0`, otherwise none; that prop is the plant for `(seed, "TREE", i, j)` and its baseline equals the section's top |
| `Generator.OffsetDecodes` | client/src/world/chunk_view.rs:62-67 | flat position `a·CS + b` decodes back to `(a, b)` using the consumer's `(k / CS, k % CS)` split |
| `Generator.ColumnHasOneOwner` | base/src/gen/world/mod.rs:30-34 | chunks tile the plane: chunk position `(index, k)` shows column `(i, j)` iff `index` is the column's owner chunk and `k` its owner offset, in both directions |
| `Game.ScanIndex` | client/src/game.rs:143-150 | the scan index is at most `len`; every earlier section's top is below the dig height; the section at the index, if any, reaches at least the dig height |
| `Game.Dug` | client/src/game.rs:152-169 | the section count changes by at most one, since there is at most one insert and at most one remove |
| `Game.DigSections` | client/src/game.rs:143-172 | the section is found iff the scan index is below `len`; the edited list is `Dug` of the input; the list is unchanged when nothing is found |
| `Game.RemoveHexagonAt` | client/src/game.rs:137-177 | with no pillar at the index, the world is untouched and no recalculation happens; otherwise only that pillar's section list changes, to `Dug`, and a recalculation happens iff the scan found a section |
| `Game.DugNotFound` | client/src/game.rs:170-171 | when every top is below the dig height, the scan index is `len` and the list is unchanged |
| `Game.DugAtSectionTop` | client/src/game.rs:165-169 | no-split branch: only section `i` changes; its top becomes the dig unit, or it is removed when its bottom is the dig unit; every other section is unchanged and keeps its position |
| `Game.DugSplitLowestIsNoop` | client/src/game.rs:154-169 | split branch with `i == 0`: the net list is unchanged |
| `Game.DugSplitHigher` | client/src/game.rs:154-169 | split branch with `i > 0`: sections before `i - 1` are unchanged; section `i - 1`'s top, which the scan guarantees lies below the dig unit, is raised to the dig unit, or the section is removed if that empties it; the next entry is a copy of section `i`'s material and top with bottom = dig unit; sections `i..` follow unchanged |
| `Game.DugSplitFillsAir` | client/src/game.rs:154-166 | a split with `i > 0` raises section `i - 1`'s top from below the dig unit to it, so every step from that section's bottom up to the dig unit is solid afterwards, including the air that lay above it |
| `Game.DugSplitBreaksOrder` | client/src/game.rs:154-163 | on a well-formed list, every split with `i > 0` gives a list that is not well formed |
| `Game.DugSplitExample` | client/src/game.rs:154-168 | `[(0,10),(20,50)]` dug at 30 gives `[(0,30),(30,50),(20,50)]`, which overlaps; step 15, air before, is solid after |
| `Game.SectionAt` | client/src/game.rs:216-223 | returns `None` iff no section satisfies `bottom < z < top`; otherwise returns the first section in list order that does; a height equal to a section's bottom or top is never a hit there |
| `Game.SnapToStep` | client/src/game.rs:195-196 | the snapped height is the sampled height truncated toward zero onto the step grid, as f32 `%` does (never more than one step away, and never farther from zero) |
| `Game.PillarSectionLookingAt` | client/src/game.rs:180-214 | returns `None` iff no sample hits; otherwise returns the column and snapped height of the first sample, in march order, whose pillar is loaded and strictly contains its snapped height; samples with no pillar are skipped |
| `Excavation.Excavate` | client/src/game.rs:141-172 | the intended dig, not the code as written: it succeeds only where the dug step is solid, and changes the section count by at most one |
| `Excavation.ExcavateFindsSolidStep` | client/src/game.rs:143-152 | on a well-formed list the intended dig succeeds iff the step at the dig height is solid |
| `Excavation.ExcavateRemovesOneStep` | client/src/game.rs:153-169 | the intended dig keeps the list well formed (sections non-empty, ascending, non-overlapping) and makes exactly the dug step empty; every other step stays as it was |
| `Excavation.ExcavateTwiceNotFound` | client/src/game.rs:141-171 | digging the same step a second time finds nothing |
| `Excavation.DugAgreesAtSectionTop` | client/src/game.rs:153-169 | on a well-formed list, where the code takes the no-split branch, it gives exactly the intended result |
| `Excavation.DugLeavesLowestStep` | client/src/game.rs:153-169 | as written, a split with `i == 0` leaves the dug step solid, while the intended dig empties it |
| `Excavation.DugLowestExample` | client/src/game.rs:153-169 | `[(0,100)]` dug at 55: unchanged as written; `[(0,55),(56,100)]` as intended |
| `Excavation.ExcavateSplitExample` | client/src/game.rs:153-169 | the intended dig turns `[(0,10),(20,50)]` dug at 30 into `[(0,10),(20,30),(31,50)]` |
| `Excavation.PickHeightScansToHolder` | client/src/game.rs:145-148 | for a height strictly inside section `k` of a well-formed list, as the pick yields, the as-written scan and the intended scan both stop at section `k` |
| `Excavation.DugTwiceExample` | client/src/game.rs:145-169 | `[(0,10),(20,30)]` dug at 29 gives `[(0,10),(20,29)]`, as intended; digging 29 again, as written, finds section 1 (top equal to 29) and gives `[(0,29),(29,29),(20,29)]`, making air step 15 solid, while the intended second dig is `NotFound` |
| `Game.DugAirAboveTopExample` | client/src/game.rs:145-163 | `[(0,10),(20,30)]` dug at the air step 30 gives `[(0,30),(30,30),(20,30)]`: a zero-height section is inserted and the air `[10, 20)` is filled |
| `Excavation.DigLowestStillRecalculates` | client/src/game.rs:153-176 | digging inside the lowest section `[0,100)` at 55 through `RemoveHexagonAt` leaves the world map unchanged and still reports a recalculation |
| `Excavation.DugScanExample` | client/src/game.rs:145-148 | for `[(0,10),(10,20)]` dug at 10, the scan stops at section 0, whose top equals the dig height, so nothing changes although step 10 is solid; the intended dig gives `[(0,10),(11,20)]` |

## Left out

- `Game::new`, `Game::run`, `create_context` and `create_chunk_provider` (client/src/game.rs:42-134, 225-292) are left out. They are the TCP connection, the window and OpenGL setup, the render and event loop, FPS timing, and weather and daytime updates.
- client/src/world/chunk_view.rs is left out: vertex and index buffers, shaders and float hex corners are rendering. Only its index decomposition is used, as the consumer's view of the chunk layout.
- The height formula `sin(i·0.25)·10 + sin(j·0.25)·10 + 100` is float arithmetic. It is abstracted, together with its cast to `u16`, as the `HeightField` parameter. No numeric range is claimed.
- `seeded_rng` and `PlantGenerator` are not part of this model. They are abstracted as the `PlantSource` parameter, keyed by seed, the tag "TREE" and the column. The plant descriptor stands in as an integer sequence.
- Generator.LoadChunk: requires `ChunkInRange`, i.e. that `index.q * CHUNK_SIZE` and `index.q * CHUNK_SIZE + CHUNK_SIZE` fit in `i32` (likewise for `r`). Outside that range the i32 arithmetic overflows, which panics or wraps depending on the build. So "always `Some`" is proved for every index whose arithmetic stays in range.
- The constant `CHUNK_SIZE` is defined in the world module, which is not part of this model. It is taken to be 16.
- `GroundMaterial`: the generator uses only Dirt. The world module's other materials are represented by a numeric code.
- The world's chunk storage and `pillar_at`/`pillar_at_mut` are not part of this model. The `World` class is a map from hex coordinate to pillar; a missing key is a pillar whose chunk is not loaded.
- Ray-march geometry is abstracted to the sample sequence given to `Game.PillarSectionLookingAt`. That covers the look-vector normalisation, `sqrt`, the hex-radius scaling, and the `0.1`/`0.05` step growth up to the 4.5 view distance. Each sample gives the hex column and the sampled height in steps. The result's height is in steps; the conversion of the column to its real-world centre is not modelled.
- `AxialPoint::from_real`/`to_real` and `HeightType::from_real`/`to_real` are float conversions defined elsewhere. All heights are in step units. Float rounding and NaN are not modelled; comparisons are exact.
- Game.RemoveHexagonAt: the dig position is taken as a step-aligned height `u` within `u16`. Non-aligned or negative `pos.z`, and the saturating `as u16` casts of lines 158 and 166, are not modelled. The in-place edit through `sections_mut()` is modelled as edits to the pillar's list followed by one write-back into the world map; there is no aliasing to capture.
- `world_manager.recalulate_chunk` is a call into the world manager. It is modelled as the boolean result `recalculated`.

## Findings

| source | as written | input that shows it | evidently intended | confidence | as-written member | corrected member |
|---|---|---|---|---|---|---|
| client/src/game.rs:154-163 | with `i > 0`, the split inserts a copy of section `i` starting at the dig unit, then moves the index back and sets section `i - 1`'s top to the dig unit. That top lay below the dig unit, so it is raised, and the air between section `i - 1` and the dig unit is filled | `[(0,10),(20,50)]` dug at unit 30 gives `[(0,30),(30,50),(20,50)]`: overlapping sections, the air `[10, 20)` made solid, and step 30 still solid | remove only the step `[30, 31)`, giving `[(0,10),(20,30),(31,50)]` | not executed | `Game.DugSplitBreaksOrder` | `Excavation.ExcavateRemovesOneStep` |
| client/src/game.rs:153-169 | with `i == 0`, the inserted copy has its top set to its own bottom and is removed again, so nothing is dug, yet a chunk recalculation is still requested | `[(0,100)]` dug at unit 55 stays `[(0,100)]`, and `recalculated` is true | `[(0,55),(56,100)]` | not executed | `Excavation.DugLeavesLowestStep` | `Excavation.ExcavateFindsSolidStep` |
| client/src/game.rs:145-148 | the scan accepts a section whose top equals the dig height, although that section does not hold the dug step; when that section is not the lowest, the split then inserts a zero-height section and fills air. A picked height lies strictly inside a section, so on a well-formed list the pick never yields such a height (`Excavation.PickHeightScansToHolder`); a direct caller digging at the step just above a section's top does, and so does digging the same step twice. The first two rows can be reached from the pick | `[(0,10),(10,20)]` dug at unit 10 stays unchanged; `[(0,10),(20,30)]` dug at 29 gives `[(0,10),(20,29)]`, and digging 29 again gives `[(0,29),(29,29),(20,29)]` with a recalculation | `[(0,10),(11,20)]`; the second dig of 29 finds nothing | not executed | `Excavation.DugScanExample` | `Excavation.ExcavateRemovesOneStep` |

The corrected dig is `Excavation.Excavate`. It scans for the first section whose top is above the dig height and splits that section around the step. `Game.RemoveHexagonAt` keeps the behaviour of the code, because the model describes the program as it is. The call to `remove_hexagon_at` is commented out at client/src/game.rs:98, so nothing else in the model depends on either version.
