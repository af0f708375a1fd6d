/** The procedural world generator: a seed, and chunks produced column by
    column from a height field and a position-seeded plant generator. */
module Generator {
  import opened World

  /** Distance between two test plants along each axis. */
  const TREE_SPACING: int := 8

  /** The terrain height of global column (i, j) after the cast to u16. The
      float sine formula behind it is not part of this model. */
  type HeightField = (int, int) -> HeightType

  /** The plant grown from seed, category tag and global column: the
      position-seeded random generator followed by the plant generator,
      neither of which is part of this model. */
  type PlantSource = (u64, string, int, int) -> Plant

  /** The generator's only state: the seed fixed at construction. */
  datatype WorldGenerator = WorldGenerator(seed: u64)
  {
    function Seed(): u64
    {
      seed
    }
  }

  /** Creates the generator with the given seed. */
  function WithSeed(seed: u64): (g: WorldGenerator)
    ensures g.Seed() == seed
  {
    WorldGenerator(seed)
  }

  /** The generator can produce every chunk. */
  function IsChunkLoadable(gen: WorldGenerator, index: ChunkIndex): (loadable: bool)
    ensures loadable
  {
    true
  }

  /** The i32 arithmetic of load_chunk (the chunk's first coordinate and the
      end of its coordinate range) does not overflow. */
  predicate ChunkInRange(index: ChunkIndex)
  {
    I32_MIN <= index.q * CHUNK_SIZE && index.q * CHUNK_SIZE + CHUNK_SIZE <= I32_MAX &&
    I32_MIN <= index.r * CHUNK_SIZE && index.r * CHUNK_SIZE + CHUNK_SIZE <= I32_MAX
  }

  /** Column (i, j) carries a test plant. Rust's `%` truncates where Dafny's
      is Euclidean, but the two agree on whether the remainder is zero. */
  predicate HasTree(i: int, j: int)
  {
    i % TREE_SPACING == 0 && j % TREE_SPACING == 0
  }

  /** The pillar generated for global column (i, j). */
  function Column(seed: u64, height: HeightField, plant: PlantSource, i: int, j: int): HexPillar
  {
    var h := height(i, j);
    HexPillar([PillarSection(Dirt, 0, h)],
              if HasTree(i, j) then [Prop(h, PlantProp(plant(seed, "TREE", i, j)))] else [])
  }

  /** Global coordinates of the pillar at flat position k of a chunk, decoded
      as (k / CHUNK_SIZE, k % CHUNK_SIZE) the way the chunk's consumers do. */
  function GlobalQ(index: ChunkIndex, k: int): int
  {
    index.q * CHUNK_SIZE + k / CHUNK_SIZE
  }

  function GlobalR(index: ChunkIndex, k: int): int
  {
    index.r * CHUNK_SIZE + k % CHUNK_SIZE
  }

  /** The chunk that holds global column (i, j), and the column's flat position in it. */
  function OwnerChunk(i: int, j: int): ChunkIndex
  {
    ChunkIndex(i / CHUNK_SIZE, j / CHUNK_SIZE)
  }

  function OwnerOffset(i: int, j: int): int
  {
    (i % CHUNK_SIZE) * CHUNK_SIZE + j % CHUNK_SIZE
  }

  /** Flat position a * CHUNK_SIZE + b decodes back to (a, b). */
  lemma OffsetDecodes(a: int, b: int)
    requires 0 <= a < CHUNK_SIZE && 0 <= b < CHUNK_SIZE
    ensures (a * CHUNK_SIZE + b) / CHUNK_SIZE == a && (a * CHUNK_SIZE + b) % CHUNK_SIZE == b
  {
  }

  /** Produces the chunk at `index`: for i over the chunk's q range (outer)
      and j over its r range (inner), one pillar per column. */
  method LoadChunk(gen: WorldGenerator, index: ChunkIndex, height: HeightField, plant: PlantSource)
    returns (chunk: Option<Chunk>)
    requires ChunkInRange(index)
    ensures chunk.Some?
    ensures |chunk.value.pillars| == CHUNK_SIZE * CHUNK_SIZE
    ensures forall k :: 0 <= k < |chunk.value.pillars| ==>
      chunk.value.pillars[k] == Column(gen.seed, height, plant, GlobalQ(index, k), GlobalR(index, k))
  {
    var pillars: seq<HexPillar> := [];
    var q := index.q * CHUNK_SIZE;
    var r := index.r * CHUNK_SIZE;
    for i := q to q + CHUNK_SIZE
      invariant |pillars| == (i - q) * CHUNK_SIZE
      invariant forall k :: 0 <= k < |pillars| ==>
        pillars[k] == Column(gen.seed, height, plant, GlobalQ(index, k), GlobalR(index, k))
    {
      for j := r to r + CHUNK_SIZE
        invariant |pillars| == (i - q) * CHUNK_SIZE + (j - r)
        invariant forall k :: 0 <= k < |pillars| ==>
          pillars[k] == Column(gen.seed, height, plant, GlobalQ(index, k), GlobalR(index, k))
      {
        var h := height(i, j);
        var groundSection := PillarSection(Dirt, 0, h);
        var props: seq<Prop> := [];
        if i % TREE_SPACING == 0 && j % TREE_SPACING == 0 {
          props := props + [Prop(h, PlantProp(plant(gen.seed, "TREE", i, j)))];
        }
        OffsetDecodes(i - q, j - r);
        pillars := pillars + [HexPillar([groundSection], props)];
      }
    }
    chunk := Some(Chunk(pillars));
  }

  /** Every generated pillar is one Dirt section from 0 up to the column's
      height, with exactly one plant, sitting on that section's top, when
      both coordinates are multiples of TREE_SPACING, and no props otherwise. */
  lemma ColumnShape(seed: u64, height: HeightField, plant: PlantSource, i: int, j: int)
    ensures var p := Column(seed, height, plant, i, j);
      |p.sections| == 1 && p.sections[0] == PillarSection(Dirt, 0, height(i, j)) &&
      WellFormed(p.sections) == (height(i, j) > 0) &&
      (|p.props| == 1 <==> HasTree(i, j)) &&
      (|p.props| != 1 ==> p.props == []) &&
      (|p.props| == 1 ==> p.props[0].baseline == p.sections[0].top &&
                          p.props[0].prop == PlantProp(plant(seed, "TREE", i, j)))
  {
  }

  /** Chunks tile the plane: flat position k of chunk `index` shows global
      column (i, j) exactly when `index` is the column's owner chunk and k
      its owner offset, so no two chunk positions share a column and every
      column has one. */
  lemma ColumnHasOneOwner(i: int, j: int, index: ChunkIndex, k: int)
    requires 0 <= k < CHUNK_SIZE * CHUNK_SIZE
    ensures 0 <= OwnerOffset(i, j) < CHUNK_SIZE * CHUNK_SIZE
    ensures (GlobalQ(index, k) == i && GlobalR(index, k) == j) <==>
            (index == OwnerChunk(i, j) && k == OwnerOffset(i, j))
  {
    var a, b := i % CHUNK_SIZE, j % CHUNK_SIZE;
    OffsetDecodes(a, b);
    if GlobalQ(index, k) == i && GlobalR(index, k) == j {
      var x, y := k / CHUNK_SIZE, k % CHUNK_SIZE;
      assert i == index.q * CHUNK_SIZE + x && 0 <= x < CHUNK_SIZE;
      assert j == index.r * CHUNK_SIZE + y && 0 <= y < CHUNK_SIZE;
      assert i / CHUNK_SIZE == index.q && i % CHUNK_SIZE == x;
      assert j / CHUNK_SIZE == index.r && j % CHUNK_SIZE == y;
      assert k == x * CHUNK_SIZE + y;
    }
  }
}
