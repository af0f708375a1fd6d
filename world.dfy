/** The pillar world's shared vocabulary: hex coordinates, discrete heights,
    pillar sections, pillars, chunks and the world's pillar lookup. */
module World {

  datatype Option<T> = None | Some(value: T)

  /** Rust's unsigned 64-bit integer, the type of the world seed. */
  type u64 = x: int | 0 <= x < 0x1_0000_0000_0000_0000

  /** The smallest and largest value of Rust's i32, the hex coordinate type. */
  const I32_MIN: int := -0x8000_0000
  const I32_MAX: int := 0x7FFF_FFFF

  /** HeightType: a vertical position counted in whole steps of
      PILLAR_STEP_HEIGHT, stored as a u16. */
  type HeightType = h: int | 0 <= h < 0x1_0000

  /** Number of pillars along each side of a chunk. */
  const CHUNK_SIZE: int := 16

  /** An axial hex coordinate (q, r); a PillarIndex wraps one. */
  datatype AxialPoint = AxialPoint(q: int, r: int)

  /** The axial coordinate of a chunk, in chunk-grid units. */
  datatype ChunkIndex = ChunkIndex(q: int, r: int)

  /** Terrain material of a section. Dirt is the only one the generator uses;
      the others of the world module are represented by a number. */
  datatype GroundMaterial = Dirt | Material(code: nat)

  /** One run of material occupying the steps [bottom, top) of a pillar. */
  datatype PillarSection = PillarSection(ground: GroundMaterial, bottom: HeightType, top: HeightType)

  /** The descriptor a plant generator produces (species and shape parameters). */
  datatype Plant = Plant(parameters: seq<int>)

  datatype PropType = PlantProp(plant: Plant)

  /** A surface feature attached at height `baseline`. */
  datatype Prop = Prop(baseline: HeightType, prop: PropType)

  /** One hex column: its sections in list order and its props. */
  datatype HexPillar = HexPillar(sections: seq<PillarSection>, props: seq<Prop>)

  /** A chunk's pillars, in the order the generator pushes them. */
  datatype Chunk = Chunk(pillars: seq<HexPillar>)

  /** The section-list invariant of the world's design: every section is
      non-empty and the sections are in ascending order without overlap
      (gaps of air are allowed). */
  predicate WellFormed(s: seq<PillarSection>)
  {
    (forall k :: 0 <= k < |s| ==> s[k].bottom < s[k].top) &&
    (forall a, b :: 0 <= a < b < |s| ==> s[a].top <= s[b].bottom)
  }

  /** The step [h, h + 1) is solid: some section of `s` occupies it. */
  predicate Covers(s: seq<PillarSection>, h: int)
  {
    exists k :: 0 <= k < |s| && s[k].bottom <= h < s[k].top
  }

  /** The loaded part of the world, addressed by the hex coordinate of a pillar. */
  class World {
    var pillars: map<AxialPoint, HexPillar>

    constructor (pillars: map<AxialPoint, HexPillar>)
      ensures this.pillars == pillars
    {
      this.pillars := pillars;
    }

    /** The pillar at `index`, or None when its chunk is not loaded. */
    function PillarAt(index: AxialPoint): Option<HexPillar>
      reads this
    {
      if index in pillars then Some(pillars[index]) else None
    }
  }
}
