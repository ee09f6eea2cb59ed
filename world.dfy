/**
  The world: a registry from chunk positions to chunks, filled only by
  generation, together with the generator and the seed it was built from.
  Unloaded space reads as air.
 */
module WorldRegistry {
  import opened Primitives
  import opened ChunkStorage
  import opened ChunkCoords
  import opened TerrainGen

  /** Every entry of the registry is a full chunk buffer. */
  predicate WellFormed(registry: map<ChunkPos, seq<u8>>) {
    forall p | p in registry :: |registry[p]| == VOLUME
  }

  /**
    The block at world coordinates (x, y, z) in a registry of chunk buffers:
    air when the chunk holding it is absent, otherwise the chunk's cell at the
    Euclidean remainders of the three coordinates.
   */
  function BlockAt(registry: map<ChunkPos, seq<u8>>, x: i32, y: i32, z: i32): (b: u8)
    requires WellFormed(registry)
    ensures FromWorld(x, y, z) !in registry ==> b == 0
    ensures var p := FromWorld(x, y, z);
            p in registry ==> b == registry[p][BlockIndex(x - SIZE * p.x, y - SIZE * p.y, z - SIZE * p.z)]
  {
    var pos := FromWorld(x, y, z);
    if pos in registry then Cell(registry[pos], LocalCoord(x), LocalCoord(y), LocalCoord(z)) else 0
  }

  /** Querying a world block whose chunk was never generated gives air. */
  lemma UnloadedIsAir(registry: map<ChunkPos, seq<u8>>, x: i32, y: i32, z: i32)
    requires WellFormed(registry)
    requires FromWorld(x, y, z) !in registry
    ensures BlockAt(registry, x, y, z) == 0
  {
  }

  /**
    Once the chunk at pos holds its terrain, every world block inside that chunk
    is solid exactly when its height is at or below the heightfield at its own
    world column; blocks of every other chunk read as before.
   */
  lemma BlockAfterGenerate(registry: map<ChunkPos, seq<u8>>, height: HeightField,
                            pos: ChunkPos, x: i32, y: i32, z: i32)
    requires WellFormed(registry)
    ensures WellFormed(registry[pos := Terrain(height, pos)])
    ensures FromWorld(x, y, z) == pos ==>
              (BlockAt(registry[pos := Terrain(height, pos)], x, y, z) == 1 <==> y as real <= height(x, z))
    ensures FromWorld(x, y, z) == pos ==>
              (BlockAt(registry[pos := Terrain(height, pos)], x, y, z) == 0 <==> y as real > height(x, z))
    ensures FromWorld(x, y, z) != pos ==>
              BlockAt(registry[pos := Terrain(height, pos)], x, y, z) == BlockAt(registry, x, y, z)
  {
    if FromWorld(x, y, z) == pos {
      TerrainCell(height, pos, LocalCoord(x), LocalCoord(y), LocalCoord(z));
    }
  }

  class World {
    var chunks: map<ChunkPos, Chunk>
    const generator: WorldGenerator
    const seed: u32
    /** The objects the registry's chunks are stored in. */
    ghost var Repr: set<object>

    ghost predicate Valid()
      reads this, Repr
    {
      && generator.seed == seed
      && forall p | p in chunks :: chunks[p].blocks in Repr && chunks[p].Valid()
    }

    /** The registry as a map from positions to chunk buffers. */
    ghost function Contents(): (m: map<ChunkPos, seq<u8>>)
      requires Valid()
      reads this, Repr
      ensures m.Keys == chunks.Keys
      ensures WellFormed(m)
    {
      map p | p in chunks :: chunks[p].blocks[..]
    }

    /** An empty world whose generator is seeded with `seed`. */
    constructor (seed: u32, perlin: u32 -> HeightField)
      ensures Valid() && fresh(Repr)
      ensures this.seed == seed && generator.seed == seed && generator.height == perlin(seed)
      ensures Contents() == map[]
    {
      chunks := map[];
      generator := new WorldGenerator(seed, perlin);
      this.seed := seed;
      Repr := {};
    }

    /** The block at world coordinates: air if its chunk is absent. */
    function GetBlock(x: i32, y: i32, z: i32): (b: u8)
      requires Valid()
      reads this, Repr
      ensures b == BlockAt(Contents(), x, y, z)
    {
      var pos := FromWorld(x, y, z);
      if pos in chunks then chunks[pos].GetBlock(LocalCoord(x), LocalCoord(y), LocalCoord(z)) else 0
    }

    /**
      Generates the chunk at pos from a fresh all-air chunk and inserts it,
      replacing any chunk already there; no other entry changes.
     */
    method GenerateChunk(pos: ChunkPos)
      requires Valid() && InGeneratorRange(pos)
      modifies this
      ensures Valid() && fresh(Repr - old(Repr))
      ensures Contents() == old(Contents())[pos := Terrain(generator.height, pos)]
    {
      var chunk := new Chunk();
      generator.GenerateChunk(chunk, pos);
      chunks := chunks[pos := chunk];
      Repr := Repr + {chunk.blocks};
    }

    /** The per-frame hook: it changes nothing. */
    method Update(deltaTime: real)
      requires Valid()
      ensures Valid() && Contents() == old(Contents())
    {
    }

    /** The seed the world and its generator were built from. */
    function Seed(): (s: u32)
      requires Valid()
      reads this, Repr
      ensures s == generator.seed
    {
      seed
    }
  }
}
