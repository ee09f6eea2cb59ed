/**
  Terrain generation: every column (x, z) of a chunk is solid (1) up to the
  height of a seeded heightfield at that world column, and air (0) above it.
 */
module TerrainGen {
  import opened Primitives
  import opened ChunkStorage
  import opened ChunkCoords

  /**
    The terrain height at a world column (x, z). In the system this is seeded
    coherent noise, scaled and offset; here it is any deterministic function.
   */
  type HeightField = (int, int) -> real

  /** The world block coordinate of local coordinate l in chunk coordinate c. */
  function WorldCoord(c: int, l: nat): (w: int)
    ensures l < SIZE ==> w / SIZE == c && w % SIZE == l
  {
    c * SIZE + l
  }

  /** The id generation gives local cell (x, y, z) of the chunk at pos. */
  function Solid(height: HeightField, pos: ChunkPos, x: nat, y: nat, z: nat): (b: u8)
    ensures b == 0 || b == 1
    ensures b == 1 <==> (pos.y * SIZE + y) as real <= height(pos.x * SIZE + x, pos.z * SIZE + z)
  {
    if WorldCoord(pos.y, y) as real <= height(WorldCoord(pos.x, x), WorldCoord(pos.z, z)) then 1 else 0
  }

  /** The whole buffer generation produces for the chunk at pos. */
  function Terrain(height: HeightField, pos: ChunkPos): (blocks: seq<u8>)
    ensures |blocks| == VOLUME
  {
    seq(VOLUME, i requires 0 <= i < VOLUME => Solid(height, pos, LocalX(i), LocalY(i), LocalZ(i)))
  }

  /**
    Each cell of a generated chunk is 1 exactly when its world height is at or
    below the heightfield at its world column, and 0 otherwise.
   */
  lemma TerrainCell(height: HeightField, pos: ChunkPos, x: nat, y: nat, z: nat)
    requires InLocalRange(x, y, z)
    ensures Cell(Terrain(height, pos), x, y, z) == 1 <==>
              (pos.y * SIZE + y) as real <= height(pos.x * SIZE + x, pos.z * SIZE + z)
    ensures Cell(Terrain(height, pos), x, y, z) == 0 <==>
              (pos.y * SIZE + y) as real > height(pos.x * SIZE + x, pos.z * SIZE + z)
  {
    EncodeIndex(x, y, z);
  }

  /** A generated chunk holds only air and the one solid id. */
  lemma TerrainIsBinary(height: HeightField, pos: ChunkPos)
    ensures forall i | 0 <= i < VOLUME :: Terrain(height, pos)[i] == 0 || Terrain(height, pos)[i] == 1
  {
  }

  /** Columns are filled from below: a solid cell has only solid cells under it. */
  lemma ColumnDownwardClosed(height: HeightField, pos: ChunkPos, x: nat, y: nat, y': nat, z: nat)
    requires InLocalRange(x, y, z) && y' < y
    ensures Cell(Terrain(height, pos), x, y, z) == 1 ==> Cell(Terrain(height, pos), x, y', z) == 1
  {
    TerrainCell(height, pos, x, y, z);
    TerrainCell(height, pos, x, y', z);
  }

  /** Terrain depends only on the heightfield and the position: equal inputs give equal chunks. */
  lemma TerrainDeterministic(h1: HeightField, h2: HeightField, pos: ChunkPos)
    requires forall x: int, z: int :: h1(x, z) == h2(x, z)
    ensures Terrain(h1, pos) == Terrain(h2, pos)
  {
    assert forall i | 0 <= i < VOLUME :: Terrain(h1, pos)[i] == Terrain(h2, pos)[i];
  }

  class WorldGenerator {
    const seed: u32
    /** The heightfield of the noise field seeded with `seed`. */
    const height: HeightField

    /** `perlin` maps a seed to the heightfield of the noise field it seeds. */
    constructor (seed: u32, perlin: u32 -> HeightField)
      ensures this.seed == seed
      ensures height == perlin(seed)
    {
      this.seed := seed;
      height := perlin(seed);
    }

    /**
      Overwrites every cell of `chunk`, column by column, reading the height of
      each column once; the result does not depend on what the chunk held.
     */
    method GenerateChunk(chunk: Chunk, pos: ChunkPos)
      requires chunk.Valid() && InGeneratorRange(pos)
      modifies chunk.blocks
      ensures chunk.blocks[..] == Terrain(height, pos)
    {
      for x := 0 to SIZE
        invariant forall cx: nat, cy: nat, cz: nat | InLocalRange(cx, cy, cz) && cx < x ::
                    chunk.blocks[BlockIndex(cx, cy, cz)] == Solid(height, pos, cx, cy, cz)
      {
        for z := 0 to SIZE
          invariant forall cx: nat, cy: nat, cz: nat | InLocalRange(cx, cy, cz) && (cx < x || (cx == x && cz < z)) ::
                      chunk.blocks[BlockIndex(cx, cy, cz)] == Solid(height, pos, cx, cy, cz)
        {
          var worldX: i32 := pos.x * SIZE + x;
          var worldZ: i32 := pos.z * SIZE + z;
          var columnHeight := height(worldX, worldZ);
          for y := 0 to SIZE
            invariant forall cx: nat, cy: nat, cz: nat | InLocalRange(cx, cy, cz) &&
                        (cx < x || (cx == x && cz < z) || (cx == x && cz == z && cy < y)) ::
                        chunk.blocks[BlockIndex(cx, cy, cz)] == Solid(height, pos, cx, cy, cz)
          {
            var worldY: i32 := pos.y * SIZE + y;
            chunk.SetBlock(x, y, z, if worldY as real <= columnHeight then 1 else 0);
          }
        }
      }
      forall i | 0 <= i < VOLUME
        ensures chunk.blocks[i] == Terrain(height, pos)[i]
      {
        DecodeIndex(i);
      }
    }
  }
}
