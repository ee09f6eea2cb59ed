/**
  Chunk positions and the split of a world coordinate into a chunk coordinate
  (Euclidean quotient by the chunk edge) and a local coordinate (Euclidean remainder).
 */
module ChunkCoords {
  import opened Primitives
  import opened ChunkStorage

  datatype ChunkPos = ChunkPos(x: i32, y: i32, z: i32)

  /**
    The chunk coordinate of a world coordinate: its floor-quotient by SIZE.
    For the positive divisor SIZE Dafny's `/` on `int` is the Euclidean
    quotient, the same as Rust's `div_euclid`.
   */
  function ChunkCoord(v: i32): (c: i32)
    ensures SIZE * c <= v < SIZE * c + SIZE
    ensures -0x400_0000 <= c < 0x400_0000
  {
    v / SIZE
  }

  /** The local coordinate of a world coordinate: its non-negative remainder by SIZE. */
  function LocalCoord(v: i32): (r: nat)
    ensures r < SIZE
    ensures v == SIZE * ChunkCoord(v) + r
  {
    v % SIZE
  }

  /** The chunk holding world block (x, y, z). */
  function FromWorld(x: i32, y: i32, z: i32): (p: ChunkPos)
    ensures SIZE * p.x <= x < SIZE * p.x + SIZE
    ensures SIZE * p.y <= y < SIZE * p.y + SIZE
    ensures SIZE * p.z <= z < SIZE * p.z + SIZE
  {
    ChunkPos(ChunkCoord(x), ChunkCoord(y), ChunkCoord(z))
  }

  /** The floor-quotient is the only chunk coordinate whose span holds v. */
  lemma ChunkCoordUnique(v: i32, c: int)
    requires SIZE * c <= v < SIZE * c + SIZE
    ensures ChunkCoord(v) == c
  {
  }

  /** Floor division rounds toward negative infinity, not toward zero. */
  lemma FromWorldExamples()
    ensures FromWorld(-1, 0, 0).x == -1
    ensures FromWorld(-33, 0, 0).x == -2
    ensures FromWorld(0, 0, 0).x == 0
    ensures FromWorld(31, 0, 0).x == 0
    ensures FromWorld(32, 0, 0).x == 1
  {
    ChunkCoordUnique(-1, -1);
    ChunkCoordUnique(-33, -2);
    ChunkCoordUnique(0, 0);
    ChunkCoordUnique(31, 0);
    ChunkCoordUnique(32, 1);
  }

  /**
    Chunk positions whose world block coordinates `c * SIZE + l` (l < SIZE)
    all fit in 32 bits, so generation computes them without overflow.
   */
  predicate InGeneratorRange(pos: ChunkPos) {
    && -0x400_0000 <= pos.x < 0x400_0000
    && -0x400_0000 <= pos.y < 0x400_0000
    && -0x400_0000 <= pos.z < 0x400_0000
  }

  /** Every chunk that holds a 32-bit world block is one the generator can fill. */
  lemma FromWorldInGeneratorRange(x: i32, y: i32, z: i32)
    ensures InGeneratorRange(FromWorld(x, y, z))
  {
  }

  /** Composing a chunk coordinate and a local coordinate and splitting again gives both back. */
  lemma SplitCompose(c: int, l: nat)
    requires -0x400_0000 <= c < 0x400_0000 && l < SIZE
    ensures -0x8000_0000 <= SIZE * c + l < 0x8000_0000
    ensures ChunkCoord(SIZE * c + l) == c
    ensures LocalCoord(SIZE * c + l) == l
  {
    ChunkCoordUnique(SIZE * c + l, c);
  }
}
