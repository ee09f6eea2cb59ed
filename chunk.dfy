/**
  A chunk: a dense cube of SIZE * SIZE * SIZE block ids stored in one flat buffer
  and addressed through the linear index z * SIZE^2 + y * SIZE + x.
 */
module ChunkStorage {
  import opened Primitives

  /** Edge length of a chunk, in blocks. */
  const SIZE: int := 32
  /** Number of cells in a chunk. */
  const VOLUME: int := SIZE * SIZE * SIZE

  /** The flat index of local coordinates (x, y, z). Nothing checks the axes one by one. */
  function BlockIndex(x: nat, y: nat, z: nat): (i: nat)
    ensures x < SIZE && y < SIZE && z < SIZE ==> i < VOLUME
  {
    z * SIZE * SIZE + y * SIZE + x
  }

  /** The three local coordinates that a flat index stands for. */
  function LocalX(i: nat): nat { i % SIZE }
  function LocalY(i: nat): nat { i / SIZE % SIZE }
  function LocalZ(i: nat): nat { i / (SIZE * SIZE) }

  predicate InLocalRange(x: nat, y: nat, z: nat) {
    x < SIZE && y < SIZE && z < SIZE
  }

  /** Every cell of the buffer is reached by exactly one in-range coordinate triple. */
  lemma DecodeIndex(i: nat)
    requires i < VOLUME
    ensures InLocalRange(LocalX(i), LocalY(i), LocalZ(i))
    ensures BlockIndex(LocalX(i), LocalY(i), LocalZ(i)) == i
  {
  }

  lemma EncodeIndex(x: nat, y: nat, z: nat)
    requires InLocalRange(x, y, z)
    ensures LocalX(BlockIndex(x, y, z)) == x
    ensures LocalY(BlockIndex(x, y, z)) == y
    ensures LocalZ(BlockIndex(x, y, z)) == z
  {
  }

  /** Distinct local coordinates never share a cell. */
  lemma BlockIndexInjective(x: nat, y: nat, z: nat, x': nat, y': nat, z': nat)
    requires InLocalRange(x, y, z) && InLocalRange(x', y', z')
    ensures BlockIndex(x, y, z) == BlockIndex(x', y', z') <==> (x, y, z) == (x', y', z')
  {
    if BlockIndex(x, y, z) == BlockIndex(x', y', z') {
      EncodeIndex(x, y, z);
      EncodeIndex(x', y', z');
    }
  }

  /**
    Only the flat index is bounded, so an x of SIZE is accepted and lands on
    the cell of (0, 1, 0).
   */
  lemma OverflowingAxisAliases()
    ensures BlockIndex(SIZE, 0, 0) < VOLUME
    ensures BlockIndex(SIZE, 0, 0) == BlockIndex(0, 1, 0)
  {
  }

  /** The id stored for local coordinates (x, y, z) in a chunk's buffer. */
  function Cell(blocks: seq<u8>, x: nat, y: nat, z: nat): u8
    requires |blocks| == VOLUME && BlockIndex(x, y, z) < VOLUME
  {
    blocks[BlockIndex(x, y, z)]
  }

  /** Writing one cell of a buffer leaves every other in-range cell as it was. */
  lemma CellAfterWrite(blocks: seq<u8>, x: nat, y: nat, z: nat, v: u8, x': nat, y': nat, z': nat)
    requires |blocks| == VOLUME && InLocalRange(x, y, z) && InLocalRange(x', y', z')
    ensures Cell(blocks[BlockIndex(x, y, z) := v], x', y', z')
            == if (x', y', z') == (x, y, z) then v else Cell(blocks, x', y', z')
  {
    BlockIndexInjective(x, y, z, x', y', z');
  }

  class Chunk {
    const blocks: array<u8>

    ghost predicate Valid() {
      blocks.Length == VOLUME
    }

    /** A chunk of air. */
    constructor ()
      ensures Valid() && fresh(blocks)
      ensures blocks[..] == seq(VOLUME, i => 0)
    {
      blocks := new u8[VOLUME](i => 0);
    }

    /** The id at local coordinates; the only guard is the bound on the flat index. */
    function GetBlock(x: nat, y: nat, z: nat): (b: u8)
      requires Valid() && BlockIndex(x, y, z) < VOLUME
      reads blocks
      ensures b == Cell(blocks[..], x, y, z)
    {
      blocks[BlockIndex(x, y, z)]
    }

    method SetBlock(x: nat, y: nat, z: nat, block: u8)
      requires Valid() && BlockIndex(x, y, z) < VOLUME
      modifies blocks
      ensures blocks[..] == old(blocks[..])[BlockIndex(x, y, z) := block]
      ensures GetBlock(x, y, z) == block
      ensures forall i | 0 <= i < VOLUME && i != BlockIndex(x, y, z) :: blocks[i] == old(blocks[i])
    {
      var idx := BlockIndex(x, y, z);
      blocks[idx] := block;
    }
  }
}
