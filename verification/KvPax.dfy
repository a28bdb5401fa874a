/** How many bytes a sealed block needs, and why blocks filled by the flush loop's account fit. */
module KvPax {
  import opened KvModel
  import opened KvProofs
  import opened KvLayout

  const MINIPAGE_ALIGN: nat := 64
  const BLOCK_HEADER_SIZE: nat := 64
  const COLUMN_DIRECTORY_SIZE: nat := 64

  function AlignUp(off: nat, align: nat): (r: nat)
    requires align > 0
    ensures off <= r < off + align
  {
    off + align - 1 - (off + align - 1) % align
  }

  function PayloadBytes(b: Block): nat {
    if b == [] then 0 else PayloadBytes(b[..|b| - 1]) + |b[|b| - 1].key| + |b[|b| - 1].value|
  }

  /** The bytes the builder needs for the header, the directory, the minipages of the three columns,
      of which the first holds the hashes of the keys in `hashes` encoded bytes, the heap of the keys
      and values, and the bitmaps. */
  function BytesNeeded(b: Block, hashes: nat): nat {
    var directoryEnd := AlignUp(BLOCK_HEADER_SIZE + 3 * COLUMN_DIRECTORY_SIZE, MINIPAGE_ALIGN);
    var hashEnd := AlignUp(directoryEnd, MINIPAGE_ALIGN) + hashes;
    var keyEnd := AlignUp(hashEnd, MINIPAGE_ALIGN) + 8 * |b|;
    var valueEnd := AlignUp(keyEnd, MINIPAGE_ALIGN) + 8 * |b|;
    AlignUp(valueEnd, 8) + PayloadBytes(b) + 3 * ((|b| + 7) / 8) + (|b| + 7) / 8
  }

  lemma {:induction false} ChargedBytes(b: Block)
    ensures TotalBytes(b) == 40 * |b| + PayloadBytes(b)
  {
    if b != [] {
      ChargedBytes(b[..|b| - 1]);
    }
  }

  /** Rows that fit by the account of the flush loop fit into a block, as long as the hashes take at
      most 23 bytes each beyond the slack of 118 bytes. */
  lemma WhatFitsIsSealed(b: Block, hashes: nat, blockSize: nat)
    requires b != [] && TotalBytes(b) <= Usable(blockSize) && hashes <= 23 * |b| + 118
    ensures BytesNeeded(b, hashes) <= blockSize
  {
    ChargedBytes(b);
    assert BLOCK_OVERHEAD == 512;
  }

  /** A builder that refuses a block only if it needs more than the block size takes what fits. */
  lemma BuilderTakesWhatFits(accepts: Block -> bool, hashes: Block -> nat, blockSize: nat)
    requires forall b: Block :: accepts(b) <==> BytesNeeded(b, hashes(b)) <= blockSize
    requires forall b: Block :: hashes(b) <= 23 * |b| + 118
    ensures TakesWhatFits(accepts, Usable(blockSize))
  {
    forall b: Block | b != [] && TotalBytes(b) <= Usable(blockSize) ensures accepts(b) {
      WhatFitsIsSealed(b, hashes(b), blockSize);
    }
  }
}
