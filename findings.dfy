/**
 * The copy destination of scull_write as scull.c:197 writes it.
 *
 * The code computes the block `s_pos` and the in-block offset `q_pos` of
 * `*f_pos`, allocates block `s_pos`, and then copies into
 * `dptr->data[s_pos + q_pos]`: the pointer stored `q_pos` slots after the
 * allocated one, at its first byte. That slot may be NULL or lie past the
 * `qset` pointers of the slot array, and when it holds a block the bytes land
 * at the wrong place. scull_read (scull.c:143) reads from byte `q_pos` of
 * block `s_pos`, which is what Quanta.WriteAt stores to.
 */
module Findings {
  import opened Addressing
  import opened Quanta

  /** What the copy of scull.c:197 does to the block map. */
  datatype Outcome =
    | Stored(m: BlockMap)  // the bytes went into an existing block
    | NullTarget           // the destination slot holds NULL
    | OutOfBounds          // the destination index is past the slot array

  /**
   * A successful scull_write as written: reserve block `s_pos` as the code
   * does, then copy `bytes` to the start of the block in slot `s_pos + q_pos`.
   */
  function WriteAsWritten(m: BlockMap, quantum: nat, qset: nat, pos: nat, bytes: seq<bv8>, fill: seq<bv8>): (o: Outcome)
    requires quantum > 0 && qset > 0 && Shaped(m, quantum) && |fill| == quantum
    requires Locate(pos, quantum, qset).offset + |bytes| <= quantum
    ensures o.Stored? ==> Shaped(o.m, quantum)
  {
    var a := Locate(pos, quantum, qset);
    var m1 := Reserve(m, Key(a), fill);
    var t := a.slot + a.offset;
    if t >= qset then OutOfBounds
    else if (a.item, t) !in m1 then NullTarget
    else Stored(m1[(a.item, t) := bytes + m1[(a.item, t)][|bytes|..]])
  }

  /**
   * For a write that starts on a block boundary the code as written and the
   * corrected WriteAt agree, so the defect shows only at unaligned offsets.
   */
  lemma AlignedAgrees(m: BlockMap, quantum: nat, qset: nat, pos: nat, bytes: seq<bv8>, fill: seq<bv8>)
    requires quantum > 0 && qset > 0 && Shaped(m, quantum) && |fill| == quantum
    requires Locate(pos, quantum, qset).offset + |bytes| <= quantum
    requires Locate(pos, quantum, qset).offset == 0
    ensures WriteAsWritten(m, quantum, qset, pos, bytes, fill) == Stored(WriteAt(m, quantum, qset, pos, bytes, fill))
  {
    var a := Locate(pos, quantum, qset);
    var blk := Reserve(m, Key(a), fill)[Key(a)];
    assert blk[..0] + bytes + blk[|bytes|..] == bytes + blk[|bytes|..];
  }

  /**
   * Two one-byte writes in a row, at offsets 0 and 1 of an empty device with
   * the default geometry: the first allocates block 0; the second allocates
   * nothing new and copies into slot 0 + 1, which is NULL.
   */
  lemma SecondByteHitsNull(fill: seq<bv8>)
    requires |fill| == 4000
    ensures var m1 := WriteAt(map[], 4000, 1000, 0, [0x41], fill);
      WriteAsWritten(m1, 4000, 1000, 1, [0x42], fill) == NullTarget
  {
  }

  /**
   * When slot `s_pos + q_pos` does hold a block, the byte written at offset 1
   * does not read back: with blocks 0 and 1 present and zero, writing 0x41 at
   * offset 1 leaves a zero there (the 0x41 went to byte 0 of block 1).
   */
  lemma WrongBlockReadBack()
    ensures var z := seq(4000, _ => 0 as bv8);
      var m := map[(0, 0) := z, (0, 1) := z];
      var o := WriteAsWritten(m, 4000, 1000, 1, [0x41], z);
      && o.Stored?
      && ReadAt(o.m, 4001, 4000, 1000, 1, 1) == [0]
      && ReadAt(o.m, 4001, 4000, 1000, 4000, 1) == [0x41]
  {
  }

  /**
   * Near the end of a block the destination index leaves the slot array:
   * with the default geometry, a write at offset 3999 copies through slot
   * pointer number 3999 of an array of 1000.
   */
  lemma IndexPastSlots(m: BlockMap, bytes: seq<bv8>, fill: seq<bv8>)
    requires Shaped(m, 4000) && |fill| == 4000 && |bytes| <= 1
    ensures WriteAsWritten(m, 4000, 1000, 3999, bytes, fill) == OutOfBounds
  {
  }
}
