/**
 * The scull store seen as values: which blocks exist and what they hold.
 *
 * A `BlockMap` maps (quantum set, slot) to the bytes of that block; a key
 * that is absent is a hole. Reading and writing the device are specified
 * here as functions on a block map, and the class in store.dfy is proved to
 * follow them.
 */
module Quanta {
  import opened Addressing

  datatype Option<T> = None | Some(value: T)

  type BlockMap = map<(nat, nat), seq<bv8>>

  function Min(a: nat, b: nat): (r: nat) { if a < b then a else b }

  function Max(a: nat, b: nat): (r: nat) { if a < b then b else a }

  /** Every block holds exactly `quantum` bytes. */
  ghost predicate Shaped(m: BlockMap, quantum: nat)
  {
    forall k :: k in m ==> |m[k]| == quantum
  }

  function Key(a: Address): (k: (nat, nat)) { (a.item, a.slot) }

  /**
   * The logical byte at offset `p`: None when the block holding `p` was
   * never allocated (a hole).
   */
  function ByteAt(m: BlockMap, quantum: nat, qset: nat, p: nat): (b: Option<bv8>)
    requires quantum > 0 && qset > 0 && Shaped(m, quantum)
  {
    var a := Locate(p, quantum, qset);
    if Key(a) in m then Some(m[Key(a)][a.offset]) else None
  }

  /**
   * The bytes one scull_read copies out: nothing at or past `size`, nothing
   * from a hole, otherwise at most `count` bytes, clipped at `size` and at
   * the end of the block holding `pos`.
   */
  function ReadAt(m: BlockMap, size: nat, quantum: nat, qset: nat, pos: nat, count: nat): (r: seq<bv8>)
    requires quantum > 0 && qset > 0 && Shaped(m, quantum)
    ensures |r| <= count
    ensures r != [] ==> pos + |r| <= size && Locate(pos, quantum, qset).offset + |r| <= quantum
  {
    if pos >= size then []
    else
      var n := if pos + count > size then size - pos else count;
      var a := Locate(pos, quantum, qset);
      if Key(a) !in m then []
      else
        var n' := if n > quantum - a.offset then quantum - a.offset else n;
        m[Key(a)][a.offset .. a.offset + n']
  }

  /** How many of `count` bytes one scull_write stores at `pos`. */
  function WriteCount(quantum: nat, qset: nat, pos: nat, count: nat): (n: nat)
    requires quantum > 0 && qset > 0
    ensures n <= count && Locate(pos, quantum, qset).offset + n <= quantum
  {
    var a := Locate(pos, quantum, qset);
    if count > quantum - a.offset then quantum - a.offset else count
  }

  /**
   * The block map once the block for key `k` is allocated, if it was not;
   * `fill` is whatever kmalloc left in the new memory.
   */
  function Reserve(m: BlockMap, k: (nat, nat), fill: seq<bv8>): (r: BlockMap)
    ensures k in r
  {
    if k in m then m else m[k := fill]
  }

  /**
   * A successful scull_write of `bytes` (already clipped to the block) at
   * `pos`: allocate the block if need be (holding `fill`), then overwrite
   * its bytes from the in-block offset of `pos` on.
   */
  function WriteAt(m: BlockMap, quantum: nat, qset: nat, pos: nat, bytes: seq<bv8>, fill: seq<bv8>): (m': BlockMap)
    requires quantum > 0 && qset > 0 && Shaped(m, quantum) && |fill| == quantum
    requires Locate(pos, quantum, qset).offset + |bytes| <= quantum
    ensures Shaped(m', quantum)
  {
    var a := Locate(pos, quantum, qset);
    var m' := Reserve(m, Key(a), fill);
    var blk := m'[Key(a)];
    m'[Key(a) := blk[..a.offset] + bytes + blk[a.offset + |bytes|..]]
  }

  /** WriteAt spelled out on the target key `k`, for callers that build it step by step. */
  lemma WriteAtParts(m: BlockMap, quantum: nat, qset: nat, pos: nat, bytes: seq<bv8>, fill: seq<bv8>, k: (nat, nat), off: nat, m': BlockMap)
    requires quantum > 0 && qset > 0 && Shaped(m, quantum) && |fill| == quantum
    requires Locate(pos, quantum, qset).offset + |bytes| <= quantum
    requires k == Key(Locate(pos, quantum, qset)) && off == Locate(pos, quantum, qset).offset
    requires var r := Reserve(m, k, fill); m' == r[k := r[k][..off] + bytes + r[k][off + |bytes|..]]
    ensures m' == WriteAt(m, quantum, qset, pos, bytes, fill)
  {
  }

  // ---------------------------------------------------------------------
  // Reading

  /**
   * What a read returns: the stored bytes at consecutive offsets from `pos`,
   * never more than asked, never past `size` or the end of the block. It is
   * empty exactly at or past `size`, for a zero count, or in a hole; and a
   * non-empty read stops only at one of its three limits.
   */
  lemma {:induction false} ReadAtSpec(m: BlockMap, size: nat, quantum: nat, qset: nat, pos: nat, count: nat)
    requires quantum > 0 && qset > 0 && Shaped(m, quantum)
    ensures var r := ReadAt(m, size, quantum, qset, pos, count);
      var a := Locate(pos, quantum, qset);
      && |r| <= count
      && (r == [] <==> pos >= size || count == 0 || Key(a) !in m)
      && (r != [] ==> pos + |r| <= size && a.offset + |r| <= quantum)
      && (r != [] ==> |r| == count || pos + |r| == size || a.offset + |r| == quantum)
      && (forall i :: 0 <= i < |r| ==> ByteAt(m, quantum, qset, pos + i) == Some(r[i]))
  {
    var r := ReadAt(m, size, quantum, qset, pos, count);
    var a := Locate(pos, quantum, qset);
    forall i | 0 <= i < |r|
      ensures ByteAt(m, quantum, qset, pos + i) == Some(r[i])
    {
      LocateShift(pos, i, quantum, qset);
    }
  }

  /** ReadAt from a block that is present, with the count already clipped to `size` and to the block. */
  lemma ReadAtHit(m: BlockMap, size: nat, quantum: nat, qset: nat, pos: nat, count: nat, n: nat)
    requires quantum > 0 && qset > 0 && Shaped(m, quantum)
    requires pos < size && Key(Locate(pos, quantum, qset)) in m
    requires n == Min(Min(count, size - pos), quantum - Locate(pos, quantum, qset).offset)
    ensures var a := Locate(pos, quantum, qset);
      ReadAt(m, size, quantum, qset, pos, count) == m[Key(a)][a.offset .. a.offset + n]
  {
  }

  /** A read that starts in a hole returns nothing. */
  lemma ReadAtHole(m: BlockMap, size: nat, quantum: nat, qset: nat, pos: nat, count: nat)
    requires quantum > 0 && qset > 0 && Shaped(m, quantum)
    requires Key(Locate(pos, quantum, qset)) !in m
    ensures ReadAt(m, size, quantum, qset, pos, count) == []
  {
  }

  /** Reads at or past the end of the data return nothing. */
  lemma ReadPastEnd(m: BlockMap, size: nat, quantum: nat, qset: nat, pos: nat, count: nat)
    requires quantum > 0 && qset > 0 && Shaped(m, quantum)
    requires pos >= size
    ensures ReadAt(m, size, quantum, qset, pos, count) == []
  {
  }

  // ---------------------------------------------------------------------
  // Writing

  /**
   * The clipped count of a write: at most the requested count, within the
   * block, not zero unless nothing was asked, and short only when it ends
   * exactly at the next block boundary.
   */
  lemma {:induction false} WriteCountSpec(quantum: nat, qset: nat, pos: nat, count: nat)
    requires quantum > 0 && qset > 0
    ensures var n := WriteCount(quantum, qset, pos, count);
      && n <= count
      && Locate(pos, quantum, qset).offset + n <= quantum
      && (count > 0 ==> n > 0)
      && (n < count ==> Locate(pos + n, quantum, qset).offset == 0)
  {
    var n := WriteCount(quantum, qset, pos, count);
    var a := Locate(pos, quantum, qset);
    if n < count {
      // pos + n is the first byte of the next block, or of the next quantum set
      var next := if a.slot + 1 < qset then Address(a.item, a.slot + 1, 0)
                  else Address(a.item + 1, 0, 0);
      assert OffsetOf(next, quantum, qset) == pos + n;
      LocateOffsetOf(next, quantum, qset);
    }
  }

  /**
   * Lazy allocation: afterwards the block for `k` exists. A block that
   * existed is kept with its bytes, a missing one holds `fill`, and no other
   * block is added or changed.
   */
  lemma ReserveSpec(m: BlockMap, k: (nat, nat), fill: seq<bv8>)
    ensures var r := Reserve(m, k, fill);
      && r.Keys == m.Keys + {k}
      && (forall j :: j in m ==> r[j] == m[j])
      && (k !in m ==> r[k] == fill)
  {
  }

  /** Blocks keep their size, and a write adds at most the block it targets. */
  lemma WriteAtShape(m: BlockMap, quantum: nat, qset: nat, pos: nat, bytes: seq<bv8>, fill: seq<bv8>)
    requires quantum > 0 && qset > 0 && Shaped(m, quantum) && |fill| == quantum
    requires Locate(pos, quantum, qset).offset + |bytes| <= quantum
    ensures var m' := WriteAt(m, quantum, qset, pos, bytes, fill);
      m'.Keys == m.Keys + {Key(Locate(pos, quantum, qset))}
  {
  }

  /**
   * The bytes of the device after a write: the written range holds `bytes`;
   * every other byte that existed is unchanged; the rest of a block the
   * write had to allocate holds what kmalloc left there; and every other
   * hole stays a hole.
   */
  lemma {:induction false} WriteAtBytes(m: BlockMap, quantum: nat, qset: nat, pos: nat, bytes: seq<bv8>, fill: seq<bv8>, p: nat)
    requires quantum > 0 && qset > 0 && Shaped(m, quantum) && |fill| == quantum
    requires Locate(pos, quantum, qset).offset + |bytes| <= quantum
    ensures var b := ByteAt(WriteAt(m, quantum, qset, pos, bytes, fill), quantum, qset, p);
      && (pos <= p < pos + |bytes| ==> b == Some(bytes[p - pos]))
      && (!(pos <= p < pos + |bytes|) && ByteAt(m, quantum, qset, p).Some? ==> b == ByteAt(m, quantum, qset, p))
      && (!(pos <= p < pos + |bytes|) && ByteAt(m, quantum, qset, p).None? ==>
            b == if Key(Locate(p, quantum, qset)) == Key(Locate(pos, quantum, qset)) then Some(fill[Locate(p, quantum, qset).offset]) else None)
  {
    var m' := WriteAt(m, quantum, qset, pos, bytes, fill);
    var a := Locate(pos, quantum, qset);
    var ap := Locate(p, quantum, qset);
    var n := |bytes|;
    var old' := Reserve(m, Key(a), fill)[Key(a)];
    assert m'[Key(a)] == old'[..a.offset] + bytes + old'[a.offset + n..];
    if pos <= p < pos + n {
      LocateShift(pos, p - pos, quantum, qset);
      assert ap == Address(a.item, a.slot, a.offset + (p - pos));
      assert m'[Key(a)][ap.offset] == bytes[p - pos];
    } else if Key(ap) == Key(a) {
      SameBlock(p, pos, quantum, qset);
      assert ap.offset < a.offset || a.offset + n <= ap.offset;
      assert m'[Key(a)][ap.offset] == old'[ap.offset];
    } else {
      assert Key(ap) in m' <==> Key(ap) in m;
      assert Key(ap) in m ==> m'[Key(ap)] == m[Key(ap)];
    }
  }

  /**
   * Round trip: reading back what one successful write stored, at the same
   * offset and length, returns the written bytes.
   */
  lemma WriteThenRead(m: BlockMap, size: nat, quantum: nat, qset: nat, pos: nat, bytes: seq<bv8>, fill: seq<bv8>)
    requires quantum > 0 && qset > 0 && Shaped(m, quantum) && |fill| == quantum
    requires Locate(pos, quantum, qset).offset + |bytes| <= quantum
    ensures ReadAt(WriteAt(m, quantum, qset, pos, bytes, fill), Max(size, pos + |bytes|), quantum, qset, pos, |bytes|) == bytes
  {
  }

  /**
   * A write leaves every block other than its target untouched, so reads
   * from other blocks see the same bytes (as long as they end below the old
   * size, which only grows).
   */
  lemma WriteKeepsOtherReads(m: BlockMap, size: nat, quantum: nat, qset: nat, pos: nat, bytes: seq<bv8>, fill: seq<bv8>, p: nat, count: nat)
    requires quantum > 0 && qset > 0 && Shaped(m, quantum) && |fill| == quantum
    requires Locate(pos, quantum, qset).offset + |bytes| <= quantum
    requires Key(Locate(p, quantum, qset)) != Key(Locate(pos, quantum, qset))
    requires p + count <= size
    ensures ReadAt(WriteAt(m, quantum, qset, pos, bytes, fill), Max(size, pos + |bytes|), quantum, qset, p, count)
      == ReadAt(m, size, quantum, qset, p, count)
  {
  }
}
