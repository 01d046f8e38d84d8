/**
 * The scull device storage: `struct scull_dev` and the operations of
 * scull.c that touch it (scull_trim, scull_open, scull_follow, scull_read,
 * scull_write).
 *
 * The linked list of `struct scull_qset` nodes is the sequence `data`; a
 * node's slot array (`dptr->data`, NULL until the first write into the
 * node) is an optional sequence of optional blocks, and a block (a
 * `kmalloc`ed area of `quantum` bytes) is an `array<bv8>` that writes
 * update in place.
 */
module Scull {
  import opened Addressing
  import opened Quanta

  /** Default block size and group width (SCULL_QUANTUM and SCULL_QSET). */
  const ScullQuantum: nat := 4000
  const ScullQset: nat := 1000

  /** Access-mode bits of `f_flags` (O_ACCMODE) and the write-only mode. */
  const AccMode: bv32 := 3
  const WriteOnly: bv32 := 1

  /** errno values returned negated by read and write. */
  const ERESTARTSYS: int := 512
  const ENOMEM: int := 12
  const EFAULT: int := 14

  type Block = array<bv8>

  /** One node of the list: its slot array, absent until first written. */
  datatype QSet = QSet(data: Option<seq<Option<Block>>>)

  /** A node as kmalloc plus memset leave it: no slot array. */
  const EmptyQSet := QSet(None)

  /** How a read or write ended. */
  datatype Status = Transferred(count: nat) | Interrupted | NoMemory | Fault

  /** The `ssize_t` a status is returned as. */
  function ReturnValue(st: Status): (r: int)
    ensures r >= 0 <==> st.Transferred?
    ensures st.Transferred? ==> r == st.count
    ensures st == Interrupted ==> r == -ERESTARTSYS
    ensures st == NoMemory ==> r == -ENOMEM
    ensures st == Fault ==> r == -EFAULT
  {
    match st
    case Transferred(n) => n
    case Interrupted => -ERESTARTSYS
    case NoMemory => -ENOMEM
    case Fault => -EFAULT
  }

  /**
   * The chain after scull_follow(dev, n) succeeds: the nodes that existed,
   * followed by as many empty nodes as needed to have a node number `n`.
   */
  function {:induction false} Extend(chain: seq<QSet>, n: nat): (c: seq<QSet>)
    ensures |c| == Max(|chain|, n + 1)
    ensures chain <= c
    ensures forall i :: |chain| <= i < |c| ==> c[i] == EmptyQSet
    decreases n + 1 - |chain|
  {
    if |chain| > n then chain else Extend(chain + [EmptyQSet], n)
  }

  /** Extend's postcondition determines it: a list of that shape is Extend's result. */
  lemma ExtendUnique(chain: seq<QSet>, c: seq<QSet>, n: nat)
    requires |c| == Max(|chain|, n + 1) && chain <= c
    requires forall i :: |chain| <= i < |c| ==> c[i] == EmptyQSet
    ensures c == Extend(chain, n)
  {
  }

  /** Slot `s` of node `g` of `chain` holds a block. */
  ghost predicate HasBlock(chain: seq<QSet>, g: int, s: int)
  {
    0 <= g < |chain| && chain[g].data.Some? &&
    0 <= s < |chain[g].data.value| && chain[g].data.value[s].Some?
  }

  ghost function BlockOf(chain: seq<QSet>, g: int, s: int): Block
    requires HasBlock(chain, g, s)
  {
    chain[g].data.value[s].value
  }

  /**
   * Every slot array of `chain` is `qset` long, every block `quantum` bytes,
   * and `owner` names the one place of each block, so no array is used for
   * two blocks.
   */
  ghost predicate ChainOk(chain: seq<QSet>, quantum: nat, qset: nat, owner: map<Block, (nat, nat)>)
  {
    && (forall g :: 0 <= g < |chain| && chain[g].data.Some? ==> |chain[g].data.value| == qset)
    && (forall g, s :: HasBlock(chain, g, s) ==>
          BlockOf(chain, g, s) in owner && owner[BlockOf(chain, g, s)] == (g, s)
          && BlockOf(chain, g, s).Length == quantum)
  }

  /** Every block of `chain` is one of `owner`'s arrays. */
  ghost predicate Owned(chain: seq<QSet>, owner: map<Block, (nat, nat)>)
  {
    forall g, s :: HasBlock(chain, g, s) ==> BlockOf(chain, g, s) in owner
  }

  /** The (node, slot) places of node `g` that hold a block. */
  ghost function RowKeys(chain: seq<QSet>, g: nat): set<(nat, nat)>
    requires g < |chain|
  {
    set s: nat | chain[g].data.Some? && s < |chain[g].data.value| && HasBlock(chain, g, s) :: (g, s)
  }

  /** What the blocks of node `g` hold, by (node, slot). */
  ghost function Row(chain: seq<QSet>, owner: map<Block, (nat, nat)>, g: nat): BlockMap
    reads owner.Keys
    requires g < |chain| && Owned(chain, owner)
  {
    map k | k in RowKeys(chain, g) :: BlockOf(chain, k.0, k.1)[..]
  }

  /** What the blocks of the first `n` nodes hold. */
  ghost function Prefix(chain: seq<QSet>, owner: map<Block, (nat, nat)>, n: nat): BlockMap
    reads owner.Keys
    requires n <= |chain| && Owned(chain, owner)
    decreases n
  {
    if n == 0 then map[] else Prefix(chain, owner, n - 1) + Row(chain, owner, n - 1)
  }

  /** What `chain`'s blocks hold, by (node, slot). */
  ghost function Contents(chain: seq<QSet>, owner: map<Block, (nat, nat)>): BlockMap
    reads owner.Keys
    requires Owned(chain, owner)
  {
    Prefix(chain, owner, |chain|)
  }

  lemma {:induction false} PrefixAt(chain: seq<QSet>, owner: map<Block, (nat, nat)>, n: nat, g: nat, s: nat)
    requires n <= |chain| && Owned(chain, owner)
    ensures (g, s) in Prefix(chain, owner, n) <==> g < n && HasBlock(chain, g, s)
    ensures (g, s) in Prefix(chain, owner, n) ==> Prefix(chain, owner, n)[(g, s)] == BlockOf(chain, g, s)[..]
    decreases n
  {
    if n > 0 {
      PrefixAt(chain, owner, n - 1, g, s);
      if g == n - 1 && HasBlock(chain, g, s) {
        assert (g, s) in RowKeys(chain, g);
      }
    }
  }

  /** Place (g, s) of the contents: present exactly when it holds a block, with that block's bytes. */
  lemma ContentsAt(chain: seq<QSet>, owner: map<Block, (nat, nat)>, g: nat, s: nat)
    requires Owned(chain, owner)
    ensures (g, s) in Contents(chain, owner) <==> HasBlock(chain, g, s)
    ensures HasBlock(chain, g, s) ==> Contents(chain, owner)[(g, s)] == BlockOf(chain, g, s)[..]
  {
    PrefixAt(chain, owner, |chain|, g, s);
  }

  /** ContentsAt for every place at once. */
  lemma ContentsAll(chain: seq<QSet>, owner: map<Block, (nat, nat)>)
    requires Owned(chain, owner)
    ensures forall k: (nat, nat) :: k in Contents(chain, owner) <==> HasBlock(chain, k.0, k.1)
    ensures forall k: (nat, nat) :: k in Contents(chain, owner) ==> Contents(chain, owner)[k] == BlockOf(chain, k.0, k.1)[..]
  {
    forall k: (nat, nat)
      ensures k in Contents(chain, owner) <==> HasBlock(chain, k.0, k.1)
      ensures k in Contents(chain, owner) ==> Contents(chain, owner)[k] == BlockOf(chain, k.0, k.1)[..]
    {
      ContentsAt(chain, owner, k.0, k.1);
    }
  }

  /** Two lists with the same blocks in the same places hold the same contents. */
  lemma SameContents(c1: seq<QSet>, c2: seq<QSet>, owner: map<Block, (nat, nat)>)
    requires Owned(c1, owner) && Owned(c2, owner)
    requires forall g, s :: HasBlock(c1, g, s) <==> HasBlock(c2, g, s)
    requires forall g, s :: HasBlock(c1, g, s) ==> BlockOf(c1, g, s) == BlockOf(c2, g, s)
    ensures Contents(c1, owner) == Contents(c2, owner)
  {
    ContentsAll(c1, owner);
    ContentsAll(c2, owner);
    assert Contents(c1, owner).Keys == Contents(c2, owner).Keys;
  }

  /** Adding block `blk` at (g, s) adds its bytes under that key. */
  lemma ContentsAdd(chain: seq<QSet>, c: seq<QSet>, g: nat, s: nat, blk: Block, owner: map<Block, (nat, nat)>)
    requires Owned(chain, owner)
    requires forall g', s' :: HasBlock(c, g', s') <==> HasBlock(chain, g', s') || (g' == g && s' == s)
    requires forall g', s' :: HasBlock(chain, g', s') ==> BlockOf(c, g', s') == BlockOf(chain, g', s')
    requires HasBlock(c, g, s) && BlockOf(c, g, s) == blk
    ensures Owned(c, owner[blk := (g, s)])
    ensures Contents(c, owner[blk := (g, s)]) == Contents(chain, owner)[(g, s) := blk[..]]
  {
    var owner' := owner[blk := (g, s)];
    assert Owned(c, owner') by {
      forall g', s' | HasBlock(c, g', s')
        ensures BlockOf(c, g', s') in owner'
      {
        if g' != g || s' != s {
          assert HasBlock(chain, g', s');
        }
      }
    }
    var m1 := Contents(c, owner');
    var m0 := Contents(chain, owner);
    forall k: (nat, nat)
      ensures k in m1 <==> k in m0 || k == (g, s)
      ensures k in m1 ==> m1[k] == if k == (g, s) then blk[..] else m0[k]
    {
      ContentsAt(c, owner', k.0, k.1);
      ContentsAt(chain, owner, k.0, k.1);
    }
    assert m1.Keys == m0.Keys + {(g, s)};
  }

  /**
   * After new bytes `nb` are stored in the array of block (g, s), and in no
   * other array, the contents differ from the earlier contents `m0` at
   * (g, s) only, because `owner` gives every block its own array.
   */
  lemma ContentsCopied(chain: seq<QSet>, quantum: nat, qset: nat, owner: map<Block, (nat, nat)>,
                                g: nat, s: nat, nb: seq<bv8>, m0: BlockMap)
    requires ChainOk(chain, quantum, qset, owner) && HasBlock(chain, g, s)
    requires forall k: (nat, nat) :: k in m0 <==> HasBlock(chain, k.0, k.1)
    requires forall k: (nat, nat) | k in m0 && k != (g, s) :: m0[k] == BlockOf(chain, k.0, k.1)[..]
    requires BlockOf(chain, g, s)[..] == nb
    ensures Contents(chain, owner) == m0[(g, s) := nb]
  {
    var m := Contents(chain, owner);
    ContentsAll(chain, owner);
    assert m.Keys == m0.Keys;
  }

  /** Appending empty nodes adds no block and moves none. */
  lemma AppendEmpty(chain: seq<QSet>, c: seq<QSet>, quantum: nat, qset: nat, owner: map<Block, (nat, nat)>)
    requires chain <= c && forall i :: |chain| <= i < |c| ==> c[i] == EmptyQSet
    requires ChainOk(chain, quantum, qset, owner)
    ensures ChainOk(c, quantum, qset, owner) && Contents(c, owner) == Contents(chain, owner)
  {
    forall g, s | HasBlock(c, g, s)
      ensures HasBlock(chain, g, s) && BlockOf(c, g, s) == BlockOf(chain, g, s)
    {
      assert c[g].data.Some?;
    }
    SameContents(chain, c, owner);
  }

  /** Giving node `g` an empty slot array adds no block and moves none. */
  lemma InstallSlots(chain: seq<QSet>, g: nat, quantum: nat, qset: nat, owner: map<Block, (nat, nat)>)
    requires ChainOk(chain, quantum, qset, owner) && g < |chain| && chain[g].data.None?
    ensures var c := chain[g := QSet(Some(seq(qset, _ => None)))];
      && ChainOk(c, quantum, qset, owner)
      && (forall g', s' :: HasBlock(c, g', s') <==> HasBlock(chain, g', s'))
      && (forall g', s' :: HasBlock(c, g', s') ==> BlockOf(c, g', s') == BlockOf(chain, g', s'))
  {
    var c := chain[g := QSet(Some(seq(qset, _ => None)))];
    forall g', s'
      ensures HasBlock(c, g', s') <==> HasBlock(chain, g', s')
      ensures HasBlock(c, g', s') ==> BlockOf(c, g', s') == BlockOf(chain, g', s')
    {
      if g' == g && 0 <= s' < qset {
        assert c[g].data.value[s'] == None;
      }
    }
  }

  /** Putting a new array into an empty slot adds exactly that block. */
  lemma InstallBlock(chain: seq<QSet>, g: nat, s: nat, blk: Block, quantum: nat, qset: nat, owner: map<Block, (nat, nat)>)
    requires ChainOk(chain, quantum, qset, owner) && g < |chain| && chain[g].data.Some?
    requires s < |chain[g].data.value| && chain[g].data.value[s].None?
    requires blk !in owner && blk.Length == quantum
    ensures var c := chain[g := QSet(Some(chain[g].data.value[s := Some(blk)]))];
      && ChainOk(c, quantum, qset, owner[blk := (g, s)])
      && (forall g', s' :: HasBlock(c, g', s') <==> HasBlock(chain, g', s') || (g' == g && s' == s))
      && (forall g', s' :: HasBlock(chain, g', s') ==> BlockOf(c, g', s') == BlockOf(chain, g', s'))
      && BlockOf(c, g, s) == blk
  {
    var c := chain[g := QSet(Some(chain[g].data.value[s := Some(blk)]))];
    forall g', s' | HasBlock(c, g', s')
      ensures BlockOf(c, g', s') in owner[blk := (g, s)]
      ensures owner[blk := (g, s)][BlockOf(c, g', s')] == (g', s')
      ensures BlockOf(c, g', s').Length == quantum
    {
      if g' == g && s' == s {
        assert BlockOf(c, g', s') == blk;
      } else {
        assert HasBlock(chain, g', s') && BlockOf(c, g', s') == BlockOf(chain, g', s');
      }
    }
  }

  /** The copy itself: `n` bytes of `src` into `blk` from byte `off` on. */
  method CopyBytes(blk: Block, off: nat, src: seq<bv8>, n: nat)
    requires off + n <= blk.Length && n <= |src|
    modifies blk
    ensures blk[..] == old(blk[..])[..off] + src[..n] + old(blk[..])[off + n..]
  {
    forall i | 0 <= i < n {
      blk[off + i] := src[i];
    }
    ghost var nb := old(blk[..])[..off] + src[..n] + old(blk[..])[off + n..];
    assert blk[..] == nb by {
      forall i | 0 <= i < blk.Length
        ensures blk[i] == nb[i]
      {
        if i < off {
        } else if i < off + n {
        } else {
        }
      }
    }
  }

  /** kmalloc: may fail, for reasons outside the model. */
  method Kmalloc() returns (ok: bool)
  {
    ok :| true;
  }

  class Store {
    /** The list of quantum sets: node `g` is `data[g]`. */
    var data: seq<QSet>
    var quantum: nat
    var qset: nat
    var size: nat
    /** Which block of the list each allocated array is. */
    ghost var Owner: map<Block, (nat, nat)>

    /**
     * A configured store: positive quantum and qset, and a well-formed list.
     */
    ghost predicate Valid()
      reads this
    {
      quantum > 0 && qset > 0 && ChainOk(data, quantum, qset, Owner)
    }

    ghost predicate Present(g: int, s: int)
      reads this
    {
      HasBlock(data, g, s)
    }

    ghost function Slot(g: int, s: int): Block
      reads this
      requires Present(g, s)
    {
      BlockOf(data, g, s)
    }

    /** The contents of the device, block by block. */
    ghost function Blocks(): (m: BlockMap)
      reads this, Owner.Keys
      requires Valid()
      ensures Shaped(m, quantum)
    {
      ContentsAll(data, Owner);
      Contents(data, Owner)
    }

    /** The state scull_init leaves a device in: all fields zero. */
    constructor ()
      ensures data == [] && quantum == 0 && qset == 0 && size == 0
    {
      data, quantum, qset, size := [], 0, 0, 0;
      Owner := map[];
    }

    /**
     * scull_trim: drop every node and block, and reset size, quantum and
     * qset. This is also what first makes a device Valid.
     */
    method Trim() returns (r: int)
      modifies this
      ensures Valid()
      ensures r == 0
      ensures data == [] && size == 0 && quantum == ScullQuantum && qset == ScullQset
      ensures Owner == map[]
      ensures Blocks() == map[]
    {
      size := 0;
      quantum := ScullQuantum;
      qset := ScullQset;
      data := [];
      Owner := map[];
      r := 0;
    }

    /** scull_open: truncate exactly when the file is opened write-only. */
    method Open(flags: bv32) returns (r: int)
      modifies this
      ensures r == 0
      ensures flags & AccMode == WriteOnly ==>
        Valid() && data == [] && size == 0 && quantum == ScullQuantum && qset == ScullQset && Owner == map[]
      ensures flags & AccMode != WriteOnly ==>
        data == old(data) && size == old(size) && quantum == old(quantum) && qset == old(qset)
        && Owner == old(Owner)
    {
      if flags & AccMode == WriteOnly {
        var _ := Trim();
      }
      r := 0;
    }

    /**
     * scull_follow: walk to node `n`, appending empty nodes on the way.
     * Returns the index of node `n`, or None when an allocation fails, in
     * which case the nodes already appended stay linked.
     */
    method Follow(n: nat) returns (dptr: Option<nat>)
      requires Valid()
      modifies this`data
      ensures Valid() && Blocks() == old(Blocks())
      ensures old(data) <= data && forall i :: |old(data)| <= i < |data| ==> data[i] == EmptyQSet
      ensures dptr.Some? ==> dptr.value == n && data == Extend(old(data), n)
      ensures dptr.None? ==> |old(data)| <= |data| <= n
    {
      if |data| == 0 {
        var ok := Kmalloc();
        if !ok {
          return None;
        }
        data := [EmptyQSet];
      }
      var qs := 0;
      var k := n;
      while k > 0
        invariant qs + k == n
        invariant |data| == Max(|old(data)|, qs + 1)
        invariant old(data) <= data && forall i :: |old(data)| <= i < |data| ==> data[i] == EmptyQSet
      {
        if qs + 1 == |data| {
          var ok := Kmalloc();
          if !ok {
            AppendEmpty(old(data), data, quantum, qset, Owner);
            return None;
          }
          data := data + [EmptyQSet];
        }
        qs, k := qs + 1, k - 1;
      }
      AppendEmpty(old(data), data, quantum, qset, Owner);
      ExtendUnique(old(data), data, n);
      dptr := Some(qs);
    }

    /**
     * scull_read: copy at most `count` bytes from offset `pos`.
     * `interrupted` stands for a signal while waiting for the lock and
     * `room` for how many bytes of the user buffer are writable; the copied
     * bytes are `bytes`, and `newPos` is `*f_pos` afterwards.
     */
    method Read(count: nat, pos: nat, room: nat, interrupted: bool)
      returns (st: Status, bytes: seq<bv8>, newPos: nat)
      requires Valid()
      modifies this`data
      ensures Valid() && Blocks() == old(Blocks())
      ensures old(data) <= data && forall i :: |old(data)| <= i < |data| ==> data[i] == EmptyQSet
      ensures |data| <= Max(|old(data)|, Locate(pos, quantum, qset).item + 1)
      ensures pos >= size ==> data == old(data)
      ensures interrupted ==> st == Interrupted && bytes == [] && newPos == pos && data == old(data)
      ensures !interrupted ==>
        var r := ReadAt(old(Blocks()), size, quantum, qset, pos, count);
        if room < |r| then st == Fault && bytes == [] && newPos == pos
        else st == Transferred(|r|) && bytes == r && newPos == pos + |r|
    {
      if interrupted {
        return Interrupted, [], pos;
      }
      var r := Fetch(count, pos);
      if room < |r| {
        return Fault, [], pos;
      }
      return Transferred(|r|), r, pos + |r|;
    }

    /**
     * scull_read once the lock is held, up to the copy: the bytes at `pos`
     * that one read returns, or nothing at or past the end or in a hole.
     */
    method Fetch(count: nat, pos: nat) returns (r: seq<bv8>)
      requires Valid()
      modifies this`data
      ensures Valid() && Blocks() == old(Blocks())
      ensures old(data) <= data && forall i :: |old(data)| <= i < |data| ==> data[i] == EmptyQSet
      ensures |data| <= Max(|old(data)|, Locate(pos, quantum, qset).item + 1)
      ensures pos >= size ==> data == old(data)
      ensures r == ReadAt(old(Blocks()), size, quantum, qset, pos, count)
    {
      if pos >= size {
        ReadPastEnd(Blocks(), size, quantum, qset, pos, count);
        return [];
      }
      r := FetchBelowEnd(count, pos);
    }

    /** Fetch for a read that starts below `size`: scull.c:128-142. */
    method FetchBelowEnd(count: nat, pos: nat) returns (r: seq<bv8>)
      requires Valid() && pos < size
      modifies this`data
      ensures Valid() && Blocks() == old(Blocks())
      ensures old(data) <= data && forall i :: |old(data)| <= i < |data| ==> data[i] == EmptyQSet
      ensures |data| <= Max(|old(data)|, Locate(pos, quantum, qset).item + 1)
      ensures r == ReadAt(old(Blocks()), size, quantum, qset, pos, count)
    {
      ghost var m0 := Blocks();
      var n := count;
      if pos + n > size {
        n := size - pos;
      }
      var a := Locate(pos, quantum, qset);
      var dptr := Follow(a.item);
      if dptr.None? {
        // the list ends before node `item`: a hole
        ContentsAt(data, Owner, a.item, a.slot);
        ReadAtHole(m0, size, quantum, qset, pos, count);
        return [];
      }
      if n > quantum - a.offset {
        n := quantum - a.offset;
      }
      r := Peek(a.item, a.slot, a.offset, n);
      if (a.item, a.slot) in m0 {
        ReadAtHit(m0, size, quantum, qset, pos, count, n);
      } else {
        ReadAtHole(m0, size, quantum, qset, pos, count);
      }
    }

    /**
     * The last step of scull_read before the copy: `n` bytes of block
     * (g, s) from byte `off` on, or nothing when node `g` has no slot array
     * or slot `s` is NULL.
     */
    method Peek(g: nat, s: nat, off: nat, n: nat) returns (r: seq<bv8>)
      requires Valid() && g < |data| && s < qset && off + n <= quantum
      ensures (g, s) in Blocks() ==> r == Blocks()[(g, s)][off .. off + n]
      ensures (g, s) !in Blocks() ==> r == []
    {
      ContentsAt(data, Owner, g, s);
      if data[g].data.None? || data[g].data.value[s].None? {
        return [];
      }
      var blk := data[g].data.value[s].value;
      r := blk[off .. off + n];
    }

    /**
     * copy_from_user into block (g, s) from byte `off` on: `n` bytes of
     * `src`, and no other array changes.
     */
    method CopyFromUser(g: nat, s: nat, off: nat, src: seq<bv8>, n: nat)
      requires Valid() && Present(g, s) && off + n <= quantum && n <= |src|
      modifies Slot(g, s)
      ensures Valid() && (g, s) in old(Blocks())
      ensures var b := old(Blocks())[(g, s)];
        Blocks() == old(Blocks())[(g, s) := b[..off] + src[..n] + b[off + n..]]
    {
      ghost var m0 := Blocks();
      ContentsAll(data, Owner);
      var blk := data[g].data.value[s].value;
      ghost var b0 := blk[..];
      assert m0[(g, s)] == b0;
      CopyBytes(blk, off, src, n);
      forall k: (nat, nat) | k in m0 && k != (g, s)
        ensures m0[k] == BlockOf(data, k.0, k.1)[..]
      {
        assert Owner[BlockOf(data, k.0, k.1)] == k;
      }
      ContentsCopied(data, quantum, qset, Owner, g, s, b0[..off] + src[..n] + b0[off + n..], m0);
    }

    /**
     * The first allocation of scull_write for node `g`: a slot array of
     * `qset` NULL pointers, when the node has none. `ok` is false when
     * kmalloc fails, and then nothing changes.
     */
    method AllocSlots(g: nat) returns (ok: bool)
      requires Valid() && g < |data|
      modifies this`data
      ensures Valid() && Blocks() == old(Blocks())
      ensures |data| == |old(data)|
      ensures forall g' :: 0 <= g' < |data| && g' != g ==> data[g'] == old(data[g'])
      ensures ok ==> data[g].data.Some?
      ensures !ok ==> data == old(data)
      ensures old(data[g]).data.Some? ==> ok && data == old(data)
    {
      if data[g].data.Some? {
        return true;
      }
      ok := Kmalloc();
      if !ok {
        return;
      }
      InstallSlots(data, g, quantum, qset, Owner);
      data := data[g := QSet(Some(seq(qset, _ => None)))];
      SameContents(old(data), data, Owner);
    }

    /**
     * The second allocation of scull_write: a block of `quantum` bytes for
     * slot `s` of node `g`, when that slot is NULL. `ok` is false when
     * kmalloc fails, and then nothing changes. `fill` is what a new block
     * holds.
     */
    method AllocBlock(g: nat, s: nat) returns (ok: bool, ghost fill: seq<bv8>)
      requires Valid() && g < |data| && data[g].data.Some? && s < qset
      modifies this`data, this`Owner
      ensures Valid() && |fill| == quantum
      ensures |data| == |old(data)|
      ensures forall g' :: 0 <= g' < |data| && g' != g ==> data[g'] == old(data[g'])
      ensures forall b :: b in Owner ==> b in old(Owner) || fresh(b)
      ensures ok ==> Present(g, s) && Blocks() == Reserve(old(Blocks()), (g, s), fill)
      ensures !ok ==> data == old(data) && Blocks() == old(Blocks())
      ensures old(data[g].data.value[s]).Some? ==> ok && data == old(data)
    {
      fill := seq(quantum, _ => 0);
      ghost var m0 := Blocks();
      ContentsAt(data, Owner, g, s);
      if data[g].data.value[s].Some? {
        assert (g, s) in m0;
        return true, fill;
      }
      ok := Kmalloc();
      if !ok {
        return;
      }
      assert (g, s) !in m0;
      fill := NewBlock(g, s);
    }

    /** Link a newly allocated block into the NULL slot `s` of node `g`. */
    method NewBlock(g: nat, s: nat) returns (ghost fill: seq<bv8>)
      requires Valid() && g < |data| && data[g].data.Some? && s < qset
      requires data[g].data.value[s].None?
      modifies this`data, this`Owner
      ensures Valid() && |fill| == quantum
      ensures |data| == |old(data)|
      ensures forall g' :: 0 <= g' < |data| && g' != g ==> data[g'] == old(data[g'])
      ensures forall b :: b in Owner ==> b in old(Owner) || fresh(b)
      ensures Present(g, s) && Blocks() == old(Blocks())[(g, s) := fill]
    {
      ghost var m0 := Blocks();
      ghost var d0, o0 := data, Owner;
      var blk := new bv8[quantum];
      assert Contents(d0, o0) == m0;
      var slots := data[g].data.value;
      InstallBlock(data, g, s, blk, quantum, qset, Owner);
      data := data[g := QSet(Some(slots[s := Some(blk)]))];
      Owner := Owner[blk := (g, s)];
      ContentsAdd(d0, data, g, s, blk, o0);
      fill := blk[..];
    }

    /** Both allocations of scull_write for block (g, s). */
    method Allocate(g: nat, s: nat) returns (ok: bool, ghost fill: seq<bv8>)
      requires Valid() && g < |data| && s < qset
      modifies this`data, this`Owner
      ensures Valid() && |fill| == quantum
      ensures |data| == |old(data)|
      ensures forall g' :: 0 <= g' < |data| && g' != g ==> data[g'] == old(data[g'])
      ensures forall b :: b in Owner ==> b in old(Owner) || fresh(b)
      ensures ok ==> Present(g, s) && Blocks() == Reserve(old(Blocks()), (g, s), fill)
      ensures !ok ==> Blocks() == old(Blocks())
      ensures (g, s) in old(Blocks()) ==> ok
    {
      fill := seq(quantum, _ => 0);
      ContentsAt(data, Owner, g, s);
      ok := AllocSlots(g);
      if !ok {
        return;
      }
      ok, fill := AllocBlock(g, s);
    }

    /**
     * scull_write: store at most `count` bytes at offset `pos`, allocating
     * the node's slot array and the block on first use. `src` is the part of
     * the user buffer that can be read (a copy faults when it is shorter
     * than the clipped count), and `newPos` is `*f_pos` afterwards. `fill`
     * is what kmalloc left in a newly allocated block (that memory is not
     * cleared).
     *
     * scull.c:197 copies into `dptr->data[s_pos + q_pos]`, that is into the
     * block stored `q_pos` slots further on, at its first byte. The model
     * copies to byte `q_pos` of block `s_pos`, as scull_read reads it; see
     * findings.dfy for the code as written.
     */
    method Write(src: seq<bv8>, count: nat, pos: nat, interrupted: bool)
      returns (st: Status, newPos: nat, ghost fill: seq<bv8>)
      requires Valid()
      modifies this, Owner.Keys
      ensures Valid() && quantum == old(quantum) && qset == old(qset)
      ensures forall b :: b in Owner ==> b in old(Owner) || fresh(b)
      ensures interrupted ==>
        st == Interrupted && newPos == pos && data == old(data) && size == old(size) && Blocks() == old(Blocks())
      ensures !interrupted ==> st.Transferred? || st == NoMemory || st == Fault
      ensures st == NoMemory ==>
        newPos == pos && size == old(size) && Blocks() == old(Blocks()) && Key(Locate(pos, quantum, qset)) !in old(Blocks())
      ensures st == Fault ==>
        && newPos == pos && size == old(size)
        && |src| < WriteCount(quantum, qset, pos, count)
        && |fill| == quantum && Blocks() == Reserve(old(Blocks()), Key(Locate(pos, quantum, qset)), fill)
      ensures st.Transferred? ==>
        var n := WriteCount(quantum, qset, pos, count);
        && n <= |src| && st.count == n && newPos == pos + n && size == Max(old(size), pos + n)
        && |fill| == quantum && Blocks() == WriteAt(old(Blocks()), quantum, qset, pos, src[..n], fill)
      ensures |old(data)| <= |data| <= Max(|old(data)|, Locate(pos, quantum, qset).item + 1)
      ensures forall g :: 0 <= g < |old(data)| && g != Locate(pos, quantum, qset).item ==> data[g] == old(data[g])
      ensures forall g :: |old(data)| <= g < |data| && g != Locate(pos, quantum, qset).item ==> data[g] == EmptyQSet
    {
      fill := seq(quantum, _ => 0);
      newPos := pos;
      if interrupted {
        return Interrupted, pos, fill;
      }
      st, fill := Place(src, count, pos);
      if st.Transferred? {
        ghost var m := Blocks();
        newPos := pos + st.count;
        if size < newPos {
          size := newPos;
        }
        assert Blocks() == m;
      }
    }

    /**
     * scull_write once the lock is held, up to the update of the size:
     * find or append node `item` of `pos`, allocate, clip the count to the
     * block and copy.
     */
    method Place(src: seq<bv8>, count: nat, pos: nat) returns (st: Status, ghost fill: seq<bv8>)
      requires Valid()
      modifies this`data, this`Owner, Owner.Keys
      ensures Valid() && |fill| == quantum
      ensures forall b :: b in Owner ==> b in old(Owner) || fresh(b)
      ensures st.Transferred? || st == NoMemory || st == Fault
      ensures st == NoMemory ==> Blocks() == old(Blocks()) && Key(Locate(pos, quantum, qset)) !in old(Blocks())
      ensures st == Fault ==>
        |src| < WriteCount(quantum, qset, pos, count)
        && Blocks() == Reserve(old(Blocks()), Key(Locate(pos, quantum, qset)), fill)
      ensures st.Transferred? ==>
        var n := WriteCount(quantum, qset, pos, count);
        && n <= |src| && st.count == n
        && Blocks() == WriteAt(old(Blocks()), quantum, qset, pos, src[..n], fill)
      ensures |old(data)| <= |data| <= Max(|old(data)|, Locate(pos, quantum, qset).item + 1)
      ensures forall g :: 0 <= g < |old(data)| && g != Locate(pos, quantum, qset).item ==> data[g] == old(data[g])
      ensures forall g :: |old(data)| <= g < |data| && g != Locate(pos, quantum, qset).item ==> data[g] == EmptyQSet
    {
      fill := seq(quantum, _ => 0);
      var a := Locate(pos, quantum, qset);
      var dptr := Follow(a.item);
      if dptr.None? {
        // the list still ends before node `item`, so its block did not exist
        ContentsAt(data, Owner, a.item, a.slot);
        return NoMemory, fill;
      }
      var n := count;
      if n > quantum - a.offset {
        n := quantum - a.offset;
      }
      st, fill := Put(pos, src, n);
    }

    /**
     * The part of scull_write after scull_follow: allocate the block of
     * `pos` if need be, then copy the first `n` bytes of `src` to it, or
     * fault when `src` is shorter than `n`.
     */
    method Put(pos: nat, src: seq<bv8>, n: nat) returns (st: Status, ghost fill: seq<bv8>)
      requires Valid() && Locate(pos, quantum, qset).item < |data|
      requires Locate(pos, quantum, qset).offset + n <= quantum
      modifies this`data, this`Owner, Owner.Keys
      ensures Valid() && |fill| == quantum
      ensures forall b :: b in Owner ==> b in old(Owner) || fresh(b)
      ensures |data| == |old(data)|
      ensures forall g' :: 0 <= g' < |data| && g' != Locate(pos, quantum, qset).item ==> data[g'] == old(data[g'])
      ensures st == NoMemory || st == Fault || st == Transferred(n)
      ensures st == NoMemory ==> Blocks() == old(Blocks()) && Key(Locate(pos, quantum, qset)) !in old(Blocks())
      ensures st == Fault ==> |src| < n && Blocks() == Reserve(old(Blocks()), Key(Locate(pos, quantum, qset)), fill)
      ensures st == Transferred(n) ==>
        n <= |src| && Blocks() == WriteAt(old(Blocks()), quantum, qset, pos, src[..n], fill)
    {
      var a := Locate(pos, quantum, qset);
      var ok;
      ghost var m0 := Blocks();
      ok, fill := Allocate(a.item, a.slot);
      if !ok {
        return NoMemory, fill;
      }
      if |src| < n {
        return Fault, fill;
      }
      CopyFromUser(a.item, a.slot, a.offset, src, n);
      WriteAtParts(m0, quantum, qset, pos, src[..n], fill, (a.item, a.slot), a.offset, Blocks());
      st := Transferred(n);
    }
  }
}
