/**
 * Offset-to-block addressing of the scull store.
 *
 * A byte offset into the device splits into the index of a quantum set
 * (a group of `qset` blocks), the slot of the block inside that group, and
 * the offset of the byte inside the block (`quantum` bytes per block).
 * The C code computes `itemsize = quantum * qset` and then divides and takes
 * remainders; offsets are never negative here, so Dafny's Euclidean `/` and
 * `%` agree with C's truncating operators.
 */
module Addressing {

  /** Where a byte offset lives: quantum set `item`, block `slot`, byte `offset`. */
  datatype Address = Address(item: nat, slot: nat, offset: nat)

  /** The address of byte `pos`, as scull_read and scull_write compute it. */
  function Locate(pos: nat, quantum: nat, qset: nat): (a: Address)
    requires quantum > 0 && qset > 0
    ensures a.slot < qset && a.offset < quantum
    ensures pos == a.item * (quantum * qset) + a.slot * quantum + a.offset
  {
    var itemsize := quantum * qset;
    var rest := pos % itemsize;
    Address(pos / itemsize, rest / quantum, rest % quantum)
  }

  /** The first byte offset of `a`'s position, that is the inverse of Locate. */
  function OffsetOf(a: Address, quantum: nat, qset: nat): (pos: nat)
  {
    a.item * (quantum * qset) + a.slot * quantum + a.offset
  }

  lemma MulMono(a: nat, b: nat, c: nat)
    requires a <= b
    ensures a * c <= b * c
  {
  }

  /** Quotient and remainder are unique: Euclidean division by `d`. */
  lemma {:induction false} DivModUnique(x: nat, d: nat, q: nat, r: nat)
    requires d > 0 && r < d && x == q * d + r
    ensures x / d == q && x % d == r
  {
    var q', r' := x / d, x % d;
    assert x == q' * d + r';
    if q' > q {
      MulMono(q + 1, q', d);
      assert false;
    } else if q' < q {
      MulMono(q' + 1, q, d);
      assert false;
    }
  }

  /**
   * Locate is the inverse of OffsetOf: every in-range address is the
   * address of exactly one offset, so the decomposition in Locate's
   * postcondition determines its result.
   */
  lemma {:induction false} LocateOffsetOf(a: Address, quantum: nat, qset: nat)
    requires quantum > 0 && qset > 0
    requires a.slot < qset && a.offset < quantum
    ensures Locate(OffsetOf(a, quantum, qset), quantum, qset) == a
  {
    var itemsize := quantum * qset;
    var rest := a.slot * quantum + a.offset;
    MulMono(a.slot + 1, qset, quantum);
    assert rest < itemsize;
    DivModUnique(OffsetOf(a, quantum, qset), itemsize, a.item, rest);
    DivModUnique(rest, quantum, a.slot, a.offset);
  }

  /** Round trip the other way: the address found for `pos` leads back to `pos`. */
  lemma OffsetOfLocate(pos: nat, quantum: nat, qset: nat)
    requires quantum > 0 && qset > 0
    ensures OffsetOf(Locate(pos, quantum, qset), quantum, qset) == pos
  {
  }

  /**
   * Two offsets in the same block, `d` bytes apart: bytes of one block are
   * contiguous in the offset space.
   */
  lemma {:induction false} LocateShift(pos: nat, d: nat, quantum: nat, qset: nat)
    requires quantum > 0 && qset > 0
    requires Locate(pos, quantum, qset).offset + d < quantum
    ensures var a := Locate(pos, quantum, qset);
      Locate(pos + d, quantum, qset) == Address(a.item, a.slot, a.offset + d)
  {
    var a := Locate(pos, quantum, qset);
    LocateOffsetOf(Address(a.item, a.slot, a.offset + d), quantum, qset);
  }

  /**
   * Offsets with the same quantum set and slot lie in one block, and their
   * distance is the distance of their in-block offsets.
   */
  lemma {:induction false} SameBlock(p: nat, pos: nat, quantum: nat, qset: nat)
    requires quantum > 0 && qset > 0
    requires Locate(p, quantum, qset).item == Locate(pos, quantum, qset).item
    requires Locate(p, quantum, qset).slot == Locate(pos, quantum, qset).slot
    ensures p - pos == Locate(p, quantum, qset).offset - Locate(pos, quantum, qset).offset
  {
  }
}
