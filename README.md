# scull storage in Dafny

scull is a character device that keeps its data in kernel memory (scull.c).
A device (`struct scull_dev`) has a `size` and a singly linked list `data`
of quantum sets (`struct scull_qset`). Each node owns a slot array of `qset`
pointers, allocated lazily. Each non-NULL pointer is a block of `quantum`
bytes. A byte offset is split into a node index, a slot and an offset in
the block. Reads never fill a hole. Writes allocate the slot array and the
block on first use and never cross a block boundary.

The project has four modules:

- `Addressing` (addressing.dfy): the offset-to-block arithmetic and its inverse.
- `Quanta` (quanta.dfy): the device as values. A `BlockMap` maps (node, slot)
  to the bytes of a block. `ReadAt` and `WriteAt` specify what one read and
  one write do. The lemmas state clipping, holes, round trip and framing.
- `Scull` (store.dfy): `struct scull_dev` as the class `Store`.
  - The list is a `seq<QSet>`, and a block is an `array<bv8>` that a write
    updates in place.
  - A ghost map `Owner` records the single place of every array, so two
    places never share one.
  - `Blocks()` is the store's abstraction to a `BlockMap`. Every method is
    proved against the `Quanta` functions through it.
  - kmalloc failure is a nondeterministic choice (`Kmalloc`). An interrupted
    `mutex_lock_interruptible` is a `bool` parameter. A faulting user copy is
    modelled by the length of the readable user buffer (`src` for writes,
    `room` for reads).
  - The contents of newly kmalloc'ed memory are not known; write returns
    them as a ghost value `fill`.
- `Findings` (findings.dfy): the copy destination of scull.c:197 as written,
  with inputs on which it goes wrong.

## Model

| member | source | states |
|---|---|---|
| Addressing.Locate | scull.c:131-134 | The node, slot and in-block offset of a position recompose it exactly: `pos == item*(quantum*qset) + slot*quantum + offset`, with `slot < qset` and `offset < quantum` (the same split as scull.c:170-173). |
| Addressing.LocateOffsetOf | scull.c:170-173 | Every in-range (node, slot, offset) triple is the split of exactly one position, so the split is a bijection. |
| Addressing.LocateShift | scull.c:140-143 | Consecutive bytes inside one block have consecutive positions, which makes a clipped read or write a contiguous byte range. |
| Quanta.ReadAt | scull.c:126-143 | The bytes one read copies out. There are never more than `count`, and a non-empty result ends at or below `size` and inside the block holding `pos`. |
| Quanta.WriteCount | scull.c:194-195 | The count a write stores is at most the requested count and ends inside the target block. |
| Quanta.Reserve | scull.c:187-192 | After lazy allocation the target block exists. |
| Quanta.ReserveSpec | scull.c:187-192 | Lazy allocation adds exactly the target key. A block that existed keeps its bytes, and a new one holds what kmalloc left (`fill`). |
| Quanta.WriteAt | scull.c:179-197 | The contents after a successful write (read-consistent addressing). Every block still holds `quantum` bytes. |
| Quanta.ReadAtSpec | scull.c:126-149 | A read returns at most `count` bytes. It is empty exactly at or past `size`, for a zero count, or in a hole. Otherwise it stays below `size` and inside the block, stops only at one of those three limits, and byte `i` is the stored byte at `pos + i`. |
| Quanta.ReadPastEnd | scull.c:126-127 | A read at or past `size` returns nothing. |
| Quanta.ReadAtHole | scull.c:137-138 | A read that starts in a missing node, slot array or block returns nothing. |
| Quanta.ReadAtHit | scull.c:128-143 | A read from a present block returns bytes `q_pos .. q_pos+n` of block `s_pos`, where `n` is the count clipped first to `size` and then to the block end. |
| Quanta.WriteCountSpec | scull.c:194-195 | The stored count is at most the requested count and ends inside the block. It is nonzero whenever the request is, and short only when it ends exactly at the next block boundary. |
| Quanta.WriteAtShape | scull.c:179-192 | After a write every block still has `quantum` bytes, and the set of blocks grows by at most the target block. |
| Quanta.WriteAtBytes | scull.c:187-197 | After a write, the written range holds the new bytes and every existing byte outside it is unchanged. The rest of a newly allocated block holds what kmalloc left. Every other hole stays a hole. |
| Quanta.WriteThenRead | scull.c:143 | Reading back one successful write at the same position and length returns the written bytes (read-consistent addressing). |
| Quanta.WriteKeepsOtherReads | scull.c:157-206 | A read from any other block, ending below the old size, returns the same bytes before and after a write. |
| Scull.ReturnValue | scull.c:124-125 | The returned `ssize_t` is non-negative exactly for a transfer and then equals the count. An interrupted lock gives `-ERESTARTSYS` (scull.c:125), an allocation failure `-ENOMEM` (scull.c:165) and a copy fault `-EFAULT` (scull.c:145, 199). |
| Scull.Extend | scull.c:85-109 | The list after following to node `n` has `max(len, n+1)` nodes. The old nodes come first and unchanged, and every appended node is empty. |
| Scull.ExtendUnique | scull.c:98-107 | Any list with Extend's shape is Extend's result, which pins down the list the walk produces. |
| Scull.Store.constructor | scull.c:272-280 | A new device has no list, zero size and zero quantum and qset. scull_init zeroes the device, and its quantum assignments are commented out. |
| Scull.Store.Trim | scull.c:45-70 | The list is empty, `size` is 0, `quantum` and `qset` are the defaults 4000 and 1000, the device holds no block and the store owns no array, the store is valid, and the result is 0. |
| Scull.Store.Open | scull.c:77-81 | A write-only open truncates the device exactly as Trim does, leaving it owning no array. Any other access mode leaves the list, size, quantum, qset and owned arrays unchanged. The result is always 0. |
| Scull.Store.Follow | scull.c:85-109 | On success it returns node `n` and the list is `Extend(old list, n)`. On kmalloc failure the appended empty nodes stay linked and the list is still shorter than `n + 1`. In both cases no block is added or changed. |
| Scull.Store.Read | scull.c:112-154 | An interrupted read changes nothing. Otherwise the bytes are `ReadAt` of the old contents. A copy fault returns `Fault` and leaves the position. A successful read advances the position by exactly the returned count. Contents and size never change. A read at or past `size` leaves the list unchanged; otherwise only empty nodes are appended, and only up to node `item`. |
| Scull.Store.Fetch | scull.c:126-142 | The bytes a read copies are `ReadAt` of the contents, which are not changed. At or past `size` the list is unchanged; otherwise only empty nodes up to node `item` are appended. |
| Scull.Store.FetchBelowEnd | scull.c:128-142 | For a read starting below `size`, the bytes are `ReadAt` of the unchanged contents, and the list grows only by empty nodes up to node `item`. |
| Scull.Store.Peek | scull.c:137-143 | `n` bytes of block (g, s) from the offset when that block exists. Nothing when the node has no slot array or the slot is NULL. |
| Scull.Store.Write | scull.c:157-211 | An interrupted write changes nothing. Allocation failure happens only when the target block did not exist, and it leaves position, size and contents unchanged. A fault leaves position and size unchanged and happens exactly when the user buffer is shorter than the clipped count. Success stores `WriteAt` of the clipped bytes, returns the clipped count, advances the position by it and sets `size` to `max(old size, new position)`. No other node changes, and nodes are appended only up to node `item`. Every array the store owns afterwards was owned before or is newly allocated. |
| Scull.Store.Place | scull.c:170-201 | Follow to node `item`, clip the count to the block, and allocate and copy: `NoMemory`, `Fault` or `Transferred(WriteCount(..))`, with the contents as for Write. `NoMemory` only when the target block did not exist, and the list grows at most to node `item`. |
| Scull.Store.Put | scull.c:179-201 | Allocation failure happens only when the target block did not exist, and it changes no contents. A fault keeps only the reservation of the target block. Success stores `WriteAt`. Only node `item` changes. |
| Scull.Store.Allocate | scull.c:179-192 | On success block (item, s_pos) exists and the contents are `Reserve(old, key, fill)`. An allocation that already exists always succeeds. On failure the contents are unchanged. No node other than `item` changes. |
| Scull.Store.AllocSlots | scull.c:179-185 | A slot array is allocated only when the node has none. An existing one is kept, and on failure nothing changes. No block is added. |
| Scull.Store.AllocBlock | scull.c:187-192 | A block is allocated only when the slot is NULL. A non-NULL slot gives success with the list unchanged. The contents become `Reserve(old, (g, s), fill)`, and on failure nothing changes. |
| Scull.Store.NewBlock | scull.c:189 | Linking a new `quantum`-byte array into a NULL slot adds exactly that block to the contents. |
| Scull.Store.CopyFromUser | scull.c:197 | Copying `n` bytes into block (g, s) from the offset changes that block's bytes in that range, and no other byte of the device. |
| Scull.CopyBytes | scull.c:197 | The array afterwards is the old array with bytes `off .. off+n` replaced by the first `n` source bytes. |
| Findings.WriteAsWritten | scull.c:197 | The line-197 copy keeps every block at `quantum` bytes when it stores anything. |
| Findings.AlignedAgrees | scull.c:197 | At a block-aligned position the copy as written and `WriteAt` agree. |
| Findings.SecondByteHitsNull | scull.c:197 | With the default geometry, a one-byte write at 0 followed by one at 1 copies through a NULL slot pointer. |
| Findings.WrongBlockReadBack | scull.c:197 | When slot `s_pos + q_pos` holds a block, a byte written at offset 1 lands at offset 4000 and does not read back at 1. |
| Findings.IndexPastSlots | scull.c:197 | A write at offset 3999 of the default geometry indexes slot 3999 of a 1000-entry slot array. |

## Left out

- Device registration and module glue are outside the model: scull_init's registration, scull_exit, scull_cleanup_module, scull_setup_cdev, module parameters and `scull_fops`. So are `printk`, and `container_of` with `filp->private_data` (the methods act on the store directly).
- The mutex is not modelled as a lock, because each operation is taken as atomic. Only its interruption (`-ERESTARTSYS`, no change) is modelled, as a parameter.
- Partial user copies are not modelled. `copy_to_user` and `copy_from_user` either copy everything or fault.
- Scull.Store.Trim: does not model the `kfree` calls. Memory is garbage-collected, so trim resets the list and fields.
- Integer widths are not modelled: C `int`, `size_t` and `loff_t`, the overflow of `itemsize = quantum * qset` and of `*f_pos + count`, and the `(long)` casts. Positions are `nat`, so negative `*f_pos` is not modelled either.
- Slot arrays are immutable sequences replaced in the list, not arrays updated in place. Nothing outside the store holds a reference to them, so aliasing of slot arrays is not modelled.
- scull.h is not part of this model. The values of SCULL_QUANTUM and SCULL_QSET (scull.c:18-19) are taken as 4000 and 1000, the values scull conventionally uses.
- The `access_key` and `cdev` fields are not modelled, since the storage logic does not use them.
- Scull.Store.Read and Scull.Store.Write: require a valid store (quantum and qset positive). scull_init leaves both at zero until the first write-only open trims the device. Until then the source's write divides by zero and its read returns 0 (size is 0). The model does not cover that state beyond the constructor.
- Scull.Store.Read: the copy to user space is described by `room`, the writable length of the user buffer, and copies fully or faults.

## Findings

| source | as written | input that shows it | evidently intended | confidence | as-written member | corrected member |
|---|---|---|---|---|---|---|
| scull.c:197 | `copy_from_user(dptr->data[s_pos + q_pos], buf, count)`: the destination is the slot `q_pos` entries after the block, at its first byte | default geometry, empty device: write one byte at 0, then one byte at 1. The second copy goes through the NULL pointer in slot 1. A write at 3999 indexes slot 3999 of 1000 | `dptr->data[s_pos] + q_pos`, byte `q_pos` of block `s_pos`, as scull_read reads at scull.c:143 | not executed | Findings.WriteAsWritten, Findings.SecondByteHitsNull, Findings.WrongBlockReadBack, Findings.IndexPastSlots | Quanta.WriteAt, Quanta.WriteThenRead |
