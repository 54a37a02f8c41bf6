# A verified model of the switch_network core

switch_network keeps devices in an intrusive hash table, digests with MD5, guards frames
with a CRC, serves its peers through an epoll connection pool, and keeps work in a
linked list and a circular queue. This project models those parts in Dafny and proves what
they are for. All state that the C code changes in place is changed in place here: handles
in two linked structures at once, the bucket array, the MD5 context, the pool's slots.

| files | what they model |
|---|---|
| `Handles`, `HashChains`, `Buckets`, `HashTable`, `FsckWalks` | uthash: chains and app order, placement, doubling, the expansion throttle, add, find, delete, select, and what HASH_FSCK decides |
| `MergeSort`, `AppSort` | HASH_SRT: the pure bottom-up merge sort, and the relinking code proved equal to it |
| `DeviceRegistry` | the integer-keyed registry on top, up to `selectcond_int` and the map a table refines |
| `Words`, `Md5Spec`, `Md5`, `Md5Answers` | RFC 1321 as a specification, the streaming context against it, and two of its known answers step by step |
| `Bits`, `Xor`, `Crc16` | shift, mask and xor on numbers, the 0x8408 register, `count_crc16`, and what it detects |
| `Timespecs`, `Kernel`, `ConnSlots`, `ConnEvents`, `ConnSignals`, `ConnOutcomes`, `ConnShrink`, `ConnPool` | the TCP connection pool; the kernel answers arbitrarily within what it promises |
| `LinkedList`, `CircularQueue` | the list with its iterator and the circular buffer, refining sequences |
| `Sequences`, `Wrappers` | shared facts about sequences, and Option |

`dafny verify dfyconfig.toml` checks everything.

Two ghost records make the pool's contracts exact: `trace` holds every call of the user's
callback, and the kernel's `log` holds every answer of the system and of the user. `Sound()`
is the pool's invariant between calls: creation establishes it, and growth, listening,
accepting, receiving, closing and polling keep it, so it holds in every state that is
reached without shrinking the pool, and shrinking keeps it in exactly one case.
(Closing also works from its part `Valid()`, because the pool closes connections halfway
through a step.) `Valid()` is the invariant of the hash table and of the containers. The
contract of `Poll` is the predicate `ConnEvents.PollRan` on a record of the round. What
follows for a connection, over one poll or two, is proved from it in `ConnEvents`; what the
callback is told of a slot in `ConnSignals`; what poll returns and what becomes of a
connection, in terms of the answers of the system alone, in `ConnOutcomes`.

## Where the code and its documentation differ

The model follows the code; each point is a theorem.

- `idcmp_int` subtracts. `selectcond_int` is in ascending order for every table if and only
  if EndId - StartId <= INT_MAX: for narrower ranges by `DeviceRegistry.SelectCond`, and for
  each wider one `SelectCondSortsIff` builds a table of two records that comes out in the
  wrong order, whatever the hash function; at a difference of exactly 2^31 that is so for the
  hash functions that do not put the lower id in an earlier bucket.
- `find_all_int` has a stray semicolon after its loop header and always returns NULL
  (`DeviceRegistry.FindAll`).
- MD5Update's guard `i+64 <= inputlen` wraps for lengths near 2^32; the exact condition is
  `NoWrap` (`Md5.UpdateInBoundsIff`), and `Update` requires it and a 32-bit length, no more.
- `AP_UTILS_TIME_SET_FROMZERO` is right if and only if the argument is a multiple of 1000
  milliseconds (`Timespecs.FromZeroExactIff`); the pool's default timeout goes through it.
- A failed `accept()` leaves a connected slot without a descriptor. No poll ever frees it if
  and only if the pool was created with timeout 0 (`ConnEvents.FailedAcceptLosesIff`,
  `LostStaysLost`, `Timespecs.FromZeroSetIff`); otherwise the first completed poll after the
  expiry does (`ConnEvents.ExpiredIsClosed`).
- While the pool is full and a connection waits at the listener, `ap_net_conn_pool_poll`
  returns 0 before it looks at events or expiries, so nothing is read and nothing expires
  (`ConnEvents.FullPoolStarves`); with a free slot it goes on (`ConnEvents.GoesOnIff`).
- Shrinking a pool is documented to move connections to the front and to fail only below the
  number of live ones. Whenever the new size is positive and the old slots have the room that
  `ConnShrinks.StaysInsideIff` names, the loop stays inside the array; otherwise its search
  runs past the last slot. Even then connections can be lost: `ConnShrinks.KeepsIff` is the
  exact condition, and `ConnShrinks.ShrinkFails` has a pool of two slots and one of four.
- AP_NET_SIGNAL_CONN_DATA_LEFT is documented but never sent: received bytes go to another
  buffer than the one whose fill it tests (`ConnPools.Pool.SignalOrder`).
- `pool->state` is not initialised. When its lock bit happens to be set, the new pool has no
  slots and the caller is not told (`ConnPools.Pool.Create`).
- `ap_net_conn_pool_recv` tests `conn_idx > max_connections`, which lets exactly the index
  max_connections through although no slot has it (`ConnPools.Pool.BoundTestMissesIff`).

## Model

| member | source | states |
|---|---|---|
| `Bits.MaskIsMod` | src/list/uthash/uthash.h:207-210 | `hashv & (num_bkts - 1)` is the hash value modulo the bucket count, for every power of two |
| `Bits.CeilByShiftAndMask` | src/list/uthash/uthash.h:688-690 | the shift-and-mask formula for ideal_chain_maxlen is ceil(n / 2^k) for all n and k |
| `Handles.AppUnlink` | src/list/uthash/uthash.h:241-251 | patching the neighbours of item k leaves a doubly linked list of the other items in their order |
| `Handles.ChainPush` | src/list/uthash/uthash.h:625-628 | relinking leaves a doubly linked chain with the handle in front |
| `Handles.ChainUnlink` | src/list/uthash/uthash.h:638-645 | unlinking leaves a doubly linked chain of the other handles |
| `HashChains.SlotHalves` | src/list/uthash/uthash.h:697-698 | with twice the buckets an item of bucket i belongs in bucket i or i + num_buckets and nowhere else |
| `HashChains.RedistributeContents` | src/list/uthash/uthash.h:694-710 | a new bucket gets exactly the items of the old chain whose hash value selects it |
| `HashChains.RedistributeReverses` | src/list/uthash/uthash.h:694-710 | of two items that go to the same new bucket, the one behind in the old chain is in front in the new one |
| `HashChains.SplitConserves` | src/list/uthash/uthash.h:692-711 | the two new chains of an old bucket hold its items, none lost or duplicated |
| `HashChains.ExcessSplits` | src/list/uthash/uthash.h:699-703 | over all chains, the excess over the ideal length and min(length, ideal) add up to the number of items |
| `HashChains.ChainsHoldAll` | src/list/uthash/uthash.h:314-317 | chains whose items are where their hash values say hold each item of the app order once |
| `HashChains.FlattenUnchained` | src/list/uthash/uthash.h:636-646 | when one chain loses an item, bucket order loses that item and is otherwise the same |
| `Buckets.PushFront` | src/list/uthash/uthash.h:622-628 | one bucket gets a new head and its count and every other bucket keeps head, count and chain |
| `Buckets.DelInBkt` | src/list/uthash/uthash.h:636-646 | one bucket loses one item from anywhere in its chain, with head and count to match, and the others are unchanged |
| `Buckets.NoteLonger` | src/list/uthash/uthash.h:699-703 | after the count grows, nonidealItems counts the excess over the ideal length and expandMult is what the final count calls for |
| `HashTables.MultiplierFits` | src/list/uthash/uthash.h:699-703 | for a count above the ideal length expand_mult * ideal <= count < (expand_mult + 1) * ideal, and expand_mult is 0 for any other count |
| `Buckets.MoveItem` | src/list/uthash/uthash.h:696-709 | one item moves to the front of its new bucket; the new array stays well linked, counted and measured |
| `Buckets.RehashChain` | src/list/uthash/uthash.h:694-710 | walking one old chain, whose links are overwritten on the way, distributes all of it |
| `Buckets.RehashBucket` | src/list/uthash/uthash.h:692-711 | after old bucket i its items are in new buckets i and i + num_buckets and no others changed |
| `Buckets.Rehash` | src/list/uthash/uthash.h:683-711 | the new array of twice the size holds the doubled chains and the measured excess, for any hash function |
| `Buckets.DoubledHolds` | src/list/uthash/uthash.h:692-711 | after doubling every item is still found in the bucket its hash value selects |
| `HashTables.BoundAfterExpansion` | src/list/uthash/uthash.h:699-703 | a fresh count is at most (expand_mult + 1) * max(10, ideal) |
| `HashTables.PacedAfterExpansion` | src/list/uthash/uthash.h:716-721 | counting ineffective expansions keeps noexpand equivalent to two in a row at the end of the history |
| `HashTables.HashTable.constructor` | src/list/uthash/my_uthash.c:232 | a NULL head is an empty valid table |
| `HashTables.HashTable.Expand` | src/list/uthash/uthash.h:677-723 | the table is preserved: chains split by the stored hash value, ideal length is ceil(items / new buckets); each chain longer than the ideal has expand_mult * ideal <= length < (expand_mult + 1) * ideal and every other 0; nonideal_items and the sum of min(length, ideal) make num_items; the throttle invariant holds again |
| `HashTables.HashTable.SetIdeal` | src/list/uthash/uthash.h:688-690 | ideal_chain_maxlen is the ceiling and at least 1, so it can be divided by |
| `HashTables.HashTable.AddToBkt` | src/list/uthash/uthash.h:622-633 | the item is put in front of its chain; the table doubles, and is measured anew, if and only if noexpand is clear and the new chain has at least (expand_mult + 1) * 10 items; otherwise multipliers, ideal length and nonideal_items stay |
| `HashTables.HashTable.BktOf` | src/list/uthash/uthash.h:207-210 | the masked hash value is the hash value modulo the bucket count |
| `HashTables.HashTable.MakeTable` | src/list/uthash/uthash.h:150-167 | 32 empty buckets, and every table invariant holds of nothing |
| `HashTables.HashTable.AppendFirst` | src/list/uthash/uthash.h:188-191 | adding to a NULL head makes a one-item app order with its tail |
| `HashTables.HashTable.AppendLast` | src/list/uthash/uthash.h:192-195 | the item is appended to the app order and becomes the tail |
| `HashTables.HashTable.Add` | src/list/uthash/uthash.h:182-205 | HASH_ADD keeps the whole invariant and appends the item; its chain gets it in front; the table doubles, with one entry in the expansion history, if and only if noexpand is clear and that chain has at least (expand_mult + 1) * 10 items, and then every multiplier and nonideal_items fit the new chains |
| `HashTables.HashTable.KeyInBucket` | src/list/uthash/uthash.h:108-111 | items with a key can only be in the bucket that its hash value modulo the bucket count selects |
| `HashTables.HashTable.FindInBkt` | src/list/uthash/uthash.h:608-619 | the chain walk returns the first item of the chain with the key, or nothing exactly if there is none |
| `HashTables.HashTable.Find` | src/list/uthash/uthash.h:103-114 | HASH_FIND agrees with scanning the app order: nothing if and only if no item has the key, for any hash function; of several, the first of its chain, which is the one added last until the table doubles |
| `HashTables.HashTable.Delete` | src/list/uthash/uthash.h:224-257 | HASH_DELETE removes exactly the one item from app order, from its chain and from bucket order, and the items that stay keep their order in each; the invariant, bucket count, multipliers, nonideal_items and throttle are kept |
| `HashTables.HashTable.UnlinkItem` | src/list/uthash/uthash.h:235-251 | head, tail and neighbours are patched so that the app order is the old one without the item |
| `HashTables.HashTable.RemoveFromBkt` | src/list/uthash/uthash.h:252-253 | one chain loses the handle and keeps the order of the others, and every other chain is as before; the buckets are well linked, counted and placed |
| `HashTables.ChosenFrom` | src/list/uthash/uthash.h:828-855 | a handle is selected if and only if it belongs to a source item that satisfies the condition |
| `HashTables.SelectionStep` | src/list/uthash/uthash.h:833-853 | each source item extends the selection by its own second handle, which is new to it, or not at all |
| `HashTables.HashTable.SelectAppend` | src/list/uthash/uthash.h:836-847 | the second handle is linked behind the last one; the first makes the table, and the tail stays at the first |
| `HashTables.HashTable.SelectItem` | src/list/uthash/uthash.h:834-852 | one selected item keeps every invariant but the tail, even when the destination expands, which it does if and only if noexpand is clear and the new chain has at least (expand_mult + 1) * 10 items |
| `HashTables.HashTable.SelectChain` | src/list/uthash/uthash.h:830-854 | one source chain is selected from, in chain order, without being changed |
| `HashTables.HashTable.Select` | src/list/uthash/uthash.h:822-858 | the destination is exactly the second handles of the chosen items in bucket order and valid but for its tail; the source stays valid and its handles are untouched |
| `HashTables.HashTable.BucketOrder` | src/list/uthash/uthash.h:287-337 | both views hold the same num_items items: bucket order is a permutation of app order |
| `HashTables.HashTable.FsckBucket` | src/list/uthash/uthash.h:296-312 | one bucket passes if and only if its links make up a doubly linked chain from its head of as many handles as it counts |
| `HashTables.HashTable.Fsck` | src/list/uthash/uthash.h:287-337 | whatever the links, counts and num_items are, HASH_FSCK ends, and it passes if and only if they describe doubly linked chains with the counts of their buckets and a doubly linked app order, each of num_items handles in all |
| `HashTables.HashTable.ValidIntact` | src/list/uthash/uthash.h:287-337 | every valid table passes HASH_FSCK, with its own chains and app order |
| `FsckWalks.FsckChain` | src/list/uthash/uthash.h:299-307 | the walk along any chain of links ends and passes if and only if the links make up a doubly linked list from the head |
| `FsckWalks.FsckOrder` | src/list/uthash/uthash.h:319-332 | the walk along the app order ends and passes if and only if next and prev make up a doubly linked list from the head |
| `HashTables.HashTable.ChainBound` | src/list/uthash/uthash.h:622-633 | in every valid table that may still expand no chain is longer than (expand_mult + 1) * max(10, ideal_chain_maxlen) |
| `HashTables.HashTable.GivesUpIff` | src/list/uthash/uthash.h:716-721 | noexpand is set if and only if the last two expansions, which every add records, were ineffective; that can happen only once and at the end; ineff_expands is their trailing number and the bucket count 32 * 2^expansions |
| `HashTables.HashTable.Sort` | src/list/uthash/uthash.h:730-815 | HASH_SRT repairs the tail, makes the app order the merge-sorted one and changes no bucket chain |
| `HashTables.HashTable.SortBeside` | src/list/uthash/uthash.h:730-815 | sorting one table leaves a table of other handles valid |
| `MergeSort.MergePermutes` | src/list/uthash/uthash.h:756-800 | merging two runs loses and duplicates nothing |
| `MergeSort.MergeSorted` | src/list/uthash/uthash.h:756-800 | merging two sorted runs by a total preorder gives a sorted run |
| `MergeSort.MergeStable` | src/list/uthash/uthash.h:771-781 | items that compare equal keep their order, the first run before the second |
| `MergeSort.PassSortsRuns` | src/list/uthash/uthash.h:740-805 | a pass over sorted runs of length k leaves sorted runs of length 2k, the last one possibly shorter |
| `MergeSort.PassPermutes` | src/list/uthash/uthash.h:740-805 | a pass permutes the list |
| `MergeSort.PassesSort` | src/list/uthash/uthash.h:739-812 | the passes end with a sorted list |
| `MergeSort.PassesIsStableSort` | src/list/uthash/uthash.h:730-815 | for every list and every total preorder the result is a sorted stable permutation |
| `AppSort.Emit` | src/list/uthash/uthash.h:789-799 | the next item is linked behind the output with next and prev to match |
| `AppSort.MergeStep` | src/list/uthash/uthash.h:757-799 | one turn of the merge loop moves the item that merging takes next from its run to the output |
| `AppSort.MergeRuns` | src/list/uthash/uthash.h:756-800 | the loop with its counters p, q, psize and qsize outputs the merge of the two runs and stops at the rest of the list |
| `AppSort.SplitRun` | src/list/uthash/uthash.h:745-755 | q ends at the start of the second run and psize at the length of the first |
| `AppSort.SortPass` | src/list/uthash/uthash.h:740-805 | a pass in place gives the list of a pure pass, prev mirroring next, its tail last, and nmerges = ceil(n / 2k) |
| `AppSort.Sort` | src/list/uthash/uthash.h:736-812 | the in-place sort terminates with head and tail of the purely sorted list, doubly linked |
| `AppSort.OneMerge` | src/list/uthash/uthash.h:806 | a pass makes at most one merge exactly when its runs cover the list |
| `DeviceRegistry.IdCmpSign` | src/list/uthash/my_uthash.c:215-220 | subtracting two ids in 32 bits orders them correctly if and only if the difference fits an int |
| `DeviceRegistry.RangeSortsIff` | src/list/uthash/my_uthash.c:231-238 | sorting the ids of a range with idcmp_int puts every such list in ascending order if and only if EndId - StartId <= INT_MAX |
| `DeviceRegistry.SelectCondSortsIff` | src/list/uthash/my_uthash.c:231-238 | for every range and every hash function a table, built and selected from by the operations themselves, that comes out ascending if and only if the range is at most INT_MAX wide, or one wider with its two ids in buckets of that order |
| `DeviceRegistry.TwoRecords` | src/list/uthash/my_uthash.c:74-84 | two added records are met in the order of their buckets, and in one bucket the later one first, for every hash function |
| `DeviceRegistry.WideRangeFails` | src/list/uthash/my_uthash.c:215-220 | for every wider range a two-item list that comes out in descending order |
| `DeviceRegistry.WidePair` | src/list/uthash/my_uthash.c:215-220 | two ids more than 2^31 apart come out with the higher one first whatever their order was; 2^31 apart they compare as equal and stay as they are |
| `DeviceRegistry.NarrowRangeSorts` | src/list/uthash/my_uthash.c:215-220 | whatever carries the ids: in a range of at most INT_MAX every list is sorted in ascending order and stably |
| `DeviceRegistry.NarrowSelectionSorts` | src/list/uthash/my_uthash.c:231-238 | within such a range the handles come out ascending and stable |
| `DeviceRegistry.ChosenInRange` | src/list/uthash/my_uthash.c:195-206 | what is selected is in the range and is the second handle of a source record |
| `DeviceRegistry.SelectedAll` | src/list/uthash/my_uthash.c:231-238 | a permutation of the selection holds every record in the range once and nothing else |
| `DeviceRegistry.SelectCond` | src/list/uthash/my_uthash.c:231-238 | end to end: the result is a valid table, tail included, of exactly the records with StartId <= id <= EndId, each once, in ascending order where the range is no wider than INT_MAX; the source stays valid and untouched |
| `DeviceRegistry.ViewLookup` | src/list/uthash/my_uthash.c:95-105 | with distinct keys, any answer that finding allows is the map lookup |
| `DeviceRegistry.ViewAppend` | src/list/uthash/my_uthash.c:74-84 | adding a new key extends the map |
| `DeviceRegistry.ViewWithout` | src/list/uthash/my_uthash.c:112-115 | removing an item removes its key from the map |
| `DeviceRegistry.AddUser` | src/list/uthash/my_uthash.c:74-84 | a fresh record is appended and the table doubles if and only if noexpand is clear and the new chain has at least (expand_mult + 1) * 10 records; with distinct keys the table refines the map with the id added |
| `DeviceRegistry.FindUser` | src/list/uthash/my_uthash.c:95-105 | NULL if and only if no record has the id; with distinct keys the map lookup |
| `DeviceRegistry.DeleteUser` | src/list/uthash/my_uthash.c:112-115 | exactly that record is gone, from app order and from bucket order, and the others keep their order; with distinct keys the map without its id |
| `DeviceRegistry.DeleteHead` | src/list/uthash/my_uthash.c:129-132 | one turn of the loop deletes the head and leaves the saved next item as head |
| `DeviceRegistry.DeleteAll` | src/list/uthash/my_uthash.c:126-133 | terminates, frees each item once in app order, and leaves an empty table |
| `DeviceRegistry.CountUsers` | src/list/uthash/my_uthash.c:139-141 | the number of items, also for a NULL head |
| `DeviceRegistry.FindAll` | src/list/uthash/my_uthash.c:150-155 | the loop runs to the end of the app order, so the result is always NULL |
| `Words.RotInverse` | src/md5/md5.h:16 | rotating right undoes rotating left and the other way round, for every word and count |
| `Words.RotParts` | src/md5/md5.h:16 | ROTATE_LEFT by or-ing two shifts moves the high n bits below the low 32 - n |
| `Words.MaskedByte` | src/md5/md5.c:58-61 | each shift-and-mask of MD5Encode is one byte of the little-endian encoding |
| `Words.OredWord` | src/md5/md5.c:71-74 | or-ing four shifted bytes is the little-endian value |
| `Words.DecodeEncode` | src/md5/md5.c:53-78 | decoding undoes encoding for all words |
| `Words.EncodeDecode` | src/md5/md5.c:53-78 | encoding undoes decoding for all byte strings of whole words |
| `Words.EncodedValue` | src/md5/md5.c:48 | the eight bytes of two words denote lo + 2^32 * hi, least significant byte first |
| `Words.EncodeInto` | src/md5/md5.c:53-65 | the loop stores the encoding of the words and changes nothing after it |
| `Words.DecodeInto` | src/md5/md5.c:66-78 | the loop stores the decoding of the bytes and changes nothing after it |
| `Bits.OperatorBits` | src/md5/md5.h:12-15 | bit k of an or, and, xor is the or, and, xor of the bits k, for all numbers |
| `Md5Spec.FBits` | src/md5/md5.h:12 | bit k of F(x, y, z) is that of y where x has the bit, and that of z where not |
| `Md5Spec.GBits` | src/md5/md5.h:13 | bit k of G(x, y, z) is that of x where z has the bit, and that of y where not |
| `Md5Spec.HBits` | src/md5/md5.h:14 | bit k of H(x, y, z) is the parity of the three bits |
| `Md5Spec.IBits` | src/md5/md5.h:15 | bit k of I(x, y, z) is that of y, flipped where x has the bit or z has not |
| `Md5Spec.WordOrder` | src/md5/md5.c:87-156 | the message words of the rounds start at 0, 1, 5 and 0 and go on by 1, 5, 3 and 7 modulo 16 |
| `Md5Answers.EmptyDigest` | src/md5/md5.c:9-161 | the digest of the empty message is d41d8cd98f00b204e9800998ecf8427e, through all 64 steps (appendix A.5 of RFC 1321) |
| `Md5Answers.AbcDigest` | src/md5/md5.c:9-161 | the digest of "abc" is 900150983cd24fb0d6963f7d28e17f72, through all 64 steps (appendix A.5 of RFC 1321) |
| `Md5Spec.UnmixMix` | src/md5/md5.h:17-40 | one step on its register can be undone, whatever the mixing function |
| `Md5Spec.StepInverse` | src/md5/md5.c:87-156 | each of the 64 steps has an inverse on the four-word state, on both sides |
| `Md5Spec.StepsInverse` | src/md5/md5.c:87-156 | for every block the 64 steps without the final additions are a bijection on the state |
| `Md5Spec.FoldConcat` | src/md5/md5.c:32-33 | folding the compression over concatenated blocks is folding twice |
| `Md5Spec.ChainedBlock` | src/md5/md5.c:30-33 | a complete block advances the chaining value by one compression |
| `Md5Spec.ChainedTail` | src/md5/md5.c:40 | fewer than 64 bytes after the last block do not change the chaining value |
| `Md5Spec.PadLen` | src/md5/md5.c:47 | padlen is 1 to 64 and brings the length to 56 modulo 64 |
| `Md5Spec.Padded` | src/md5/md5.c:46-50 | the padded message has a multiple of 64 bytes and begins with the message |
| `Md5Spec.PaddedShape` | src/md5/md5.c:46-50 | 0x80, as few zeros as possible, and a little-endian 64-bit bit length (sections 3.1 and 3.2 of RFC 1321) |
| `Md5Spec.PaddedInjective` | src/md5/md5.c:46-50 | different messages of fewer than 2^61 bytes have different padded messages |
| `Md5.Round1` | src/md5/md5.c:87-102 | sixteen unrolled FF steps are steps 0 to 15 of the table-driven loop |
| `Md5.Round2` | src/md5/md5.c:105-120 | sixteen unrolled GG steps are steps 16 to 31 |
| `Md5.Round3` | src/md5/md5.c:123-138 | sixteen unrolled HH steps are steps 32 to 47 |
| `Md5.Round4` | src/md5/md5.c:141-156 | sixteen unrolled II steps are steps 48 to 63 |
| `Md5.Transform` | src/md5/md5.c:79-161 | for every state and block the unrolled transform is the 64-step table-driven compression of section 3.4 of RFC 1321 |
| `Md5.CountIndex` | src/md5/md5.c:21 | (count[0] >> 3) & 0x3F is the message length modulo 64 |
| `Md5.CarryTest` | src/md5/md5.c:23-25 | the 32-bit sum wrapped exactly when it is below its operand |
| `Md5.CountAdd` | src/md5/md5.c:23-26 | both counter words together grow by 8 * inputlen modulo 2^64 |
| `Md5.UpdateInBoundsIff` | src/md5/md5.c:28-34 | the loop stays inside its input if and only if i + 64 does not wrap for the last block; the condition is computable from index and inputlen |
| `Md5.Context.constructor` | src/md5/md5.c:9-17 | a context for the empty message |
| `Md5.Context.AddCount` | src/md5/md5.c:23-26 | the counter fields hold the bit length of the longer message |
| `Md5.Context.FillBuffer` | src/md5/md5.c:30-31 | the buffer is completed and compressed |
| `Md5.Context.WholeBlocks` | src/md5/md5.c:32-33 | the loop compresses every complete block that is left |
| `Md5.Context.KeepRest` | src/md5/md5.c:40 | the rest is kept in the buffer behind what was there |
| `Md5.Context.Update` | src/md5/md5.c:18-41 | the context represents the longer message: state is the fold over its complete blocks, buffer the rest, counters 8 * length modulo 2^64 |
| `Md5.Context.Final` | src/md5/md5.c:42-52 | after any run of updates the digest is the encoded fold over the padded message |
| `Md5.SameMessageSameContext` | src/md5/md5.c:18-41 | contexts for the same message agree in state, counters and used buffer, however it was cut into calls |
| `Crc16.StepFits` | src/ap_utils.c:322-328 | the register stays a 16-bit word |
| `Crc16.CountCrc16` | src/ap_utils.c:314-331 | the loop computes the fold of the byte step from 0 |
| `Crc16.FeedBit` | src/ap_utils.c:324-326 | feeding a bit is shifting the register with the bit xored in |
| `Crc16.RegStepLinear` | src/ap_utils.c:324-326 | one shift of the 0x8408 register is linear for xor |
| `Crc16.FourShifts` | src/ap_utils.c:325-326 | four shifts in closed form, from linearity and the four single bits |
| `Crc16.EightShifts` | src/ap_utils.c:325-326 | eight shifts in terms of the two low nibbles |
| `Crc16.LowByte` | src/ap_utils.c:325 | the byte a in terms of the same nibbles |
| `Crc16.FormulaIsEightShifts` | src/ap_utils.c:325-326 | the shift/xor formula is eight turns of the reflected 0x8408 register, for every register value |
| `Crc16.StepIsEightBits` | src/ap_utils.c:324-326 | one byte is its eight bits, least significant first |
| `Crc16.CrcIsRegister` | src/ap_utils.c:314-331 | count_crc16 is the bit-at-a-time register for messages of every length |
| `Crc16.ClearsIff` | src/ap_utils.c:322-328 | at most sixteen bits clear the register exactly when they spell its contents |
| `Crc16.ZerosKeep` | src/ap_utils.c:322-328 | zero bits never clear a register that is not clear |
| `Crc16.FeedLinear` | src/ap_utils.c:322-328 | the register is linear in its contents and the stream together |
| `Crc16.CrcLinear` | src/ap_utils.c:314-331 | the checksum of the xor of two equally long messages is the xor of their checksums |
| `Crc16.BurstDetected` | src/ap_utils.c:314-331 | streams that differ only inside a window of sixteen bits leave different registers, whatever is before and after |
| `Crc16.TwoByteBurstDetected` | src/ap_utils.c:314-331 | messages of any length that differ only inside two adjacent bytes have different checksums |
| `Crc16.TrailerIff` | src/ap_utils.c:314-331 | two appended bytes bring the checksum to 0 if and only if they are its low byte and then its high byte |
| `Crc16.RegStepParity` | src/ap_utils.c:324-326 | each bit adds itself to the parity of the register |
| `Crc16.OddErrorsDetected` | src/ap_utils.c:314-331 | the checksums of two equally long messages differ in parity if and only if the messages differ in an odd number of bits, so every odd number of bit errors is detected |
| `Timespecs.AddExact` | src/ap_utils.c:209-223 | sums are exact and normalised even when an operand is not |
| `Timespecs.FromNowExact` | src/ap_utils.c:149-169 | the time is exactly msec later, normalised and set |
| `Timespecs.CmpIsOrder` | src/ap_utils.c:95-115 | comparing seconds and then nanoseconds orders normalised times |
| `Timespecs.FromZeroExactIff` | src/ap_utils.c:154-157 | SET_FROMZERO sets exactly msec milliseconds, and a normalised time, if and only if msec is a multiple of 1000 |
| `Timespecs.FromZeroSetIff` | src/ap_utils.c:154-157 | the argument leaves a timeout unset if and only if it is 0 |
| `Timespecs.FromZeroFails` | src/ap_utils.c:154-157 | 1500 milliseconds become 501 seconds |
| `ConnSlots.UsedUpdate` | src/api_net/connection_pool/conn_pool_connection_pre_connect.c:49-51 | changing one slot changes the number of connected slots by exactly that slot |
| `ConnSlots.UsedAllIff` | src/api_net/connection_pool/conn_pool_utils.c:240 | the count equals the number of slots if and only if every slot is connected |
| `ConnSlots.CloseSlot` | src/api_net/connection_pool/conn_pool_close_connection.c:42-50 | closing a slot keeps descriptors distinct and open, frees exactly one slot and leaves nothing of it polled |
| `ConnSlots.TakeSlot` | src/api_net/connection_pool/conn_pool_connection_pre_connect.c:44-51 | taking a slot keeps every slot invariant and uses exactly one more |
| `ConnSlots.ConnectSlot` | src/api_net/connection_pool/conn_pool_accept_connection.c:206 | a descriptor that was not open before keeps descriptors distinct |
| `ConnSlots.MarkSlot` | src/api_net/connection_pool/conn_pool_poll.c:173-179 | a status change keeps the invariants provided a connection to be dropped is not polled |
| `ConnSlots.DropsOnce` | src/api_net/connection_pool/conn_pool_poll.c:41-50 | the zombie sweep has one CLOSING for each connection to be dropped and none for any other |
| `ConnSlots.LeavingNotPolled` | src/api_net/connection_pool/conn_pool_poll.c:172-175 | connections to be dropped are not polled |
| `ConnEvents.AcceptKeeps` | src/api_net/connection_pool/conn_pool_accept_connection.c:180-221 | accept_connection changes no connection that was up and at most the one slot it took |
| `ConnEvents.FailedAcceptLosesIff` | src/api_net/connection_pool/conn_pool_accept_connection.c:187-202 | after a failed accept() the slot is connected without a descriptor, and never expires if and only if the pool has no timeout; otherwise it expires exactly the timeout later |
| `ConnEvents.HandledRan` | src/api_net/connection_pool/conn_pool_poll.c:117-202 | an event does to the one connection that owns its descriptor what its flags and recv call for, and nothing else |
| `ConnEvents.PassStep` | src/api_net/connection_pool/conn_pool_poll.c:112-203 | events for different descriptors do not undo each other: the pass up to an event and the event make the longer pass |
| `ConnEvents.PassEvolves` | src/api_net/connection_pool/conn_pool_poll.c:112-203 | the event pass brings no connection up and puts off no expiry that is set |
| `ConnEvents.EventWanes` | src/api_net/connection_pool/conn_pool_poll.c:117-202 | an event brings no connection up and gives none another descriptor |
| `ConnEvents.QuietStays` | src/api_net/connection_pool/conn_pool_poll.c:25-238 | a connection without an event is unchanged by a poll, whatever else happens, unless its expiry has come |
| `ConnEvents.ExpiredIsClosed` | src/api_net/connection_pool/conn_pool_poll.c:209-227 | the first poll that returns nonzero after an expiry closes the connection, also the slot of a failed accept() |
| `ConnEvents.LostStaysLost` | src/api_net/connection_pool/conn_pool_poll.c:25-238 | no poll frees a slot that has no descriptor and no expiry |
| `ConnEvents.LeavingIsGone` | src/api_net/connection_pool/conn_pool_poll.c:41-50 | a connection that entered marked is closed; if its slot is in use after the poll a new connection was accepted on it |
| `ConnEvents.LeavingWasShutDown` | src/api_net/connection_pool/conn_pool_poll.c:167-175 | a connection is marked after a poll only if recv found it shut down during that poll |
| `ConnEvents.ShutDownLeaves` | src/api_net/connection_pool/conn_pool_poll.c:167-175 | what recv finds shut down in a poll that gets through is marked, or its expiry came before the end of the poll and it is closed |
| `ConnEvents.FullPoolStarves` | src/api_net/connection_pool/conn_pool_poll.c:79-92 | while the pool is full after the sweep and a connection waits at the listener, poll returns 0 and serves and expires nothing |
| `ConnEvents.GoesOnIff` | src/api_net/connection_pool/conn_pool_poll.c:79-92 | when accept() gives a descriptor and epoll takes it, poll goes on to the events if and only if a slot was free after the sweep |
| `ConnEvents.TwoPolls` | src/api_net/connection_pool/conn_pool_poll.c:25-238 | the two-poll life cycle: what one poll leaves marked was shut down by its peer, and the next poll closes it with exactly one CLOSING in its sweep |
| `ConnSlots.StillPollsBut` | src/api_net/connection_pool/conn_pool_poll.c:173 | when one connection is closed or marked, taking its descriptor out of the interest set leaves the listener and every other connection polled |
| `ConnSignals.PollSignalsFor` | src/api_net/connection_pool/conn_pool_poll.c:25-238 | for every slot the exact sequence of signals of a poll: CLOSING if it was to be dropped; ACCEPTED if epoll took the new descriptor and CLOSING if it was not kept; DATA_IN if recv brought data, once, then CAN_SEND if the pool is asynchronous, the event says so and the connection stays as it is, or CLOSING if the event closes it; TIMED_OUT and CLOSING if it expired; and nothing else |
| `ConnSignals.NoOtherSlots` | src/api_net/connection_pool/conn_pool_poll.c:25-238 | a poll signals nothing about a slot that the pool does not have |
| `ConnSignals.DataInCounts` | src/api_net/connection_pool/conn_pool_poll.c:149-160 | with a callback a poll signals DATA_IN for a slot exactly as often as recv brought data from its descriptor, and never without a callback |
| `ConnOutcomes.FateFollowsAnswers` | src/api_net/connection_pool/conn_pool_poll.c:117-202 | recv is called for a connection if and only if its event was handled, readable and not bad; the connection is closed if and only if the event was bad or recv failed, is to be dropped if and only if recv answered 0 for an orderly shutdown, and is otherwise unchanged up to the expiry sweep |
| `ConnOutcomes.PollResultIff` | src/api_net/connection_pool/conn_pool_poll.c:25-238 | poll returns 0 if and only if epoll_wait failed, the listener was bad or had a connection for a full pool, accept() or epoll failed, or recv failed; otherwise 2 if and only if recv brought data |
| `ConnOutcomes.AcceptKeepsIff` | src/api_net/connection_pool/conn_pool_accept_connection.c:180-221 | with a free slot a connection is kept if and only if accept() gave a descriptor, epoll took it and the callback, if there is one, allowed it; the contents of its slot in each case |
| `ConnOutcomes.AcceptExpires` | src/api_net/connection_pool/conn_pool_connection_pre_connect.c:33-42 | the slot taken expires the timeout after it was taken, and never without a timeout |
| `ConnPools.Pool.Create` | src/api_net/connection_pool/conn_pool_create.c:70-115 | a new pool satisfies every invariant and has its slots if and only if memory was given and the uninitialised lock bit happens to be clear; otherwise it silently has none |
| `ConnPools.Pool.SetMaxConnections` | src/api_net/connection_pool/conn_pool_set_max_connections.c:23-137 | succeeds if and only if the size is the present one, or is at least the slots in use, the pool is not locked and memory is given. Growth keeps every old slot, adds free ones, each signalled as created, and keeps the invariants. Shrinking inside the array leaves exactly the defragmented slots with MOVED_TO, MOVED_FROM and DESTROYING for them, and a sound pool if and only if no connection is lost |
| `ConnPools.Pool.ShrinkLocked` | src/api_net/connection_pool/conn_pool_set_max_connections.c:48-97 | the slots, signals and size after shrinking, also when realloc fails, and the exact case in which every invariant still holds |
| `ConnPools.Pool.MoveConns` | src/api_net/connection_pool/conn_pool_set_max_connections.c:63-81 | the two nested loops in place leave what the recursive definition of the moves gives, with its signals |
| `ConnShrinks.StaysInsideIff` | src/api_net/connection_pool/conn_pool_set_max_connections.c:63-81 | the search for free slots stays inside the array if and only if a slot before the last one kept is free or no connection is at or behind that one; then the moves have a closed form |
| `ConnShrinks.KeepsIff` | src/api_net/connection_pool/conn_pool_set_max_connections.c:63-134 | after shrinking the slots are well formed and hold all connections if and only if no connection was at or behind the new size plus the number of free slots before the last slot kept, and no slot that was moved away and stays empty was to be dropped |
| `ConnShrinks.KeepsOwned` | src/api_net/connection_pool/conn_pool_set_max_connections.c:63-134 | in that case the pool owns and polls the same descriptors as before, each in one slot |
| `ConnShrinks.UsedKept` | src/api_net/connection_pool/conn_pool_set_max_connections.c:63-81 | how many connections are among the slots that are kept |
| `ConnShrinks.GoesTo` | src/api_net/connection_pool/conn_pool_set_max_connections.c:72-74 | in that case every connection is in one of the slots that are kept |
| `ConnShrinks.MoveSignalled` | src/api_net/connection_pool/conn_pool_set_max_connections.c:66-81 | for each slot in order the callback is told MOVED_TO for the slot that now has its contents, and then MOVED_FROM for the slot itself |
| `ConnShrinks.ShrinkFails` | src/api_net/connection_pool/conn_pool_set_max_connections.c:66-74 | one connection in the first of two slots makes shrinking to one leave the array; one in the last of four is lost by shrinking to two |
| `ConnPools.Pool.Grow` | src/api_net/connection_pool/conn_pool_set_max_connections.c:87-128 | a new array with the old slots and initialised new ones; on failure the counted slots are as before, and CREATED was signalled for the slots made so far |
| `ConnPools.Pool.LockConns` | src/api_net/connection_pool/conn_pool_set_max_connections.c:48-57 | between calls no slot is locked, so locking all of them cannot fail |
| `ConnPools.Pool.FindFreeSlot` | src/api_net/connection_pool/conn_pool_utils.c:234-259 | the lowest free slot, or NULL if and only if every slot is connected, and then queue_full_count grows |
| `ConnPools.Pool.GetConnByFd` | src/api_net/connection_pool/conn_pool_utils.c:85-95 | the first slot with the descriptor, or none exactly if there is none |
| `ConnPools.Pool.AddConn` | src/api_net/connection_pool/conn_pool_poller_utils.c:18-38 | succeeds if and only if the system refused nothing; then the descriptor is polled, and with a poller nothing else changes in what is polled |
| `ConnPools.Pool.RemoveConn` | src/api_net/connection_pool/conn_pool_poller_utils.c:49-70 | exactly that descriptor is polled no more |
| `ConnPools.Pool.PollerCreate` | src/api_net/connection_pool/conn_pool_poller_utils.c:80-102 | succeeds if and only if the system refused nothing; then the listener and every connection that is up are polled |
| `ConnPools.Pool.PreConnect` | src/api_net/connection_pool/conn_pool_connection_pre_connect.c:22-55 | the slot is connected without a descriptor, with the expiry the timeout calls for, and the counters follow |
| `ConnPools.Pool.CloseConnection` | src/api_net/connection_pool/conn_pool_close_connection.c:19-60 | a connected slot gets state 0 and descriptor -1 with one CLOSING and keeps the rest; its descriptor and no other is closed and no longer polled; a free slot is left alone; every invariant is kept |
| `ConnPools.Pool.Accept` | src/api_net/connection_pool/conn_pool_accept_connection.c:167-221 | all five outcomes: full, accept failed (the slot stays taken without a descriptor), not pollable, denied, accepted on the lowest free slot with a descriptor that was not open; slots, expiry, counters, signals and answers exactly; what was polled stays polled; after a failed accept the slot is lost if and only if there is no timeout |
| `ConnPools.Pool.AcceptInto` | src/api_net/connection_pool/conn_pool_accept_connection.c:193-219 | the outcomes from accept() on, for the slot that was taken, with signals and answers; with a poller, epoll is asked exactly once about the new descriptor |
| `ConnPools.Pool.Admit` | src/api_net/connection_pool/conn_pool_accept_connection.c:208-219 | the connection is polled and kept, or closed with CLOSING, after ACCEPTED if the user denied it; no other descriptor stops being polled |
| `ConnPools.Pool.BoundTestMissesIff` | src/api_net/connection_pool/conn_pool_recv.c:29 | the bound test lets through an index that no slot has if and only if it is max_connections |
| `ConnPools.Pool.Recv` | src/api_net/connection_pool/conn_pool_recv.c:18-88 | the return code from recv's answer: -2 for an orderly shutdown, -1 with the slot and its descriptor closed on error, the count otherwise with the slot unchanged |
| `ConnPools.Pool.Zombies` | src/api_net/connection_pool/conn_pool_poll.c:41-50 | exactly the connections to be dropped are closed, one CLOSING each, in slot order; none of them was polled, so the interest set stays |
| `ConnPools.Pool.ListenerPass` | src/api_net/connection_pool/conn_pool_poll.c:66-106 | exactly one accept for a good listener event and none otherwise; poll goes on unless the listener has an error or the accept failed for another reason than a refusal by the user; what was polled and the accepted descriptor are polled |
| `ConnPools.Pool.MarkForDrop` | src/api_net/connection_pool/conn_pool_poll.c:172-179 | the connection leaves the poller, is marked, and expires in two seconds unless it had an expiry |
| `ConnPools.Pool.HandleConn` | src/api_net/connection_pool/conn_pool_poll.c:132-202 | what each kind of event and each answer of recv does to the connection and which signals it gives; only the connection's own descriptor can stop being polled, and not while it is up and not to be dropped |
| `ConnPools.Pool.HandleEvent` | src/api_net/connection_pool/conn_pool_poll.c:114-202 | the event reaches the one connection that owns the descriptor, or nothing; the listener and every connection that is still up and not to be dropped stay polled |
| `ConnPools.Pool.EventPass` | src/api_net/connection_pool/conn_pool_poll.c:112-203 | every event up to and including the first failed recv is handled, none after it, and other connections are untouched; the signals are those of the events in order; 0 if and only if some recv failed, else 2 if and only if data came; the listener and every connection that is still up and not to be dropped stay polled |
| `ConnPools.Pool.ExpireSlot` | src/api_net/connection_pool/conn_pool_poll.c:211-227 | a connection is closed if and only if its expiry has come, with TIMED_OUT and then CLOSING |
| `ConnPools.Pool.ExpirySweep` | src/api_net/connection_pool/conn_pool_poll.c:209-235 | no connection stays open that had expired before the sweep; the signals are exactly the pairs for the closed ones; the others and the listener stay polled |
| `ConnPools.Pool.Poll` | src/api_net/connection_pool/conn_pool_poll.c:25-238 | one poll, with or without a listener event: sweep, at most one accept, events up to the first failed recv and expiries make the new slots; the whole trace, and all answers of the system in order, epoll asked once about a new descriptor; what was polled before, and the descriptor that was accepted, are polled afterwards if they are the listener's or of a connection that is up and not to be dropped |
| `ConnPools.Pool.Accounting` | src/api_net/connection_pool/conn_pool_connection_pre_connect.c:49-54 | in every reachable state used_slots is the number of connected slots and at most the maximum, free slots have no descriptor, and CLOSING signals number conn_count - used_slots |
| `ConnPools.Pool.DroppedByNextPoll` | src/api_net/connection_pool/conn_pool_poll.c:41-50 | a marked connection is not polled and has an expiry; whatever the next poll does, it is closed with exactly one CLOSING in its sweep |
| `ConnPools.Pool.NoLeaks` | src/api_net/connection_pool/conn_pool_close_connection.c:42-48 | the pool leaks no socket and closes no other descriptor: of the sockets open are its listener, its connections, and exactly what others opened |
| `ConnPools.Pool.SignalOrder` | src/api_net/connection_pool/conn_pool_poll.c:216-224 | each TIMED_OUT is directly followed by CLOSING for the same slot, and DATA_LEFT never comes |
| `ConnPools.Pool.EventOwner` | src/api_net/connection_pool/conn_pool_utils.c:85-95 | a live descriptor belongs to one slot and is not the listener |
| `LinkedLists.Node.constructor` | src/list/list_node.c:14-24 | an unlinked node |
| `LinkedLists.WithoutLinked` | src/list/list.c:257-263 | linking the neighbours of a node leaves a doubly linked list of the others |
| `LinkedLists.Iterator.FromNode` | src/list/list_iterator.c:28-36 | an iterator from any node meets the rest of the list in its direction |
| `LinkedLists.Iterator.Next` | src/list/list_iterator.c:43-52 | each call yields the next node of the order, and NULL exactly at the end |
| `LinkedLists.List.constructor` | src/list/list.c:48-62 | an empty list |
| `LinkedLists.List.RPush` | src/list/list.c:90-112 | the node is appended; NULL changes nothing |
| `LinkedLists.List.LPush` | src/list/list.c:166-185 | the node is prepended; NULL changes nothing |
| `LinkedLists.List.RPop` | src/list/list.c:118-135 | the last node is returned unlinked and gone from the sequence, NULL if it is empty |
| `LinkedLists.List.LPop` | src/list/list.c:141-159 | the first node is returned unlinked and gone from the sequence, NULL if it is empty |
| `LinkedLists.List.NewIterator` | src/list/list_iterator.c:15-21 | head iteration stands before the sequence, tail iteration before its reverse |
| `LinkedLists.List.Find` | src/list/list.c:191-223 | with a match callback, the first node whose value it accepts, given the value looked for and then the node's, and NULL if and only if it rejects all; without one, the same with equality of values |
| `LinkedLists.List.Item` | src/list/list.c:229-249 | s[i], or s[len + i] for a negative index, and NULL exactly outside |
| `LinkedLists.List.Remove` | src/list/list.c:255-269 | the sequence loses exactly that node, wherever it is, and its value is freed if there is a callback |
| `LinkedLists.List.Destroy` | src/list/list.c:68-83 | each node is freed once, in order, and its value with it |
| `LinkedLists.Collect` | src/list/list_iterator.c:43-52 | iterating to the end yields the sequence from the head and its reverse from the tail, each node once |
| `CircularQueues.FirstInFirstOut` | src/fifo_queue/circular_queue.c:59-90 | every run of pushes and pops returns what was accepted in that order and holds the rest, never more than the capacity |
| `CircularQueues.Queue.Run` | src/fifo_queue/circular_queue.c:59-90 | running any list of pushes and pops on the queue leaves the contents and returns the values that the bounded queue calls for, in order |
| `CircularQueues.PushHeld` | src/fifo_queue/circular_queue.c:63-67 | storing at rear and advancing it around the end appends to what the slots hold |
| `CircularQueues.PopHeld` | src/fifo_queue/circular_queue.c:78-87 | clearing front and advancing it around the end removes the oldest element |
| `CircularQueues.PushOccupies` | src/fifo_queue/circular_queue.c:63-67 | one more slot is occupied, also across the wrap and up to full |
| `CircularQueues.PopVacates` | src/fifo_queue/circular_queue.c:80-87 | one slot less is occupied, and none when front meets rear |
| `CircularQueues.Queue.Contents` | src/fifo_queue/circular_queue.c:27-41 | empty is front == -1 and full is front == rear, and they are told apart at every capacity |
| `CircularQueues.Queue.constructor` | src/fifo_queue/circular_queue.c:43-57 | an empty queue with zeroed slots |
| `CircularQueues.Queue.Push` | src/fifo_queue/circular_queue.c:59-70 | appended and 0, or unchanged and 1 exactly when capacity elements are held |
| `CircularQueues.Queue.Pop` | src/fifo_queue/circular_queue.c:72-90 | the oldest element is returned and its slot zeroed; nothing when empty; emptied queues have front -1 and rear 0 |

## Left out

- String-keyed registry (`*_str`, `inter_evenstr`, `idcmp_str`): the same macros with another key comparison.
- HASH_REPLACE, HASH_CLEAR, the Bloom filter and the hash functions (JEN, SAX, MUR and others): the hash is an arbitrary function of the key.
- The handle's `tbl` field and the separately allocated UT_hash_table: head pointer and table are one object here, so a stale `tbl` pointer in a handle is not modelled.
- `prev` and `next` point to elements in C and to handles here; the two differ by the constant `hho`.
- Unsigned wrap-around of num_items, num_buckets and the chain counts: doubling fails for lack of memory long before, and uthash then exits.
- Running out of memory in uthash, the list and the queue: uthash exits, and list and queue constructors return NULL; the model starts after a successful allocation.
- Freed memory: `free` is modelled as the last use of a record or node.
- HashTables.HashTable.Fsck: a table that passes need not be valid, because HASH_FSCK checks neither placement nor the tail nor that both orders have the same items.
- ConnPools.Pool.SetMaxConnections: excludes shrinking that leaves the array (StaysInside fails, or the new size is 0), where the code reads a slot that does not exist.
- Buffers of destroyed slots, which are freed before realloc may fail and leave the slots in the pool.
- ConnPools.Pool.NoLeaks: does not count the descriptor of the epoll instance, which the kernel model keeps apart from the open sockets.
- ConnPools.Pool.Recv: excludes the index max_connections, at which the code reads a slot that does not exist.
- ConnPools.Pool.LockConns: leaves out the undo loop of set_max_connections, which is unreachable in one thread; as written, `while(--i)` would also skip slot 0 and run below it when the first lock fails.
- ConnPools.Pool.ListenerCreate: does not model socket options, the retries of bind and their sleeping; whether they succeed is up to the kernel. (conn_pool_listener_create.c is not UTF-8 text and cannot be cited by line.)
- Waiting for a lock: in one thread a held lock is never released, so the wait times out.
- UDP pools, outgoing connections, sending, `ap_net_conn_pool_move_conn`, `check_state_sel`, `connection_is_alive`, `ap_net_poller_poll`, destruction of the pool.
- A callback that re-enters the pool or changes slots: it is assumed not to.
- Pool statistics other than conn_count, active_conn_count and queue_full_count: total_time rests on timespec_sub, whose results are not normalised, and timedout is never written.
- Wrap-around of the pool's unsigned counters.
- The receive buffers' contents and sizes, addresses, user_data, debug handles and logging.
- timespec ADD and SUB modes of `ap_utils_timespec_set`, `timespec_sub` and `timeval_*`.
- A negative length in `count_crc16`, for which the loop does not end.
- Mutexes of the list and the registry, `fifo_queue.c`, cJSON, the string toolkit, error and log text, the command shell.
