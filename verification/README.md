# Buffers, records and allocators of butil and base, in Dafny

This project models the libraries that the TCP test programs of the repository are built
on, and proves what they promise.

* **IOBuf** (`Blocks`, `Ownership`, `Chains`, `Cells`, `BlockMemory`, `Conservation`,
  `ThreadBlocks`, `Rings`, `IOBuf`, `Transfers`, `UserData`, `Portal`, `CutUntil`,
  `Delimiters`, `Cutter`, `CutterAppends`, `Areas`): the zero-copy buffer. A buffer is a
  queue of refs into shared, counted blocks, kept in two inline slots or in a ring.
  `IOBuf.Contents()` is the byte sequence it stands for. Every operation is proved against
  that sequence, keeps one invariant over all blocks and all their owners (`Blocks.Ok`), and
  leaves what every other owner holds and sees as it was (`Ownership.Isolated`). The owners
  are the IOBufs, the chain of each thread, the chain of each IOPortal, and the hand a block
  is in while it is moved.
* **recordio** (`RecordFormat`, `RecordRoundTrip`, `RecordAcceptance`, `TornRecords`,
  `RecordWriter`, `RecordReader`, `RecordThroughBuffers`): records written into an IOBuf with
  a header that is filled in afterwards, and cut off it again.
* **ResourcePool** (`BlockGroups`, `ResourcePool`, `ResourceSystem`): state machines over the
  atomic steps of any number of threads; the last one joins the other two.
* **VLOG** (`Wildcards`, `VModules`, `VLogSites`): the glob matcher, the level of a module,
  and the registration of sites while the module list is reset.
* `Crc32c` with `Crc32cRemainder` and `Crc32cAnswers`, `MinHeap`, `ObserverList`,
  `MersenneTwister` with `MersenneAnswers`, `UFloat16`, `Arena` with `ArenaSizes`: algorithms
  with a specification of their own.

## How the model is laid out

* A byte is `bv8`. Sizes and offsets are `nat`; where the code truncates or wraps (the sum
  of the inline lengths, the byte count at the switch to a ring, the name length of a meta,
  `n + 1 - ndelim` in `_cut_by_delim`, area handles and their 32-bit parameters, the 32-bit
  fields of arena blocks, signatures of delimiters) the model does it explicitly. Ring
  indices are taken modulo the capacity, which is a power of two, where the code masks them
  (`Rings.MaskIsWrap`).
* `Memory` holds the live blocks and `g_nblock`. Its ghost field `held` says what each owner
  accounts for, and `oom` counts the allocations that failed. malloc may fail at any call.
* `_small()` reads the sign of a field that overlays the offset of the first inline ref, and
  every operation of the model branches on that sign (`IOBuf.IsSmall()`), as the code does.
  `IOBuf.Stands()` says that the fields stand for the queue of refs, `IOBuf.Layout()` that
  the sign tells the two views apart as well, and `IOBuf.Shape()` that the ring's byte count
  is right too. All of it holds when every block has at most 0x5555_5555 bytes, which is part
  of the invariant `IOBuf.Valid()`; blocks that large come from `append_user_data` only.
  Pushing and popping refs, and `append_user_data`, are proved without this limit, together
  with the exact conditions under which the views are told apart and `length()` is right
  afterwards.
* The number of refs of a buffer and the capacity of its ring are unbounded, where the code
  has 32-bit fields; statements that cut a ref index to 32 bits ask for fewer than 2^32 refs.
* A reader (`IReader`) returns any number of bytes within the space it is offered, or an
  error. The bytes it delivers are placed in the block when the ref to them is made.
* C strings become `string`, so no NUL ends them early. Objects passed as two arguments are
  distinct objects, as the code requires.
* Threads of ResourcePool and of VLOG take one atomic operation, or one locked section, at a
  time, in any order.
* Many proofs begin with a `hide` statement. It takes definitions a proof does not need out
  of its sight and assumes nothing.

## Where the code does less than its documentation or its shape suggests

* `length()` is right exactly when the views are told apart, two inline lengths do not come
  to 2^32, and the three lengths at the switch to a ring did not (`IOBufs.IOBuf.LengthExactly`,
  and `IOBufs.IOBuf.PushBackRef`, `PopFrontRef` and `PopBackRef` for one step; a misread
  buffer can be right by chance, when the address of its second block is its length). There
  is a case of each failure: two blocks of 2^31 bytes (`UserBlocks.WrapsInline`), three that
  come to 2^32 (`UserBlocks.WrapsAtSwitch`), and a ref whose offset is 2^31, which makes
  `_small()` take the inline refs for a ring (`UserBlocks.MisreadShare`).
* Bytes appended while an `IOBufCutter` is in the middle of the only ref, and merged into
  that ref, never come out of the cutter, although its documentation allows appending
  (`CutterAppends.AppendWhileCutting` has the exact number, `CutterAppends.AppendLost` a
  case).
* The destructor of `IOBufCutter` shortens the front ref of a ring without adjusting the
  ring's byte count; `length()` is wrong afterwards exactly then
  (`Cutters.IOBufCutter.Finish`, with a case in `Cutters.MiscountAfterCut`).
* `cut_until` finds the first occurrence of a delimiter of several bytes exactly for the
  delimiters that `Delimiters.Good` describes (`Delimiters.GoodExactly`).
* A meta name of 256 bytes passes both size checks and is written with length 0; such a
  record is never read back (`RecordRoundTrip.RoundTripExactly`).
* `CutRecord` compares the bytes at hand, header included, with the size of the data alone.
  In the gap this leaves it delivers something other than the record
  (`RecordRoundTrip.PartialExactly`).
* `IOBufCutter::pop_front` returns its argument even when fewer bytes were left.
* `reserve` gives no handle when the first byte of the room is in a ref with index 2^19 or
  more, and none or one of the wrong size when asked for 2^30 bytes or more
  (`Areas.Reserve`, `Areas.SizeExactly`, `Areas.ShortHandle`). Without a handle the record
  header stays unwritten while the write reports success, and failed allocations are not
  noticed; `RecordWriters.RecordWriter.WriteWithoutFlush` says exactly what is in the buffer
  then and when it is the record, `RecordWriters.RecordWriter.HeaderMissing` is a case.
* A chunk size of zero makes the free lists of a ResourcePool hand out what is not there
  (`ResourcePools.OwnershipExactly`, with the run in `ResourcePools.EmptyChunk`).
* VLOG registration gives a site the wrong level when the address of a module list comes back
  while a call remembers it and the new list gives the site another level
  (`VLogSites.InsertExactly`, `VLogSites.FreshExactly`; a run in `VLogSites.StaleSite`). The
  delayed deletion of old lists makes this unlikely.
* A change of FLAGS_v is missed by exactly the sites that the module list gives no level and
  that were last given another default (`VLogSites.RightExactly`). `on_reset_verbose` walks
  the sites with the new value before that is assigned, so a site inserted in between is
  missed (`VLogSites.VerboseExactly`, with a run in `VLogSites.MissedSite`), although a
  comment says that nothing will be. The registrations of both flag validators are commented
  out (butil/logging.cc, lines 1397 and 1427), so in this copy neither walk follows from
  setting a flag; the model covers any order of resets and changes.
* An arena hands out the same bytes twice exactly for the block sizes that are not in
  `ArenaSizes.SafeSizes`; it takes a size above 2^32 (`ArenaSizes.DisjointExactly`). Its
  promise to waste at most a quarter of a block holds exactly for the sizes in
  `ArenaSizes.ThriftySizes` (`ArenaSizes.WellUsedExactly`). It does not survive a failed
  malloc for a large request.

## Model

| member | source | states |
|---|---|---|
| Blocks.TotalUpdate | butil/iobuf.cpp:197-269 | exchanging what one owner accounts for changes the sum of all shares by exactly that exchange |
| Blocks.BytesConcat | butil/iobuf.h:73-85 | the bytes of two queues of refs one behind the other are the bytes of the first followed by those of the second |
| Blocks.BytesLength | butil/iobuf_inl.h:124-127 | the sum of the ref lengths is the number of bytes in the buffer |
| Conservation.LiveExactlyOwned | butil/iobuf.cpp:248-269 | a block is live exactly as long as some owner has a share of it, and its count is the number of refs to it in all buffers plus its place in a chain |
| Conservation.NoDanglingRef | butil/iobuf.cpp:253-269 | no ref of any buffer points at a freed block or past the written part of a block |
| Conservation.OneChainOnly | butil/iobuf.cpp:361-469 | a block that is appended to is in one chain only, at one place |
| Ownership.Reassign | butil/iobuf.cpp:248-269 | any exchange of shares matched by the counts keeps the invariant, and no other owner sees a difference |
| Ownership.PushOk | butil/iobuf.cpp:545-636 | pushing a shared ref, merged or not, keeps the invariant and adds its bytes at the back |
| Ownership.PushBytes | butil/iobuf.cpp:556-561 | a ref that continues the last one reads the same merged into it as behind it |
| Ownership.PushSeparated | butil/iobuf.cpp:556-561 | pushing never leaves two neighbouring refs of which one goes on where the other ends |
| Ownership.PopFrontOk | butil/iobuf.cpp:642-671 | giving up the front ref frees its block exactly with the last share and keeps everyone else's bytes |
| Ownership.PopBackOk | butil/iobuf.cpp:676-704 | the same at the back |
| Ownership.NarrowOk | butil/iobuf.cpp:735-741 | narrowing a ref within itself keeps the invariant |
| Ownership.MoveOk | butil/iobuf.cpp:797-800 | a ref that moves to another buffer takes its share along; merged there, the share is given up |
| Ownership.MovePartOk | butil/iobuf.cpp:801-810 | cutting part of the front ref shares the block and splits the bytes without loss |
| Chains.ChainPopOk | butil/iobuf.cpp:419-426 | taking the head off a chain of blocks keeps it linked and frees the block with its last share |
| Chains.NewInChain | butil/iobuf.cpp:296-311 | a new block enters with one share and is in no other chain |
| Chains.FillOk | butil/iobuf.cpp:1173-1178 | bytes written behind the size of a block in one's own chain change what nobody else sees |
| Chains.PrependOk | butil/iobuf.cpp:427-441 | a returned chain linked in front of the thread's chain makes one chain of distinct blocks |
| Chains.LinkOk | butil/iobuf.cpp:1621-1632 | a block linked behind the last one of a portal's chain makes one chain |
| Chains.FillPushOk | butil/iobuf.cpp:1173-1178 | filling the end of a block and pushing a ref to the new bytes appends exactly these bytes |
| Cells.CellsPush | butil/iobuf.cpp:545-636 | the places in blocks that a buffer covers grow by those of the pushed ref, merged or not |
| Cells.BytesAreCells | butil/iobuf.h:73-79 | each byte of a buffer is the one stored at its place |
| Cells.PokeElsewhere | butil/iobuf.cpp:1304-1337 | overwriting places a buffer does not cover leaves its bytes alone |
| Cells.PokeHere | butil/iobuf.cpp:1304-1337 | overwriting places a buffer covers once overwrites its bytes at that position |
| BlockMemory.Memory.IncRef | butil/iobuf.cpp:248-251 | one more share; the number of live default blocks still equals the counter |
| BlockMemory.Memory.DecRef | butil/iobuf.cpp:253-269 | one share fewer; with the last one the block is gone and the counter follows for default blocks only |
| BlockMemory.Memory.CreateBlock | butil/iobuf.cpp:296-311 | a fresh empty block with one share, counted, or a failed allocation that changes nothing |
| BlockMemory.Memory.CreateUserBlock | butil/iobuf.cpp:222-231 | a fresh full block around the caller's bytes, not counted |
| ThreadBlocks.ThreadLocal.ShareBlock | butil/iobuf.cpp:361-390 | the head of the thread's chain is the first block of it that had room, with the same room, or a new empty one; the chain goes on from it, and full blocks before it are released; the number of blocks equals the length of the chain |
| ThreadBlocks.ThreadLocal.AcquireBlock | butil/iobuf.cpp:449-469 | the first block of the thread's chain that has room leaves it for the caller's hand, the chain keeping what is behind it; a block is created exactly when there is none |
| ThreadBlocks.OpenSuffix | butil/iobuf.cpp:449-469 | what is kept of a chain is its tail from the first block with room; every block before that is full |
| ThreadBlocks.ThreadLocal.ReleaseChain | butil/iobuf.cpp:415-447 | a chain without full blocks returns to the front of the thread's chain or is released; the CHECK on full blocks cannot fire |
| IOBufs.InlineLength | butil/iobuf_inl.h:124-131 | the 32-bit sum of the two inline lengths does not wrap |
| Rings.MaskIsWrap | butil/iobuf.h:94-100 | for a capacity that is a power of two, masking an index takes the slot that wrapping around takes |
| IOBufs.IOBuf.constructor | butil/iobuf_inl.h:57-60 | an empty buffer that owns nothing |
| IOBufs.IOBuf.PushOrMoveBackRefToSmallView | butil/iobuf.cpp:545-593 | the queue grows by the ref, merged where it continues the last one, through the switch to a ring at the third ref; shares follow for push and move; a new ring's byte count is the sum modulo 2^32, and right exactly when the three lengths do not come to 2^32 |
| IOBufs.IOBuf.PushOrMoveBackRefToBigView | butil/iobuf.cpp:598-636 | the same in the ring, wrapped around or grown to twice its size; its byte count grows by the ref and stays right or wrong |
| IOBufs.IOBuf.PushBackRef | butil/iobuf_inl.h:179-193 | pushing by the view that _small() reports gives the same queue in both; exactly when _small() still tells the views apart, what length() is then, and exactly when that is the number of bytes |
| IOBufs.IOBuf.PopFrontRef | butil/iobuf.cpp:641-671 | the front ref leaves the queue, through the switch back to two inline refs; its share goes or leaves with it; exactly when _small() still tells the views apart and length() is right |
| IOBufs.IOBuf.PopBackRef | butil/iobuf.cpp:676-704 | the back ref leaves the queue and its share goes; exactly when _small() still tells the views apart and length() is right |
| IOBufs.IOBuf.ShareRef | butil/iobuf.cpp:1118-1123 | the bytes of a shared ref are appended and no other owner is affected |
| IOBufs.IOBuf.LengthOk | butil/iobuf_inl.h:124-127 | in a valid buffer the ref lengths, what length() computes from the view that _small() reports, and the byte sequence agree |
| IOBufs.IOBuf.Length | butil/iobuf_inl.h:124-127 | in a valid buffer what length() computes is the number of bytes, in both views |
| IOBufs.IOBuf.LengthExactly | butil/iobuf_inl.h:124-131 | in any buffer, valid or not: length() is the number of bytes exactly when a ring's count is right and up to two refs are told apart and come to less than 2^32, or are misread with a second block whose address is their length; what it is otherwise |
| IOBufs.IOBuf.SmallTells | butil/iobuf_inl.h:129-131 | the sign that _small() reads tells the views apart exactly when the first inline offset is below 2^31; the inline view has up to two refs, the ring more |
| IOBufs.IOBuf.RefAt | butil/iobuf_inl.h:133-147 | indexing either view gives the ref at that place of the queue |
| IOBufs.IOBuf.Clear | butil/iobuf.cpp:706-724 | nothing is left, every share is given up, others see what they saw |
| IOBufs.IOBuf.PopFront | butil/iobuf.cpp:726-747 | exactly min(n, length) bytes leave the front |
| IOBufs.IOBuf.PopBack | butil/iobuf.cpp:767-787 | exactly min(n, length) bytes leave the back |
| IOBufs.IOBuf.Cutn | butil/iobuf.cpp:789-814 | min(n, length) bytes move from the front to the back of the other buffer, none lost; the very memory cells of the bytes move, so none is copied |
| IOBufs.IOBuf.Append | butil/iobuf.cpp:1160-1182 | the data is appended whole, or a prefix of it when an allocation fails; it extends the last ref exactly when the thread's block continues that ref, and by as much as that block has room for; no other owner is affected though blocks are shared |
| Transfers.AppendBuf | butil/iobuf.cpp:1118-1123 | the other buffer's bytes are appended by sharing; it keeps its own |
| Transfers.Swap | butil/iobuf_inl.h:83-87 | the two buffers exchange their refs, rings and shares |
| Transfers.AppendMovable | butil/iobuf.cpp:1125-1139 | the other buffer's bytes are appended, as the same memory cells, and it ends up empty, shares moving along |
| Transfers.CutBytes | butil/iobuf.cpp:816-841 | min(n, length) bytes are copied out and removed from the front |
| UserBlocks.AppendUserData | butil/iobuf.cpp:1210-1226 | for data of any size: refused above 0xFFFFFFFF - 100 bytes, otherwise appended as a block of its own, outside the block counter, or nothing changed when there is no memory; what length() says then and exactly when that is right; a valid buffer stays valid for 1 to 0x5555_5555 bytes and no other owner is affected |
| UserBlocks.WithinWhenValid | butil/iobuf.cpp:1210-1226 | every valid buffer meets what that asks for |
| UserBlocks.WrapsInline | butil/iobuf_inl.h:124-127 | two blocks of 2^31 bytes: length() is 0 with 2^32 bytes in the buffer |
| UserBlocks.MisreadShare | butil/iobuf_inl.h:129-131 | blocks of 2^31 + 10, 1 and 1 bytes, 2^31 bytes popped, the first ref shared with an empty buffer: _small() is false there with one inline ref, and length() is 0 with ten bytes in the buffer |
| UserBlocks.WrapsAtSwitch | butil/iobuf.cpp:578-592 | blocks of 2^31 - 1, 2^31 - 1 and 2 bytes: length() is 0 with 2^32 bytes in the buffer |
| Portals.IOPortal.Prepare | butil/iobuf.cpp:1616-1642 | the room offered is what was asked for or all the room of the first 64 blocks, whichever is less; it falls short only with 64 blocks in the chain; blocks are taken from the thread only while more room is needed; no block is full |
| Portals.IOPortal.Commit | butil/iobuf.cpp:1652-1664 | the bytes read fill the chain from its head and are appended; full blocks leave the chain, which has that much less room |
| Portals.IOPortal.ReturnCachedBlocks | butil/iobuf.cpp:1713-1715 | the chain passes to the thread |
| Portals.IOPortal.AppendFromReader | butil/iobuf.cpp:1613-1666 | the reader is called once, with the room asked for or all the room of the first 64 blocks lined up, those of the chain first; what it delivers is appended in order, the rest stays with it, nothing is lost; its answer is the result; without bytes an empty buffer gives its blocks back and another keeps them |
| Delimiters.GoodIsCorrect | butil/iobuf.cpp:876-912 | for a good delimiter the rolling signature finds the first occurrence, or nothing exactly when there is none |
| Delimiters.BadIsWrong | butil/iobuf.cpp:876-912 | for any other delimiter some buffer makes the search miss or misplace it |
| Delimiters.GoodExactly | butil/iobuf.cpp:876-912 | for delimiters of two to eight bytes, the search is right on all buffers at least as long exactly when the first byte is not 0, the others are below 128, and the first is too unless there are eight |
| CutUntils.FindChar | butil/iobuf.cpp:856-871 | the index of the first such byte across all refs, or -1 when there is none |
| CutUntils.FindSignature | butil/iobuf.cpp:889-909 | the scan over refs finds what the search over the byte sequence finds |
| CutUntils.CutByChar | butil/iobuf.cpp:856-874 | cut at the first such byte, which is dropped; -1 with nothing changed exactly when there is none |
| CutUntils.CutByDelim | butil/iobuf.cpp:876-912 | for 2 to 8 bytes the buffers part where the signature search says, with the 64-bit cut point; -1 with nothing changed otherwise |
| CutUntils.CutUntil | butil/iobuf_inl.h:100-108 | for good delimiters: the other buffer gains exactly the bytes before the first occurrence, this one keeps those after it; -1 with nothing changed exactly when it is absent; for all others up to 8 bytes the cut is where the rolling signature first agrees |
| Cutters.IOBufCutter.RemainingBytes | butil/iobuf_inl.h:196-202 | the count is the number of bytes still to be cut, also when the front ref has grown since the cutter took it |
| Cutters.IOBufCutter.LoadNextRef | butil/iobuf.cpp:1738-1754 | the exhausted ref leaves the buffer and the next one is taken, false exactly when nothing remains |
| Cutters.IOBufCutter.Cut1 | butil/iobuf_inl.h:204-213 | the first remaining byte, if any, is handed out |
| Cutters.IOBufCutter.Fetch1 | butil/iobuf_inl.h:215-222 | the first remaining byte, if any, without removing it |
| Cutters.IOBufCutter.PopFront | butil/iobuf_inl.h:233-248 | min(n, remaining) bytes are dropped, and n is returned |
| Cutters.IOBufCutter.CopyTo | butil/iobuf_inl.h:224-231 | the first min(n, remaining) bytes, nothing removed, across any number of refs |
| Cutters.IOBufCutter.CopyAcross | butil/iobuf.cpp:1756-1784 | the part of that which goes beyond the current ref |
| Cutters.IOBufCutter.CutBytes | butil/iobuf.cpp:1819-1844 | min(n, remaining) bytes are handed out and removed |
| Cutters.IOBufCutter.Cutn | butil/iobuf.cpp:1786-1817 | min(n, remaining) bytes move to the other buffer without copying |
| Cutters.IOBufCutter.Finish | butil/iobuf.cpp:1726-1737 | the buffer is left with exactly what remained to be cut; its length() is right exactly unless it is a ring whose front ref is partly cut |
| Cutters.MiscountAfterCut | butil/iobuf.cpp:1726-1737 | one byte cut from a ring by cut1, and the cutter gone: length() is one too large |
| CutterAppends.PushWhileCutting | butil/iobuf.cpp:545-636 | a ref pushed while cutting comes out behind what remained, exactly unless it is merged into the only ref, which the cutter is in; then nothing of it remains to be cut |
| CutterAppends.AppendWhileCutting | butil/iobuf.h:482-486 | of bytes appended while cutting the cutter sees all but those that make the ref in its hands longer; their number is what the thread's block has room for, if it continues the only ref and the cutter holds that, and 0 otherwise |
| CutterAppends.AppendLost | butil/iobuf.cpp:1738-1754 | bytes merged into the only ref while the cutter has it: cutting all that remains hands out none of them, and then nothing remains |
| Areas.MakeArea | butil/iobuf.cpp:1260-1280 | index, offset and size, cut to 32 bits, can be read back from the 64-bit handle; it is invalid exactly when one of them is too large or all are zero |
| Areas.SizeExactly | butil/iobuf.cpp:1253-1280 | a valid handle knows the size asked for exactly when it is below 2^30 |
| Areas.ShortHandle | butil/iobuf.cpp:1296 | reserve(2^32 + 9) gives a handle of size 9 |
| Areas.Reserve | butil/iobuf.cpp:1282-1302 | the buffer grows by the room asked for, whose places no buffer covers elsewhere; the handle is, for any count and number of refs, the one made of the place of the first byte, given by the refs and the thread's chain before, and invalid on a failed allocation |
| Areas.SolePart | butil/iobuf.cpp:1304-1337 | the first part of the room, which is what a short handle names, is covered nowhere else either |
| Areas.SoleAfterAppend | butil/iobuf.cpp:1160-1182 | appending to the buffer does not touch the room set aside |
| Areas.SoleAfterShare | butil/iobuf.cpp:1118-1123 | neither does sharing another buffer's refs |
| Areas.KeepsPointing | butil/iobuf.cpp:1304-1337 | a handle still points at its room after the buffer has grown |
| Areas.PokeSole | butil/iobuf.cpp:1318-1327 | writing the room changes the bytes at its position and no other buffer |
| Areas.UnsafeAssign | butil/iobuf.cpp:1304-1337 | exactly the bytes of the area are overwritten, across refs, and no other owner sees a change |
| RecordFormat.Net32Round | butil/recordio.cc:345 | a 32-bit number written in network order is read back |
| RecordRoundTrip.RoundTrip | butil/recordio.cc:221-293 | a record with unique names of 1 to 255 bytes within the limits is read back from its bytes, the bytes behind it are left and the offset grows by its size |
| RecordRoundTrip.ByteSizeExact | butil/recordio.cc:144-151 | ByteSize is the number of bytes written |
| RecordRoundTrip.LongName | butil/recordio.cc:305-313 | metas with a name of 256 bytes are refused by the reader |
| RecordRoundTrip.RoundTripExactly | butil/recordio.cc:305-313 | of the records MutableMeta can build exactly those without a name of 256 bytes are read back |
| RecordRoundTrip.StreamRoundTrip | butil/recordio.cc:221-293 | any number of records written one after another are cut in order, and nothing more |
| RecordRoundTrip.PartialMetas | butil/recordio.cc:263-291 | metas or payload cut short never make up the record, whatever stale size bytes stand in |
| RecordRoundTrip.PartialExactly | butil/recordio.cc:249-258 | with part of a record at hand the reader waits or delivers it exactly outside the gap between the data size and the whole size |
| RecordRoundTrip.OneByteCaught | butil/recordio.cc:69-76 | a size field with exactly one byte changed does not have the checksum of the original |
| RecordAcceptance.HeaderDecides | butil/recordio.cc:221-263 | on any bytes: 0 exactly when there are fewer than nine, or a good header promises more than there are; a record only behind a good header; a bad one gives -1 with bytes, record and offset as they were |
| RecordAcceptance.AcceptedExactly | butil/recordio.cc:221-293 | on any bytes: a record comes out uncut exactly when they start with the encoding of a record within the limits, and then it is that record and the rest is left |
| RecordAcceptance.DeliveredNames | butil/recordio.cc:221-293 | on any bytes, cut short or not: a record comes out only behind a good header, and its names are not empty and differ from each other |
| RecordAcceptance.DamageNoticed | butil/recordio.cc:241-249 | any one byte of the header of any record changed, of the magic, the size or the checksum: -1, with bytes, record and offset as they were |
| RecordAcceptance.ChecksumEntries | butil/recordio.cc:44-67 | the entries of the checksum table for the single bits |
| RecordAcceptance.ChecksumAdds | butil/recordio.cc:44-67 | all other entries follow from those |
| RecordAcceptance.NetworkOrder | butil/recordio.cc:345 | the highest byte of a number is written first |
| RecordAcceptance.HelloBytes | butil/recordio.cc:296-360 | the bytes of a record without metas, one by one |
| RecordAcceptance.MetaBytes | butil/recordio.cc:296-360 | the bytes of a record with two metas, one by one |
| RecordWriters.RecordWriter.WriteMetas | butil/recordio.cc:303-329 | the metas are appended as the format says, with the parts of their heads missing for which there was no memory, or everything written so far is taken off again exactly when one is too long |
| TornRecords.WrittenExactly | butil/recordio.cc:299-349 | what is written is the encoding of the record exactly when nothing is missing and the header was written or was there by chance |
| RecordWriters.RecordWriter.WriteWithoutFlush | butil/recordio.cc:299-349 | the exact result and bytes in every case, failed allocations and a missing handle included; a refused record leaves the bytes as they were; without failures it is refused exactly when it is too long; a written one is the encoding exactly when no allocation failed and there was a handle, or the header was there by chance; metas and payload are unchanged |
| RecordWriters.RecordWriter.HeaderMissing | butil/recordio.cc:299-349 | with 2^19 refs in the buffer, none extended by the room, and other bytes in the room: success is reported and the bytes are not the record |
| RecordReaders.FindMagic | butil/recordio.cc:203-212 | the first place of the magic number in a window, or none |
| RecordReaders.RecordReader.CutUntilNextRecordCandidate | butil/recordio.cc:185-219 | skips to the first magic number, however the bytes are spread over windows and blocks; without one, keeps what may be the beginning of it |
| RecordReaders.RecordReader.CutMeta | butil/recordio.cc:263-289 | one turn of the loop does what the format says to any bytes |
| RecordReaders.RecordReader.CutRecord | butil/recordio.cc:221-293 | result, record, remaining bytes and offset are those of the format on any bytes, however they are spread over blocks |
| RecordThroughBuffers.ReadAll | butil/recordio.cc:221-293 | cutting records until there is none gives those that the format gives for the bytes, and stops |
| RecordThroughBuffers.WriteThenRead | butil/recordio.cc:221-349 | any number of records written behind any bytes and read from behind them: unless an allocation fails or the refs become too many, those not too long come back in order and nothing else, whatever buffers their metas and payloads are in |
| BlockGroups.InvNext | butil/resource_pool_inl.h:386-436 | every atomic step of add_block and add_block_group keeps the invariant on slots, counters and groups, and claimed slots only grow |
| BlockGroups.DistinctIndices | butil/resource_pool_inl.h:386-413 | in every run of any number of threads two successful calls get different indices |
| BlockGroups.FullStaysFull | butil/resource_pool_inl.h:398-408 | a group that counted all its slots once never counts fewer, in spite of overshooting and stepping back |
| BlockGroups.AllButLastFull | butil/resource_pool_inl.h:417-436 | every group before the last is full |
| BlockGroups.IndexLeadsToBlock | butil/resource_pool_inl.h:259-278 | the index a call returned leads to its block in all later states |
| ResourcePools.Moves | butil/resource_pool_inl.h:165-241 | all events but the making of an item only move ids about |
| ResourcePools.InvAfter | butil/resource_pool_inl.h:165-241 | every event keeps each item in one place, blocks private to threads, and chunks non-empty and within their size |
| ResourcePools.Ownership | butil/resource_pool_inl.h:165-241 | in every run each constructed item is with one caller, in one free list, in one chunk, or lost, and nothing else is anywhere, provided new block indices are fresh |
| ResourcePools.NothingLost | butil/resource_pool_inl.h:148-155 | items are lost only when a thread ends and its chunk cannot be allocated |
| ResourcePools.GetChoice | butil/resource_pool_inl.h:165-205 | a get goes on in every state: from the own list whenever that has something, otherwise from a chunk or a block |
| ResourcePools.ReturnChoice | butil/resource_pool_inl.h:225-241 | an id that is held can always be returned, to the own list or to the chunks and never both ways |
| ResourcePools.ReturnThenGet | butil/resource_pool_inl.h:225-241 | the id last returned is the next one got, and everything is as it was |
| ResourcePools.ChunkTaken | butil/resource_pool_inl.h:508-526 | a full list that one thread gives up is taken over whole, in order, by the next thread that looks, and nothing is constructed |
| ResourcePools.EmptyChunk | butil/resource_pool_inl.h:173-182 | with a chunk size of zero: the run in which a thread takes an id from an empty chunk: it reads the word below the list, its length of 2^64 - 1, and holds an item that was never constructed |
| ResourcePools.OwnershipExactly | butil/resource_pool_inl.h:165-241 | each item is in one place in all runs exactly when the chunk size is at least one |
| ResourceSystem.InvNext | butil/resource_pool_inl.h:165-241 | every step of the joined machine, in which threads get and return items while others are in add_block, keeps both invariants, and the blocks of the pools are those in the groups |
| ResourceSystem.FreshIndex | butil/resource_pool_inl.h:386-413 | the index a new block gets has not been returned before |
| ResourceSystem.Ownership | butil/resource_pool_inl.h:165-436 | in every run of the joined machine each item is in one place; nothing is assumed of the indices of new blocks |
| ResourceSystem.AddressExactly | butil/resource_pool_inl.h:259-278 | address_resource, going through the block groups, finds exactly the items constructed, in every state of every run |
| ResourceSystem.GetAddresses | butil/resource_pool_inl.h:165-278 | get delivers an id nobody holds, and from then on address_resource leads through the groups to the item it returned |
| Wildcards.LastStarDecides | butil/logging.cc:1157-1189 | having come to a star, giving an earlier star more cannot help |
| Wildcards.Wildcmp | butil/logging.cc:1157-1189 | the matcher that returns to the last star only agrees with the recursive definition of matching on all patterns and strings |
| Wildcards.MatchesConcat | butil/logging.cc:1157-1189 | a pattern in two parts matches what the parts match one behind the other |
| Wildcards.OneSign | butil/logging.cc:1157-1189 | a star matches everything, a question mark any one character, another sign itself |
| VModules.Build | butil/logging.cc:1194-1228 | exact names keep their last level and patterns are kept last first |
| VModules.FirstIsLast | butil/logging.cc:1223-1226 | trying the reversed patterns from the front finds the last one written |
| VModules.FindVerboseLevel | butil/logging.cc:1230-1260 | by the places of the entries: the level of the last one that is the module's name, whatever else there is; else of the last one that is its full name; else of the last pattern that matches either; none exactly when there is none of these |
| VModules.LevelExactly | butil/logging.cc:1230-1260 | that description has exactly one answer, which is the one of the recursive rule |
| VLogSites.InvAfter | butil/logging.cc:1291-1325 | every step of adders, of either reset and of FLAGS_v keeps every site at the level that the list and the default it was last given say, behind the walk of a reset and outside one |
| VLogSites.RightExactly | butil/logging.cc:1280-1289 | in every run, outside a reset, a site is right exactly when the current module list has a level for it or FLAGS_v is the default it was last given |
| VLogSites.NothingMissed | butil/logging.cc:1344-1373 | in every run without a change of FLAGS_v, outside a reset, every site carries the level of the current module list |
| VLogSites.VerboseExactly | butil/logging.cc:1400-1424 | after the walk of on_reset_verbose and the assignment of the new value, a site is right exactly when the list has a level for it, it was there when the walk started, or the value was the old one |
| VLogSites.MissedSite | butil/logging.cc:1400-1424 | a run in which a site is inserted between that walk and the assignment, and ends up with the wrong level |
| VLogSites.SitesStay | butil/logging.cc:1280-1289 | no site is dropped or renamed |
| VLogSites.InsertExactly | butil/logging.cc:1291-1325 | a site is inserted exactly when list and default are those it was given its level from, and is then right exactly when the list at that address gives it the same level as before |
| VLogSites.FreshExactly | butil/logging.cc:1291-1306 | the condition on a new list's address is exact: without it some call under way inserts a wrong site |
| VLogSites.StaleSite | butil/logging.cc:1375-1389 | a run in which the address of a list comes back while a call remembers it, and a site ends up with the wrong level |
| Crc32c.FeedByteEight | butil/crc32c.cc:390-393 | eight message bits one at a time are one byte at once |
| Crc32c.Step1Feeds | butil/crc32c.cc:390-393 | the table step is the definition for one byte |
| Crc32c.Slow4Feeds | butil/crc32c.cc:333-340 | the four tables give the definition for four bytes |
| Crc32c.SlowCrc32 | butil/crc32c.cc:333-347 | eight bytes are consumed as the definition says |
| Crc32c.Extend | butil/crc32c.cc:379-422 | for all data, lengths and start addresses the result is the bitwise CRC |
| Crc32cRemainder.CrcIsRemainder | butil/crc32c.cc:379-422 | inverted, the CRC is the one and only remainder of dividing the message times x^32, its first 32 coefficients inverted, by the generator polynomial |
| Crc32cAnswers.Entries3 | butil/crc32c.cc:223-288 | the entries of the last table for the single bits; the other three alike |
| Crc32cAnswers.EntriesXor | butil/crc32c.cc:25-288 | all other entries of the four tables follow from those |
| Crc32cAnswers.Ascending | butil/crc32c.cc:379-422 | the bytes 0 to 31 have the CRC 0x46DD794E |
| Crc32cAnswers.Descending | butil/crc32c.cc:379-422 | the bytes 31 to 0 have the CRC 0x113FDB5C |
| Crc32cAnswers.Zeros | butil/crc32c.cc:379-422 | 32 bytes of zero have the CRC 0x8A9136AA |
| Crc32c.CrcConcat | butil/crc32c.h:21-24 | extending by one piece and then another is extending by both |
| Crc32c.MaskInverse | butil/crc32c.h:38-48 | masking and unmasking undo each other |
| Crc32cAnswers.MaskAnswers | butil/crc32c.h:38-48 | the masks of 0, 1 and 0x8000 |
| MersenneTwister.TemperBijection | base/random.cc:119-123 | tempering is a bijection on words |
| MersenneTwister.Random.InitGenrand | base/random.cc:47-60 | the array holds the first 624 words of the sequence of the seed |
| MersenneTwister.Random.Renew | base/random.cc:103-112 | rewriting the array in place gives the next 624 words of the recurrence, the wrapped-around last one included |
| MersenneTwister.Random.GenrandInt32 | base/random.cc:92-126 | the n-th value after seeding is the tempered word 624 + n of the recurrence; without a seed that of the default seed |
| MersenneAnswers.FirstValues | base/random.cc:92-126 | the first two values for the default seed are 3499211612 and 581869302 |
| MinHeaps.RootLeast | base/min_heap.h:80-81 | nothing in an ordered heap is smaller than its root |
| MinHeaps.MinHeap.ShiftUp | base/min_heap.h:147-158 | the element finds its place upwards: order restored, same elements, every index right |
| MinHeaps.MinHeap.ShiftDown | base/min_heap.h:160-174 | the same downwards |
| MinHeaps.MinHeap.Top | base/min_heap.h:80-81 | a least element, or null exactly when the heap is empty |
| MinHeaps.MinHeap.Reserve | base/min_heap.h:130-145 | room for as many elements as asked, the capacity at least doubling when it grows; or -1 exactly when more was needed and could not be had |
| MinHeaps.MinHeap.Push | base/min_heap.h:83-91 | the elements grow by the new one, order and indices kept |
| MinHeaps.MinHeap.Pop | base/min_heap.h:93-104 | a least element leaves with index -1, all others stay |
| MinHeaps.MinHeap.Erase | base/min_heap.h:112-128 | exactly that element leaves with index -1, wherever it is; -1 exactly when it is in no heap |
| ObserverLists.Iterator.constructor | butil/observer_list.h:82-89 | an iterator joins those under way; the list keeps its observers |
| ObserverLists.Iterator.GetNext | butil/observer_list.h:96-105 | slots are handed out in order, each at most once, never a removed observer and in the mode for existing ones none added later; at the end every observer that stayed was handed out exactly once; nothing of a list that is gone |
| ObserverLists.Iterator.End | butil/observer_list.h:91-94 | the last iterator clears empty slots away, keeping the observers in order; a list that is gone is left alone |
| ObserverLists.ObserverList.Destroy | butil/observer_list.h:65-66 | the list goes while iterators are under way, which stay right |
| ObserverLists.ObserverList.AddObserver | butil/observer_list.h:119-126 | a new observer comes last, one already there changes nothing; iterators under way stay right |
| ObserverLists.ObserverList.RemoveObserver | butil/observer_list.h:129-139 | the observer is gone and the others stay in order; iterators under way stay right |
| ObserverLists.ObserverList.HasObserver | butil/observer_list.h:141-147 | true exactly when the observer is in the list |
| ObserverLists.ObserverList.Clear | butil/observer_list.h:149-158 | no observer is left; iterators under way stay right |
| ObserverLists.ObserverList.Compact | butil/observer_list.h:163-167 | exactly the empty slots go |
| UFloat16.CodesMonotone | base/byte_codec.cc:194-228 | a number has one code, and larger numbers no smaller one |
| UFloat16.CodeOfValue | base/byte_codec.cc:83-114 | every 16-bit code is the code of its value |
| UFloat16.SmallError | base/byte_codec.cc:194-228 | up to the maximum the value read back is not larger and less than one part in 2048 smaller |
| UFloat16.Clamped | base/byte_codec.cc:200-202 | larger numbers have the last code |
| UFloat16.Normalize | base/byte_codec.cc:208-222 | the halving loop brings the top bit exactly to position 11 and counts the shifts |
| UFloat16.Encode | base/byte_codec.cc:194-228 | the result is the largest code whose value does not exceed the number |
| UFloat16.DataWriter.WriteUFloat16 | base/byte_codec.cc:194-234 | two bytes of the code in the chosen order, or nothing changed exactly when there is no room |
| UFloat16.DataReader.ReadUFloat16 | base/byte_codec.cc:83-114 | the value of the next code, or failure with the cursor at the end exactly when two bytes are not left |
| UFloat16.ReadBack | base/byte_codec.cc:83-114 | what is read is the largest value up to what was written, and values of the format come back exactly |
| UFloat16.ByteOrder | base/byte_codec.cc:36-44 | in network order the high byte comes first, in the host's the low byte |
| UFloat16.Fields | base/byte_codec.cc:83-114 | five bits of exponent and eleven of mantissa, with a hidden bit unless the exponent is 0 |
| Arenas.Arena.Allocate | butil/arena.h:74-81 | state and region are those of the step that the properties below are about, the crash on a failed malloc for a large request included |
| Arenas.Arena.AllocateInOtherBlocks | butil/arena.cpp:76-102 | the same where the current block has no room |
| Arenas.RunWithin | butil/arena.cpp:66-102 | in every run, whatever the block sizes, the regions handed out lie within live blocks |
| Arenas.NoneForgotten | butil/arena.cpp:38-49 | every block is the current one or in the list that is freed at the end |
| Arenas.Placement | butil/arena.cpp:66-102 | in every run each request gets a region of exactly its length, behind all that its block has handed out before, if the current block has room or malloc a block, and nothing otherwise; a new block was in no earlier state; the process crashes exactly on a large request without memory |
| Arenas.NewBlocks | butil/arena.cpp:66-102 | a large request gets a block of exactly its size beside the current one, a small one a new current block of the block size |
| Arenas.GrowthExactly | butil/arena.cpp:82-84 | the block size is the initial one doubled as often as the current block was replaced, up to the maximum |
| ArenaSizes.UnsafeExactly | butil/arena.h:51-58 | for a block and a largest first cut, whether some first cut leads to an overlap is decided by the size modulo 2^32 |
| ArenaSizes.DisjointExactly | butil/arena.cpp:66-102 | for all initial and maximal block sizes: in all runs the regions share no byte exactly when every block size that can come up is safe |
| ArenaSizes.SmallSafe | butil/arena.h:51-58 | sizes up to 2^32 are safe |
| ArenaSizes.OneSize | butil/arena.h:51-58 | a single size between 2^32 and 2^33 is safe exactly when what exceeds 2^32 is at least a quarter of it |
| ArenaSizes.WellUsedExactly | butil/arena.cpp:76-84 | for all sizes: in all runs, failed allocations included, every block no longer cut from has less than a quarter unused, exactly when the first block is shorter than 2^32 bytes and later ones, if there can be any, are not longer |

## Left out

- File descriptor and SSL input and output of IOBuf, snappy, protobuf and iostream wrappers: calls into foreign code.
- IOBuf copy construction and assignment, `appendv`, `resize`, `append_to`, `copy_to`, `fetch`, `equals`: the same push, share and scan steps as the operations modelled.
- `remove_tls_block_chain` at thread exit: releases a chain the way `ThreadLocal.DropChain` does.
- `RecordReader::ReadNext`: alternates appending to the buffer under its cutter (`CutterAppends.PushWhileCutting`) with `CutRecord`; the loop around them is not modelled.
- RecordReaders.RecordReader.CutRecord: hands out metas and payload as byte sequences rather than as buffers that share blocks; `Cutters.IOBufCutter.Cutn` is the sharing form. A failed CHECK is the result ABORT.
- RecordWriters.RecordWriter.WriteWithoutFlush: asks for fewer than 2^32 refs, the range of the field that counts them.
- UserBlocks.AppendUserData: promises a valid buffer for 1 to 0x5555_5555 bytes only; empty blocks and larger ones leave the invariant, beyond which only pushing and popping refs and `length()` are modelled.
- Portals.IOPortal.Commit: places the delivered bytes when their ref is made, not while the reader runs; no other owner refers to that room in between.
- Crc32c.Extend: takes the tables as functions given by their recurrence, of which `Crc32cAnswers` proves the entries that determine the others, and the portable path only, not the SSE 4.2 instructions.
- Arenas.Arena.Allocate: `size_t` sums near 2^64 do not wrap; `clear`, `swap` and the destructor are not modelled.
- ResourcePools.Ownership: takes fresh block indices as given, which `ResourceSystem.Ownership` does not; the weak memory orders of the atomics are taken as sequentially consistent in both.
- MinHeaps.MinHeap.Push: capacities are unbounded, so the doubling does not wrap; slots out of use are not kept.
- VLogSites.RightExactly: the clock of delayed deletion is not modelled; in its place an address that a call still remembers comes back only with a list of the same level (`VLogSites.Fresh`).
- VModules.Build: starts from the names and levels after the flag has been split and lowered.
- `init_by_array` and the floating point outputs of Random.
- The scripts and socket programs, and the small utilities of butil (bit arrays, endpoints, files, time): glue, or easier members of the same kinds.
