# Verified models of the boot loader's hard parts

This project models, in Dafny, the parts of the boot loader in which a small
mistake loses memory, flash contents or an upload: its two heap allocators, its
TCP connection with the HTTP server on top, the SPI NOR flash writer with the
commands that use it, the environment editor, the Kermit receiver and the TFTP
upload server. Where the source updates state in place, the model is a class
whose methods have the same branches, and each method is proved against a
specification over whole states; what is to be expected of whole runs is proved
from those.

| files | models |
|---|---|
| `Memory.dfy` | words at addresses, and circular doubly linked lists in them |
| `DlSizes.dfy`, `DlShape.dfy`, `DlLists.dfy`, `DlMoves.dfy`, `DlGive.dfy`, `DlSearch.dfy`, `DlKeep.dfy`, `DlFree.dfy`, `Dlmalloc.dfy` | the boundary-tag allocator of `common/dlmalloc.c` |
| `QShape.dfy`, `QSteps.dfy`, `QMoves.dfy`, `Qmalloc.dfy` | the block-list allocator of `common/qmalloc.c`, whole |
| `Uip.dfy` | one connection of `httpd/uip.c`, with `httpd_appcall` of `httpd/httpd.c` on it |
| `Checksum.dfy` | the Internet checksum routines |
| `Flash.dfy`, `Raspi.dfy` | a NOR flash chip, and the driver `drivers/spi_rt6855A_flash.c` |
| `SpiEnv.dfy`, `Rootfs.dfy`, `Crc.dfy` | saving the environment, resetting the root filesystem, `crc32_jffs2` |
| `Environment.dfy` | `setenv`, `getenv` and the flat environment buffer |
| `Kermit.dfy` | the Kermit receiver of `common/cmd_load.c` |
| `Tftp.dfy` | the TFTP upload server of `common/cmd_tftpServer.c` |

## How the state is modelled

* Both allocators work on one memory, a map from addresses to 32-bit words.
  Every header, footer, link field and bitmap is a word of it and is read and
  written where the C code reads and writes it. What the words mean is a ghost
  value (`Arena`, `Zone`, the bins, the free list), and the invariants `Inv` of
  `DlShape` and `QShape` tie the two together.
* The flash chip is an array of bytes with a write-enable latch, a busy bit,
  block protection and a log of commands. Erasing sets a 64 KiB sector to 0xff;
  programming clears bits within one 256-byte page. A command that comes without
  the latch, or while the chip is busy, is ignored. How each poll of the status
  ends is fixed beforehand by a schedule: the chip is ready, it is ready but the
  driver has given up just before, or it is still busy when the driver gives up.
  Any schedule is possible, and what the driver makes of it can be told from it.
* Sequence numbers are four bytes, as in the source, and compared byte by byte.
  The network is any finite sequence of timer ticks and segments, in any order,
  repeated at will.
* Width matters where the source lets numbers wrap: `request2size`, the `PAD`
  macro, `sbrk`, timers, sequence numbers, block numbers and the header sums of
  `rootfs_func` are written with their wrap-around. Elsewhere the bounds in the
  invariants rule it out.

## What the code does that its comments and documents do not say

The model follows the code; these are proved.

* `MORECORE_FAILURE` is -1, but `sbrk` reports failure with 0. If the very first
  request exceeds the arena, the failure is not noticed and top is put at
  address zero; what `malloc` then returns is 0 or 8 (`Dlmalloc.Heap.ExtendTop`,
  `Dlmalloc.Heap.Malloc`).
* `request2size` takes requests just below 2^31 for tiny ones, because the
  padded value is compared as a signed number (`DlSizes.Request2SizeFits` says
  exactly which).
* `qmalloc` pads with wrap-around: requests above 2^32 - 20 get a block that is
  too small (`QShape.PadRequestFits`, `Qmalloc.Heap.Malloc`, `Qmalloc.Heap.Memalign`).
  `realloc` pads twice when it has to move a block, so its limit is one header
  lower (`Qmalloc.PadTwiceFits`), and beyond it the words are copied over the end
  of a block that is too small (`Qmalloc.Heap.Realloc`, `Qmalloc.OverrunRun`). It
  copies the new padded size, past the old block.
* `memalign` can fail although a free block has room for an aligned payload:
  what it asks of the block in front is more than is needed
  (`Qmalloc.RefusedRun`; `Qmalloc.Heap.Memalign` and `Qmalloc.FitsIffHolds` say
  exactly when).
* The flash driver does not look at the results of the waits in its inner loops,
  and a piece of 32 bytes whose wait gave up on a busy chip is not written.
  `saveenv` then reports success over a flash that holds something else
  (`SpiEnv.LostSave`); it has saved the environment if and only if every such
  piece is all ones (`SpiEnv.Store.SaveEnv`). `raspi_erase_write` reads back what
  it has written, so its 0 can be relied on in any case.
* A root filesystem reset is lost, although it reports success, if and only if
  the marked sector begins 27 to 47 bytes behind the start of the squashfs image,
  given that the sums of the two headers do not wrap
  (`Rootfs.ResetLasts`, `Rootfs.ResetLost`).
* A variable that does not fit is deleted, and the checksum is left as it was
  (`Environment.Editor.SetEnv`).
* A Kermit frame whose length or sequence character is damaged into a control
  character takes back the packet before it (`Kermit.DamagedLength`). A
  sender that goes on while its latest transmission was rejected loses a packet
  (`Kermit.LostWhenEarly`).
* uIP accepts a FIN without data whatever its sequence number. Data that come
  with the acknowledgement of the SYN are counted but never looked at. If the
  client's window grows during a download, the FIN can take the place of the
  rest of the page (`Tcp.EarlyFin`); if it shrinks, the FIN may never be sent
  (`Tcp.NoFin`); `Tcp.NotInTime` says exactly when. Without an MSS option a new
  connection works with the segment size of the one before.
* The incremental checksum of an echo reply is wrong for the requests with
  nothing but zeros behind their type and checksum, if that is 0xfff7
  (`Checksum.EchoInput`).
* A TFTP write request that arrives after the first data makes the server start
  again and clear the image header in memory; the upload goes on, and an image
  without its header is written to flash (`TftpUpload.LateRequest`,
  `TftpUpload.Transfer.Run`).

## Model

| member | source | states |
|---|---|---|
| `DlSizes.Request2SizeFits` | uboot-5.x.x.x/common/dlmalloc.c:1297-1300 | a padded request has room for what was asked for if and only if the request is at most 2^31 - 12; the padding is whole double words and wastes less than twelve bytes |
| `DlSizes.BinIndexRange` | uboot-5.x.x.x/common/dlmalloc.c:1515-1522 | every chunk size has a bin among 2 to 126, and the small ones have one bin per size |
| `DlSizes.BinIndexMonotone` | uboot-5.x.x.x/common/dlmalloc.c:1515-1522 | larger chunks never belong in lower bins, across all seven ranges of the index |
| `DlSizes.BinSpacing` | uboot-5.x.x.x/common/dlmalloc.c:1515-1522 | two sizes of a range share a bin exactly if they share a step of 8, 64, 512, 4096, 32768 or 262144 bytes; everything above is in one bin |
| `DlSizes.BinEnds` | uboot-5.x.x.x/common/dlmalloc.c:1515-1522 | the bins of the smallest and largest size of each range |
| `DlSizes.SetBitBits` | uboot-5.x.x.x/common/dlmalloc.c:1558-1560 | marking a group of bins sets its bit and no other |
| `DlSizes.ClearBitBits` | uboot-5.x.x.x/common/dlmalloc.c:1558-1560 | clearing a group clears its bit and no other |
| `DlSizes.SomeBitFrom` | uboot-5.x.x.x/common/dlmalloc.c:2252-2267 | the test `block <= binblocks` of the search holds only if some group from there on is marked |
| `LinkedLists.UnlinkLinked` | uboot-5.x.x.x/common/dlmalloc.c:1798-1804 | taking a node out of a circular list in memory leaves the list without that node, linked both ways |
| `LinkedLists.InsertLinked` | uboot-5.x.x.x/common/dlmalloc.c:1766-1797 | linking a node between two neighbours gives the list with that node in between, linked both ways |
| `Dlmalloc.Heap.constructor` | uboot-5.x.x.x/common/dlmalloc.c:1474-1491 | the statically initialised bins are a well-formed heap with nothing in it |
| `Dlmalloc.StaticBins` | uboot-5.x.x.x/common/dlmalloc.c:1474-1491 | each of the 127 statically initialised bin headers points to itself, and top is bin 0, with no group marked |
| `Dlmalloc.Heap.Sbrk` | uboot-5.x.x.x/lib_mips/board.c:172-182 | sbrk moves the break inside the arena or leaves it and returns 0 |
| `Dlmalloc.Heap.Frontlink` | uboot-5.x.x.x/common/dlmalloc.c:1766-1797 | a free chunk is put in the bin of its size, behind the larger ones and ahead of its equals; the bin stays in descending order, is linked both ways and has its bit set |
| `DlKeep.FrontlinkKeeps` | uboot-5.x.x.x/common/dlmalloc.c:1766-1797 | the pointer writes of frontlink change no tag and no live payload, and keep all bins and their order |
| `Dlmalloc.Heap.ExtendTop` | uboot-5.x.x.x/common/dlmalloc.c:1959-2065 | top grows in place by what the request needs, in whole pages, or nothing changes because the arena is used up; the first extension of all must fit, or top ends up at address zero |
| `Dlmalloc.Heap.FirstMemory` | uboot-5.x.x.x/common/dlmalloc.c:2000-2030 | the first memory becomes one top chunk that starts the arena and ends on a page |
| `DlSearch.HigherBinFits` | uboot-5.x.x.x/common/dlmalloc.c:2278-2305 | every chunk of a bin above that of the request is large enough |
| `DlSearch.LowerBinMisses` | uboot-5.x.x.x/common/dlmalloc.c:2159-2213 | no chunk of a bin below that of the request is large enough |
| `DlSearch.ScanBin` | uboot-5.x.x.x/common/dlmalloc.c:2278-2305 | scanning a bin from its end finds the smallest chunk that is large enough, or shows that there is none |
| `DlSearch.ClearPartial` | uboot-5.x.x.x/common/dlmalloc.c:2311-2322 | the bit of a group is only cleared when all four of its bins are empty |
| `DlSearch.NextMarked` | uboot-5.x.x.x/common/dlmalloc.c:2324-2333 | skipping unmarked groups ends at a marked one and skips only empty bins |
| `DlSearch.SearchBins` | uboot-5.x.x.x/common/dlmalloc.c:2252-2337 | the search over groups of bins ends, and returns a best fit if any binned chunk fits, and nothing otherwise; every non-empty bin keeps its bit |
| `DlSearch.FoundBest` | uboot-5.x.x.x/common/dlmalloc.c:2252-2337 | the first chunk found is no larger than any binned chunk that would have done |
| `DlSearch.NothingFound` | uboot-5.x.x.x/common/dlmalloc.c:2252-2337 | when the search finds nothing, no binned chunk would have done |
| `Dlmalloc.Heap.SmallExact` | uboot-5.x.x.x/common/dlmalloc.c:2159-2184 | the two bins tried for a small request yield a best fit that leaves no usable rest, or hold none, and the search must start two bins up |
| `Dlmalloc.Heap.LargeExact` | uboot-5.x.x.x/common/dlmalloc.c:2186-2213 | the same in the one bin tried for a large request |
| `Dlmalloc.Heap.ExactStep` | uboot-5.x.x.x/common/dlmalloc.c:2159-2213 | an exact fit is a best fit; if there is none nothing has changed |
| `Dlmalloc.Heap.TakeBinned` | uboot-5.x.x.x/common/dlmalloc.c:2159-2213 | a whole chunk leaves its bin and is in use, and every other live chunk is as before |
| `DlKeep.TakeKeeps` | uboot-5.x.x.x/common/dlmalloc.c:2174-2181 | unlinking a chunk and setting the PREV_INUSE bit behind it keeps the heap well formed |
| `Dlmalloc.Heap.FromRemainder` | uboot-5.x.x.x/common/dlmalloc.c:2215-2245 | the last remainder serves the request if it is large enough, and is otherwise put in the bin of its size |
| `DlKeep.SplitRemainder` | uboot-5.x.x.x/common/dlmalloc.c:2222-2231 | splitting the last remainder keeps the heap well formed, with the rest as the new last remainder |
| `DlKeep.ExhaustKeeps` | uboot-5.x.x.x/common/dlmalloc.c:2233-2240 | using up the last remainder keeps the heap well formed |
| `Dlmalloc.Heap.SplitOrTake` | uboot-5.x.x.x/common/dlmalloc.c:2285-2303 | the chunk found is split if the rest can stand alone; the heap stays well formed either way |
| `DlKeep.SplitBinned` | uboot-5.x.x.x/common/dlmalloc.c:2285-2295 | splitting a binned chunk keeps the heap well formed, with the rest as last remainder |
| `Dlmalloc.Heap.FromBins` | uboot-5.x.x.x/common/dlmalloc.c:2252-2337 | the bins serve a request with a best fit, or hold nothing that fits |
| `Dlmalloc.Heap.FromTop` | uboot-5.x.x.x/common/dlmalloc.c:2340-2364 | top serves the request, after it was extended if need be; it fails only when top is too small and sbrk refuses |
| `DlKeep.CarveKeeps` | uboot-5.x.x.x/common/dlmalloc.c:2359-2362 | cutting a chunk off top keeps the heap well formed |
| `Dlmalloc.Heap.Malloc` | uboot-5.x.x.x/common/dlmalloc.c:2133-2366 | a chunk comes back that was not in use, has room for the padded request, and leaves all other live chunks and their contents alone; an exact fit of the bins tried first is taken before the last remainder, that before the best fit of the bins, and top only if nothing listed fits; the break moves only then; failure means that the arena is used up; a request of 2^31 or more is refused with nothing changed; only a first request larger than the whole arena spoils the heap |
| `Dlmalloc.Heap.Free` | uboot-5.x.x.x/common/dlmalloc.c:2394-2483 | exactly the freed chunk stops being in use; the heap stays well formed, with no free chunk beside another or beside top, and no other payload is touched; memory is given back only where a chunk before top was freed and top has grown to the threshold |
| `Dlmalloc.Heap.FreeTop` | uboot-5.x.x.x/common/dlmalloc.c:2430-2447 | a chunk before top is merged with top, together with a free chunk before it; below the trim threshold top keeps all of that, and otherwise at most a page and a smallest chunk |
| `DlFree.FreeIntoTop` | uboot-5.x.x.x/common/dlmalloc.c:2430-2443 | the tags after the merge with top are the truth again |
| `Dlmalloc.Heap.MergeBackward` | uboot-5.x.x.x/common/dlmalloc.c:2453-2463 | the free chunk in front is absorbed; it leaves its bin unless it is the last remainder |
| `Dlmalloc.Heap.MergeForward` | uboot-5.x.x.x/common/dlmalloc.c:2465-2476 | the free chunk behind is absorbed, and a last remainder behind hands its role on |
| `DlFree.FreeMerged` | uboot-5.x.x.x/common/dlmalloc.c:2449-2480 | with its new head and footer the merged chunk is one free chunk in a well-formed arena |
| `Dlmalloc.Heap.FinishFree` | uboot-5.x.x.x/common/dlmalloc.c:2479-2482 | the merged chunk goes to the bin of its size unless it is the last remainder |
| `Dlmalloc.Heap.Trim` | uboot-5.x.x.x/common/dlmalloc.c:2974-3027 | memory is given back if and only if top exceeds a page and a smallest chunk; whole pages go, at most a page and a smallest chunk stay, and nothing but the size of top changes |
| `Dlmalloc.Heap.Store` | uboot-5.x.x.x/common/dlmalloc.c:1217-1264 | a client that writes its own payload, up to the next chunk's size word, damages neither the heap nor another payload |
| `Dlmalloc.Heap.Run` | uboot-5.x.x.x/common/dlmalloc.c:1619-1734 | over any sequence of requests of any size, releases and writes the heap stays well formed if and only if the first request that is not refused fits the arena; the chunks in use are then those still held, each with room for its request unless that is above 2^31 - 12, and what was written last is still there; no request below 2^31 is refused that the arena of that moment has room for |
| `Dlmalloc.PayloadsDisjoint` | uboot-5.x.x.x/common/dlmalloc.c:1217-1264 | in a well-formed heap no word belongs to two payloads, and all lie inside the arena |
| `QShape.PadRequestFits` | uboot-5.x.x.x/common/qmalloc.c:228-232 | the padded size has room for header and request if and only if the padding does not wrap around, with at most three bytes more; a request below 8 bytes gets the smallest block, and a wrapped one less than that |
| `QShape.WalkMeetsAll` | uboot-5.x.x.x/common/qmalloc.c:86-99 | following the blocks from any one on meets each later block once, in address order, and their sizes add up to the rest of the zone |
| `QShape.AllFree` | uboot-5.x.x.x/common/qmalloc.c:158-178 | with nothing in use the zone is one free block and the free list holds just that |
| `QSteps.GrabKeeps` | uboot-5.x.x.x/common/qmalloc.c:49-60 | remove_free takes exactly that block off the free list and keeps everything else |
| `QSteps.ReleaseKeeps` | uboot-5.x.x.x/common/qmalloc.c:62-77 | insert_free puts the block first on the free list, with a truthful tag |
| `QSteps.JoinKeeps` | uboot-5.x.x.x/common/qmalloc.c:79-84 | merge_block makes one block of two neighbours; sizes still add up and the list is still linked both ways |
| `QSteps.CutKeeps` | uboot-5.x.x.x/common/qmalloc.c:86-99 | split_block makes two neighbours of one block, with both headers right |
| `Qmalloc.Heap.constructor` | uboot-5.x.x.x/common/qmalloc.c:158-178 | a new zone is one free block of all its memory |
| `Qmalloc.Heap.SearchFree` | uboot-5.x.x.x/common/qmalloc.c:101-121 | the first block on the free list that is large enough is taken; nothing is returned only if none is large enough |
| `Qmalloc.SplitBaseFits` | uboot-5.x.x.x/common/qmalloc.c:135-150 | what is left in front of an aligned payload is a whole block and brings the payload onto the alignment |
| `Qmalloc.FitsIffHolds` | uboot-5.x.x.x/common/qmalloc.c:128-140 | the test passes a block if and only if an aligned payload fits in it with nothing or a whole block in front, but for the blocks in which it would fit one alignment step nearer |
| `Qmalloc.PassedOverBlock` | uboot-5.x.x.x/common/qmalloc.c:128-140 | a block of 140 bytes at 80 holds 56 bytes at 128 with a whole block in front, and the test fails |
| `Qmalloc.Heap.SearchFreeAligned` | uboot-5.x.x.x/common/qmalloc.c:123-156 | nothing is found if and only if no free block passes the test, and otherwise the first one on the free list that does is used; the block found has an aligned payload and enough room, and what lay in front of it is a free block again, unless a wrapped size leaves less than a block; if none is found, any free block that could hold an aligned payload is one the test passes over |
| `Qmalloc.UsedWordTruth` | uboot-5.x.x.x/common/qmalloc.c:180-191 | in a well-formed heap that test says of every block whether it is in use |
| `Qmalloc.Heap.Free` | uboot-5.x.x.x/common/qmalloc.c:193-221 | exactly the freed block stops being in use, merged with its free neighbours; freeing a free block changes nothing |
| `Qmalloc.FreeKeeps` | uboot-5.x.x.x/common/qmalloc.c:193-221 | all four ways of merging keep the heap well formed without two free neighbours, and every other payload |
| `Qmalloc.Heap.Malloc` | uboot-5.x.x.x/common/qmalloc.c:223-247 | the payload is new, word-aligned, has room for the request and disturbs nothing; it comes from the first block on the free list that holds the padded size, and failure means exactly that there is none; if the padding wraps, the block is too small, but no other payload is touched |
| `QMoves.ServeKeeps` | uboot-5.x.x.x/common/qmalloc.c:239-244 | splitting the block that was taken, freeing the rest and tagging it keeps the heap well formed |
| `QMoves.WrapTooSmall` | uboot-5.x.x.x/common/qmalloc.c:232-244 | a request whose padding wraps gets a block smaller than the smallest |
| `QMoves.WrapKeeps` | uboot-5.x.x.x/common/qmalloc.c:232-244 | serving a wrapped size costs no other block in use a word |
| `Qmalloc.Heap.Memalign` | uboot-5.x.x.x/common/qmalloc.c:308-332 | the payload is a multiple of the alignment, for any power of two, and has room for the request, in the first block on the free list that passes the test; failure means exactly that none passes, and any that would hold the payload is then one the test passes over; if the padding wraps, the block is too small |
| `Qmalloc.RefusedRun` | uboot-5.x.x.x/common/qmalloc.c:308-332 | in a new heap of 168 bytes memalign refuses 40 bytes on a multiple of 64, although the only free block holds them |
| `QMoves.FrontKeeps` | uboot-5.x.x.x/common/qmalloc.c:142-150 | cutting off the unaligned front and freeing it again keeps the heap well formed |
| `Qmalloc.Heap.Realloc` | uboot-5.x.x.x/common/qmalloc.c:249-306 | the block stays where it is if it is large enough or becomes so with its free neighbour, and its words are kept; otherwise it moves with all of them, or nothing changes and no free block is large enough; if the first padding wraps, a block is left that is too small; if only the second one does, the copy overruns a block that was free, with all payloads still there before it, if and only if some free block holds the size that is left, and nothing changes otherwise |
| `Qmalloc.PadTwiceFits` | uboot-5.x.x.x/common/qmalloc.c:294-296 | a request survives the second padding if and only if it leaves room for two headers; otherwise it is taken for less than the smallest block |
| `Qmalloc.OverrunsEnd` | uboot-5.x.x.x/common/qmalloc.c:294-300 | such a copy does not stop at the end of the zone |
| `Qmalloc.OverrunRun` | uboot-5.x.x.x/common/qmalloc.c:249-306 | a new heap of 400 bytes, malloc of 16 bytes and realloc to the largest request whose first padding does not wrap: a small block is served and overrun |
| `Qmalloc.Heap.Shrink` | uboot-5.x.x.x/common/qmalloc.c:273-285 | what is left over is freed, also together with a free block behind it |
| `Qmalloc.Heap.GrowInPlace` | uboot-5.x.x.x/common/qmalloc.c:287-293 | the free block behind is absorbed and what is left over is given back |
| `Qmalloc.Heap.Move` | uboot-5.x.x.x/common/qmalloc.c:294-303 | a new block is taken, the words are copied, and the old block is freed; nothing changes exactly if no free block holds the size padded once more |
| `QMoves.Shortcut` | uboot-5.x.x.x/common/qmalloc.c:278-283 | freeing the tail of a block in use is the same as carving it off |
| `Qmalloc.MovedWhole` | uboot-5.x.x.x/common/qmalloc.c:295-300 | after the move every word of the old payload is found in the new one, and no third block has changed, although the copy reads past the old block |
| `Qmalloc.Heap.MemCopy` | uboot-5.x.x.x/common/qmalloc.c:298-298 | the word loop writes what the copy function says |
| `Qmalloc.Heap.Store` | uboot-5.x.x.x/common/qmalloc.c:223-247 | a client that writes its own payload does not damage the heap |
| `Qmalloc.Heap.Run` | uboot-5.x.x.x/common/qmalloc.c:193-332 | over any sequence of malloc, memalign, realloc, free and writes, until a padding wraps, the heap is well formed, the blocks in use are those still held, each has room for what it was last asked for, and what was written last is still there, also where realloc has moved it; a request is refused exactly if no free block of that moment will do |
| `Qmalloc.Heap.FreeAll` | uboot-5.x.x.x/common/qmalloc.c:193-221 | freeing all live payloads in any order gives back one block of the whole zone |
| `Qmalloc.BlockListIsWhole` | uboot-5.x.x.x/common/qmalloc.c:158-178 | in a well-formed heap the block list is one circle through the zone header, in address order, linked both ways, and its sizes add up to the size of the zone |
| `Qmalloc.PayloadsDisjoint` | uboot-5.x.x.x/common/qmalloc.c:223-247 | in a well-formed heap live payloads lie inside the zone and do not overlap |
| `Seqno.Add32` | uboot-5.x.x.x/httpd/uip_arch.c:43-69 | the hand-written carries add a 16-bit number to a sequence number modulo 2^32 |
| `Seqno.SameVal` | uboot-5.x.x.x/httpd/uip.c:1050-1055 | comparing four bytes compares the numbers |
| `Seqno.Increment` | uboot-5.x.x.x/httpd/uip.c:495-501 | the hand-written carries of the initial sequence number add one modulo 2^32 |
| `Tcp.Conn.AppCall` | uboot-5.x.x.x/httpd/httpd.c:430-770 | what the HTTP server does on each event: close, abort, poll, connect, acknowledgement, retransmission and new data, in this order of precedence, with the exact state of the page or the upload after each; what the scanning of incoming text finds is a parameter |
| `Tcp.Conn.StoreMore` | uboot-5.x.x.x/httpd/httpd.c:734-757 | a part of the file is stored unless the upload has failed, and the answer starts exactly when the parts reach the total |
| `Tcp.LoadStep` | uboot-5.x.x.x/httpd/httpd.c:520-757 | data behind a request begin the file, add to it, or bring the answer, and memory holds the bytes of the stream from the start of the file on |
| `Tcp.Conn.Load` | uboot-5.x.x.x/httpd/httpd.c:464-757 | over any sequence of segments and ticks from a request on, nothing with data is sent until the answer; what has come of a file is in memory, and the answer comes with the part that completes it and with none before |
| `Tcp.UpgradeStarts` | uboot-5.x.x.x/httpd/httpd.c:676-689 | the upgrade may start exactly from when the last of the answer to an upload that went well is acknowledged |
| `Tcp.FileAsks` | uboot-5.x.x.x/httpd/httpd.c:670-718 | whatever the server asks to have sent lies within the page |
| `Tcp.NotInTime` | uboot-5.x.x.x/httpd/httpd.c:670-705 | where a full acknowledgement comes with a window that what was left fits although not all of it was sent, the FIN goes out before the end of the page; where all was sent but what was left does not fit, nothing is left to send and no FIN goes out |
| `Tcp.SteadyInTime` | uboot-5.x.x.x/httpd/httpd.c:670-705 | with windows that are closed or hold a whole segment, what was left fits the window exactly if it was all sent |
| `Tcp.EarlyFin` | uboot-5.x.x.x/httpd/httpd.c:670-705 | a page of 1400 bytes asked for with a window of 1000 and acknowledged with one of 1446: the answer is a FIN with the number of byte 1000 |
| `Tcp.NoFin` | uboot-5.x.x.x/httpd/httpd.c:670-705 | the same page with a window of 1446 and then of 1000: all is sent and acknowledged, and neither this nor any further acknowledgement is answered with a FIN |
| `Tcp.Conn.AppSend` | uboot-5.x.x.x/httpd/uip.c:1278-1348 | one segment comes of what the application has asked for: reset, FIN, data, or a bare acknowledgement |
| `Tcp.Conn.FitToWindow` | uboot-5.x.x.x/httpd/uip.c:1297-1329 | a new segment is no longer than the window allows, and one that is in flight is not outgrown |
| `Tcp.Conn.AckPart` | uboot-5.x.x.x/httpd/uip.c:1061-1095 | only an acknowledgement of all that is outstanding advances snd_nxt, by exactly that much, and restarts the timer |
| `Tcp.Conn.Listen` | uboot-5.x.x.x/httpd/uip.c:912-985 | a SYN opens the connection with rcv_nxt behind it, and a download with an MSS option starts in step |
| `Tcp.Conn.ParseMss` | uboot-5.x.x.x/httpd/uip.c:967-995 | the segment size is the offered one up to the limit, or what was there before; what the walk over the options finds is a parameter |
| `Tcp.Conn.Connect` | uboot-5.x.x.x/httpd/uip.c:1108-1119 | the acknowledged SYN makes the connection established; data that come with it are handed over |
| `Tcp.RecvMore` | uboot-5.x.x.x/httpd/uip.c:1040-1055 | data that carry the expected number are the next bytes of the peer's stream, whatever was lost, repeated or cut differently before |
| `Tcp.Conn.InEstablished` | uboot-5.x.x.x/httpd/uip.c:1210-1349 | data in order are handed over once and acknowledged at once; a request or a part of an upload is answered as the server says, while a page is sent the next bytes follow when and only when all that was sent has been acknowledged, or the FIN if what was left fits the window of now; in a download whose windows are in time all of that is right |
| `Tcp.Answered` | uboot-5.x.x.x/httpd/uip.c:1338-1347 | data that are taken are acknowledged at once with the new rcv_nxt |
| `Tcp.Conn.PeerCloses` | uboot-5.x.x.x/httpd/uip.c:1190-1206 | a FIN is taken, with its data, only while nothing is outstanding; it is then answered with a FIN, and rcv_nxt counts the data and one more |
| `Tcp.FileSends` | uboot-5.x.x.x/httpd/httpd.c:670-705 | each acknowledgement is answered with the bytes that belong at the new number, or with the FIN right behind the last one |
| `Tcp.PageStarts` | uboot-5.x.x.x/httpd/httpd.c:520-526 | the answer to a GET begins with the first bytes of the page at the first number |
| `Tcp.Conn.InFinWait1` | uboot-5.x.x.x/httpd/uip.c:1363-1390 | the four ways out of FIN-WAIT-1, with data and FIN counted in rcv_nxt and acknowledged |
| `Tcp.Conn.InFinWait2` | uboot-5.x.x.x/httpd/uip.c:1392-1407 | a FIN ends FIN-WAIT-2, with data and FIN counted in rcv_nxt and acknowledged |
| `Tcp.Conn.Finish` | uboot-5.x.x.x/httpd/uip.c:1353-1361 | the acknowledged FIN of a connection the peer has closed closes it |
| `Tcp.Conn.Reset` | uboot-5.x.x.x/httpd/uip.c:1031-1037 | any reset closes the connection |
| `Tcp.Conn.Input` | uboot-5.x.x.x/httpd/uip.c:1017-1425 | every segment keeps the connection well formed: state moves along the diagram of RFC 793, the bytes handed over stay a prefix of the peer's stream with rcv_nxt the number of the next one while established, data out of order only repeat the acknowledgement, and the answer is stated for every state; whatever carries data carries all that is then outstanding, and in a download whose window is in time what is sent are the page's bytes at their numbers |
| `Tcp.Conn.Tick` | uboot-5.x.x.x/httpd/uip.c:487-584 | a timer tick keeps all of that and brings the connection one tick nearer to CLOSED; what goes out is stated exactly: nothing until the timer has run down, and then the SYN, the bytes in flight or the FIN once more, or the reset |
| `Tcp.Conn.Expire` | uboot-5.x.x.x/httpd/uip.c:516-573 | an expired timer gives up with a reset after the allowed number of retransmissions, or backs off and sends again what was outstanding |
| `Tcp.Conn.Retransmit` | uboot-5.x.x.x/httpd/uip.c:557-566 | the application makes up the same bytes for the same numbers, and they are sent |
| `Tcp.Conn.Resend` | uboot-5.x.x.x/httpd/uip.c:510-566 | where nothing comes in, what is in flight of a page goes out again with the same number as soon as the timer has run down |
| `Tcp.BackoffDoubles` | uboot-5.x.x.x/httpd/uip.c:535-538 | the timeout is 3 ticks at first and doubles four times |
| `Tcp.Conn.Poll` | uboot-5.x.x.x/httpd/uip.c:574-583 | an idle connection is polled, and aborted after a hundred polls |
| `Tcp.OutstandingSooner` | uboot-5.x.x.x/httpd/uip.c:510-573 | with something outstanding every tick shortens the time that is left by one |
| `Tcp.WaitingSooner` | uboot-5.x.x.x/httpd/uip.c:503-507 | so does every tick in TIME-WAIT and FIN-WAIT-2 |
| `Tcp.PollSooner` | uboot-5.x.x.x/httpd/httpd.c:456-462 | and every poll |
| `Tcp.RemainingBound` | uboot-5.x.x.x/httpd/uip.c:502-584 | the time left is at most 501 ticks from any state, and none exactly when the connection is closed |
| `Tcp.WaitsAre` | uboot-5.x.x.x/httpd/uip.c:502-584 | with a segment just sent it is 249 ticks, with a SYN just answered 28, in TIME-WAIT 120, and with nothing to do 101 |
| `Tcp.Conn.Reclaim` | uboot-5.x.x.x/httpd/uip.c:502-584 | without further segments the connection is closed after exactly the time left |
| `Tcp.Conn.Hear` | uboot-5.x.x.x/httpd/uip.c:1017-1425 | over any sequence of arbitrary segments and ticks what was handed over is a growing prefix of the peer's stream, and while established rcv_nxt is the number of the byte behind it |
| `Tcp.Conn.Serve` | uboot-5.x.x.x/httpd/uip.c:1017-1425 | over any sequence of ticks and of segments in any order and number, everything sent is right as long as the client only asks for the page and acknowledges, and no full acknowledgement comes with a window that makes the server take the wrong end for the last; with steady windows none does; what was handed over is a prefix of its stream; only one segment is in flight: of two outputs with data the second repeats the first, or the first has been acknowledged to its end in between |
| `Tcp.OneMore` | uboot-5.x.x.x/httpd/uip.c:1061-1095 | one more event keeps that: what was sent stays outstanding, or is acknowledged to its end, or no more will follow |
| `Checksum.Chksum` | uboot-5.x.x.x/httpd/uip_arch.c:71-96 | the running sum with end-around carry is the residue of the plain sum of the words, for even and odd lengths |
| `Checksum.OddPadded` | uboot-5.x.x.x/httpd/uip_arch.c:87-93 | an odd last byte counts as the first of its word |
| `Checksum.TotalAppend` | uboot-5.x.x.x/httpd/uip_arch.c:71-96 | the sums of two parts add up if the first has even length |
| `Checksum.AddResidue` | uboot-5.x.x.x/httpd/uip_arch.c:76-84 | adding with end-around carry is addition modulo 0xffff with 0xffff for zero |
| `Checksum.FillIp` | uboot-5.x.x.x/httpd/uip.c:1484-1485 | once the complement is filled in, the header sums to 0xffff; no other byte has changed |
| `Checksum.KnownHeader` | uboot-5.x.x.x/httpd/uip.c:1484-1485 | for one header the bytes of the checksum are 0xb8 and 0x61 |
| `Checksum.TcpChksum` | uboot-5.x.x.x/httpd/uip_arch.c:105-143 | the TCP sum is that of the bytes of pseudo header, header and data, one behind the other |
| `Checksum.FillTcp` | uboot-5.x.x.x/httpd/uip.c:1470-1471 | once the complement is filled in, pseudo header, header and data sum to 0xffff; no other byte has changed |
| `Checksum.EchoInput` | uboot-5.x.x.x/httpd/uip.c:718-724 | the reply to any echo request differs in type and checksum only, keeps its sum congruent modulo 0xffff and so has a checksum congruent to the recomputed one; the reply to a valid request checks out if and only if the request was not all zeros behind the checksum 0xfff7 |
| `Transfer.Pack` | uboot-5.x.x.x/drivers/spi_rt6855A_flash.c:281-296 | byte k of the buffer is byte k of the data registers |
| `Transfer.Unpack` | uboot-5.x.x.x/drivers/spi_rt6855A_flash.c:305-317 | byte k of the data registers is byte k of the buffer |
| `Transfer.KnownRegisters` | uboot-5.x.x.x/drivers/spi_rt6855A_flash.c:305-317 | the low byte of the first register is the first byte |
| `Transfer.Through` | uboot-5.x.x.x/drivers/spi_rt6855A_flash.c:281-317 | packing and unpacking undo each other, up to the 32 bytes the registers hold |
| `Raspi.FromEnd` | uboot-5.x.x.x/drivers/spi_rt6855A_flash.c:672-682 | a negative offset counts from the end of the chip |
| `Raspi.Program32` | uboot-5.x.x.x/drivers/spi_rt6855A_flash.c:860-872 | one page-program command changes only its own bytes, and programs them if the chip is enabled and idle |
| `Raspi.WritePage` | uboot-5.x.x.x/drivers/spi_rt6855A_flash.c:848-884 | a page is written by commands of at most 32 bytes, each behind its own write-enable, that cover it in order |
| `Raspi.WritesOutMore` | uboot-5.x.x.x/drivers/spi_rt6855A_flash.c:818-885 | the commands of one page and then of the next cover both in order |
| `Raspi.Unprotect` | uboot-5.x.x.x/drivers/spi_rt6855A_flash.c:572-588 | the protection is lifted on an idle chip |
| `Raspi.Write` | uboot-5.x.x.x/drivers/spi_rt6855A_flash.c:790-897 | -1 if and only if the range is out of bounds or the first wait is not good; otherwise the commands are the exact pieces of the range in order, each taken if and only if the schedule has the chip idle in time, and the flash is what those taken make of it |
| `Raspi.WrittenOnBlank` | uboot-5.x.x.x/drivers/spi_rt6855A_flash.c:848-884 | on blank flash the data are there if and only if every piece that was not taken is all ones |
| `Raspi.StartThere` | uboot-5.x.x.x/drivers/spi_rt6855A_flash.c:848-884 | the first n bytes are there if and only if the pieces of them that the schedule has the chip miss are all ones |
| `Raspi.EraseOne` | uboot-5.x.x.x/drivers/spi_rt6855A_flash.c:621-632 | the sector of the offset is erased, unless the wait in front gave up; the wait behind the command does not matter |
| `Raspi.Erase` | uboot-5.x.x.x/drivers/spi_rt6855A_flash.c:684-725 | for any offset and length 0 if and only if every wait in front of an erase command is good; the flash is then the old one with so many sectors from that of the offset on erased, and on the chip those are blank and nothing else has changed |
| `Raspi.Read` | uboot-5.x.x.x/drivers/spi_rt6855A_flash.c:727-788 | reading in pieces of 32 bytes returns exactly the range asked for |
| `Raspi.RewriteSector` | uboot-5.x.x.x/drivers/spi_rt6855A_flash.c:945-974 | success means that the sector holds the block and nothing else has changed; which wait failed tells which error comes back |
| `Raspi.MergePiece` | uboot-5.x.x.x/drivers/spi_rt6855A_flash.c:920-981 | a piece that does not fill its sector is spliced into it; -1 exactly if memory was refused |
| `Raspi.WholeBlocks` | uboot-5.x.x.x/drivers/spi_rt6855A_flash.c:982-1026 | whole sectors are replaced; -1 exactly if memory was refused, or the erasure or the first wait of the write failed |
| `Raspi.SectorSpliced` | uboot-5.x.x.x/drivers/spi_rt6855A_flash.c:933-950 | a sector rewritten with a piece of it replaced is a splice of the flash |
| `Raspi.SpliceMore` | uboot-5.x.x.x/drivers/spi_rt6855A_flash.c:978-980 | two adjoining splices are one |
| `Raspi.BlankThenProgrammed` | uboot-5.x.x.x/drivers/spi_rt6855A_flash.c:945-950 | programming blank bytes stores them as they are |
| `Raspi.EraseWrite` | uboot-5.x.x.x/drivers/spi_rt6855A_flash.c:899-1030 | returning 0 means that the flash is its old contents with the buffer spliced in, for any alignment and length; within bounds it returns 0 unless a wait gave up or `malloc` refused one of the blocks it was asked for; whatever it returns, only sectors that the range reaches have changed, counted modulo the chip |
| `SpiEnv.Store.SaveEnv` | uboot-5.x.x.x/common/env_spi.c:75-128 | 0 if and only if the waits that are looked at are good; the flash then holds the environment if and only if every piece of it whose wait gave up on the busy chip is all ones, and the sector is spliced if and only if that is so of all its pieces; no other sector changes whatever happens |
| `SpiEnv.StoredIs` | uboot-5.x.x.x/common/env_spi.c:51-71 | the stored checksum is the first four bytes at 0x30000, and the data are the 4092 bytes behind it |
| `SpiEnv.Store.Init` | uboot-5.x.x.x/common/env_spi.c:51-71 | the stored environment is used if its checksum is right, and the defaults otherwise; it fails exactly if memory is refused or the wait is not good |
| `SpiEnv.SaveThenInit` | uboot-5.x.x.x/common/env_spi.c:51-128 | what was reported saved with a current checksum is what the next start finds, valid and identical, if and only if every piece of it whose wait gave up on the busy chip is all ones; so always if no wait gave up |
| `SpiEnv.LostSave` | uboot-5.x.x.x/common/env_spi.c:75-128 | a schedule under which saveenv returns 0 and the flash does not hold the environment |
| `Rootfs.WriteEof` | uboot-5.x.x.x/common/cmd_rootfs.c:82-93 | the sector is blank but for four marks at its start, and nothing else changes |
| `Rootfs.RootfsFunc` | uboot-5.x.x.x/common/cmd_rootfs.c:104-189 | the result is that of examining the flash; only a reset of a filesystem that can be cleared changes anything, and that one sector; also when a wait gives up no more than one sector changes, and none on an error |
| `Rootfs.NodeExamined` | uboot-5.x.x.x/common/cmd_rootfs.c:177-189 | a node with the jffs2 magic is good if and only if its last four bytes are the CRC of the first eight, low byte first, and gives -7 otherwise |
| `Rootfs.UsedFlashExamined` | uboot-5.x.x.x/common/cmd_rootfs.c:104-189 | a flash with a cleanmarker, byte by byte, behind its image is one that can be cleared |
| `Rootfs.ResetUsed` | uboot-5.x.x.x/common/cmd_rootfs.c:104-189 | on that flash a reset returns 0 and marks the sector, and every check behind it finds the mark |
| `Rootfs.SectorBehindImage` | uboot-5.x.x.x/common/cmd_rootfs.c:121-157 | if the header sums do not wrap, the marked sector is wholly behind the squashfs image and below the end of the root filesystem |
| `Rootfs.StaysCleared` | uboot-5.x.x.x/common/cmd_rootfs.c:159-168 | if the headers are outside the marked sector, every later examination finds the mark in the same place |
| `Rootfs.CoveredHeadersOutside` | uboot-5.x.x.x/common/cmd_rootfs.c:143-157 | an image whose size covers its own header keeps the headers outside |
| `Rootfs.ResetLasts` | uboot-5.x.x.x/common/cmd_rootfs.c:135-168 | the mark is found again in the same place if and only if the sector does not begin 27 to 47 bytes behind the start of the image; where it begins 28 to 47 bytes behind, the next examination reports a wrong size |
| `Rootfs.GapPastMagic` | uboot-5.x.x.x/common/cmd_rootfs.c:137-168 | a sector that can be marked begins at least 4 bytes behind the start of the image |
| `Rootfs.LostFlashExamined` | uboot-5.x.x.x/common/cmd_rootfs.c:104-189 | a flash with the marks 30 bytes behind the start of its image passes the examination |
| `Rootfs.ResetLost` | uboot-5.x.x.x/common/cmd_rootfs.c:104-189 | on that flash a reset reports success and every check behind it an error |
| `Rootfs.NewSize` | uboot-5.x.x.x/common/cmd_rootfs.c:143-147 | what the size field reads as once the marks or the erased bytes cover it |
| `Rootfs.ResetThenCheck` | uboot-5.x.x.x/common/cmd_rootfs.c:104-189 | after a reset every check returns 1 where the mark lasts, an error where it does not, and at a distance of 27 bytes the result for the sector at the wrapped sum of start and size |
| `Crc.StepsLinear` | uboot-5.x.x.x/common/cmd_rootfs.c:44-59 | shifting and dividing is linear over exclusive or, for any number of steps |
| `Crc.BitsAtOnce` | uboot-5.x.x.x/common/cmd_rootfs.c:44-59 | feeding bits one by one is the same as feeding them at once |
| `Crc.ByteStep` | uboot-5.x.x.x/common/cmd_rootfs.c:71-74 | one table look-up does eight steps of the division |
| `Crc.MakeCrcTable` | uboot-5.x.x.x/common/cmd_rootfs.c:44-59 | the table holds the eight steps of every byte |
| `Crc.Crc32Jffs2` | uboot-5.x.x.x/common/cmd_rootfs.c:61-78 | for every byte string the table-driven sum is the remainder of the bit-at-a-time division |
| `EnvMap.LookupWith` | uboot-5.x.x.x/common/cmd_nvedit.c:284-315 | getenv after setenv gives the value set, and every other variable its old one |
| `EnvMap.LookupWithout` | uboot-5.x.x.x/common/cmd_nvedit.c:249-263 | a deleted variable is gone and every other keeps its value |
| `EnvMap.OrderKept` | uboot-5.x.x.x/common/cmd_nvedit.c:249-263 | deleting or replacing keeps the order of the other variables |
| `EnvMap.WithIsMap` | uboot-5.x.x.x/common/cmd_nvedit.c:284-315 | a set keeps names unique and well formed |
| `EnvMap.WithoutIsMap` | uboot-5.x.x.x/common/cmd_nvedit.c:249-263 | so does a deletion |
| `EnvMap.OneEnd` | uboot-5.x.x.x/common/cmd_nvedit.c:298-301 | two NULs in a row mark the end of the buffer and nothing else |
| `Environment.Editor.EnvCrcUpdate` | uboot-5.x.x.x/common/env_common.c:129-132 | the stored checksum is that of the data |
| `Environment.Editor.EnvMatch` | uboot-5.x.x.x/common/cmd_nvedit.c:574-584 | a name matches an entry if and only if it is the whole name of it, also when it is a prefix of it |
| `Environment.Editor.Find` | uboot-5.x.x.x/common/cmd_nvedit.c:174-179 | the search stops at the variable of that name, or finds none |
| `Environment.Editor.GetEnv` | uboot-5.x.x.x/common/cmd_nvedit.c:503-523 | the index returned is where the current value stands, or none if there is no such variable |
| `Environment.Editor.Delete` | uboot-5.x.x.x/common/cmd_nvedit.c:249-263 | moving the rest of the buffer over an entry removes that variable and keeps the others as they are |
| `Environment.Editor.EndOfStrings` | uboot-5.x.x.x/common/cmd_nvedit.c:284-289 | the place to append is right behind the last entry |
| `Environment.Editor.Append` | uboot-5.x.x.x/common/cmd_nvedit.c:303-315 | the new entry and the double NUL are written there and nothing else |
| `Environment.FitsIs` | uboot-5.x.x.x/common/cmd_nvedit.c:290-303 | the overflow test asks exactly whether the new environment fits |
| `Environment.Editor.SetEnv` | uboot-5.x.x.x/common/cmd_nvedit.c:153-401 | the buffer always holds an ordered map within its size: a set replaces or appends, a delete removes, both with a current checksum; a set that does not fit returns 1 and removes only that variable; serial# and ethaddr once set, the console names and baudrate are refused as in the source, with nothing changed |
| `Environment.Editor.SetAllThenGet` | uboot-5.x.x.x/common/cmd_nvedit.c:153-523 | after any sequence of sets and deletes getenv finds the value that replaying them on the map gives |
| `Environment.KnownBuffer` | uboot-5.x.x.x/common/cmd_nvedit.c:284-315 | the bytes of the buffer after two variables were set |
| `KermitCoding.UnquoteAll` | uboot-5.x.x.x/common/cmd_load.c:559-567 | unquoting gives back every file, whatever its bytes and the quote character |
| `KermitCoding.EncodeAccepted` | uboot-5.x.x.x/common/cmd_load.c:588-599 | what a sender frames is accepted, with its number, type and data |
| `KermitCoding.EncodeLongAccepted` | uboot-5.x.x.x/common/cmd_load.c:888-925 | a long packet, with two length characters and a check of its header, is accepted with its number, type and data |
| `KermitCoding.CheckIsBits` | uboot-5.x.x.x/common/cmd_load.c:569-577 | the check is (s + ((s & 0xc0) >> 6)) & 0x3f, over bits of the sum |
| `KermitCoding.DamageNoticed` | uboot-5.x.x.x/common/cmd_load.c:938-943 | two frames that differ in one character before the check, and there in the two highest bits alone, are not both accepted |
| `KermitCoding.KnownFrames` | uboot-5.x.x.x/common/cmd_load.c:854-942 | a break packet is accepted with its check and rejected with another |
| `KermitCoding.KnownLong` | uboot-5.x.x.x/common/cmd_load.c:854-942 | a long packet with one byte of data, character by character, is accepted |
| `KermitCoding.KnownEscapes` | uboot-5.x.x.x/common/cmd_load.c:559-567 | what some escaped characters stand for |
| `KermitCoding.FeedAppend` | uboot-5.x.x.x/common/cmd_load.c:680-695 | unquoting may be interrupted anywhere, also behind a quote character |
| `Kermit.Receiver.DataSave` | uboot-5.x.x.x/common/cmd_load.c:634-674 | a checkpoint takes the write pointer and the escape flag |
| `Kermit.Receiver.DataRestore` | uboot-5.x.x.x/common/cmd_load.c:640-678 | going back restores both |
| `Kermit.Receiver.DataChar` | uboot-5.x.x.x/common/cmd_load.c:680-695 | one character of data is unquoted and stored |
| `Kermit.Receiver.GetPacket` | uboot-5.x.x.x/common/cmd_load.c:854-946 | a frame is accepted if and only if its characters, header check, check and end are right; the checkpoint is taken or restored by its number |
| `Kermit.Receiver.OnFrame` | uboot-5.x.x.x/common/cmd_load.c:825-964 | a rejected packet leaves pointer and escape flag as before it, an accepted one adds its data once however often it comes, and each is answered accordingly |
| `Kermit.KnownSend` | uboot-5.x.x.x/common/cmd_load.c:703-778 | an S packet, character by character, sets the quote character to its sixth parameter |
| `Kermit.KnownBreak` | uboot-5.x.x.x/common/cmd_load.c:854-952 | a new receiver has # as its quote, and a break packet, character by character, ends the transfer and is acknowledged |
| `Kermit.Arrive` | uboot-5.x.x.x/common/cmd_load.c:877-886 | a transmission of the packet that is due brings the receiver to the state for it |
| `Kermit.StepSame` | uboot-5.x.x.x/common/cmd_load.c:877-886 | a repeated packet changes nothing |
| `Kermit.StepNext` | uboot-5.x.x.x/common/cmd_load.c:877-886 | the next packet goes on from an accepted one |
| `Kermit.LostWhenEarly` | uboot-5.x.x.x/common/cmd_load.c:877-886 | if the sender goes on behind a rejected repetition, the packet before is lost |
| `Kermit.DamagedLength` | uboot-5.x.x.x/common/cmd_load.c:857-866 | a length character damaged into a control character takes back the packet before |
| `Kermit.Receiver.Receive` | uboot-5.x.x.x/common/cmd_load.c:790-966 | with a stop-and-wait sender the transfer ends exactly when the last packet was accepted, and memory then holds the unquoted concatenation of the data packets |
| `Kermit.AfterIsConcatenation` | uboot-5.x.x.x/common/cmd_load.c:680-695 | where packets end does not matter |
| `Kermit.FileArrives` | uboot-5.x.x.x/common/cmd_load.c:790-966 | a file that is quoted and cut into packets in any way arrives as it was |
| `TftpServer.Server.Start` | uboot-5.x.x.x/common/cmd_tftpServer.c:407-449 | starting again clears the image header and the transfer state, but not the last block number |
| `TftpServer.Server.Handler` | uboot-5.x.x.x/common/cmd_tftpServer.c:225-405 | what each packet does: any block but the last one seen is stored at its place and answered, and a short one has the image flashed with the length reached |
| `TftpServer.Server.Timeout` | uboot-5.x.x.x/common/cmd_tftpServer.c:204-209 | the answer to a timeout is that of the state: in the request and data states the current block is acknowledged |
| `TftpUpload.WriteStores` | uboot-5.x.x.x/common/cmd_tftpServer.c:363-366 | storing a block keeps all others, and storing block 1 brings a cleared header back |
| `TftpUpload.AllStored` | uboot-5.x.x.x/common/cmd_tftpServer.c:363-366 | with every block stored, memory holds the file |
| `TftpUpload.BlocksAre` | uboot-5.x.x.x/common/cmd_tftpServer.c:363-366 | blocks are of 512 bytes, and a file of whole blocks ends with an empty one |
| `TftpUpload.Transfer.RequestArrives` | uboot-5.x.x.x/common/cmd_tftpServer.c:307-312 | a request at any time keeps sender, network and server in step |
| `TftpUpload.Transfer.PacketArrives` | uboot-5.x.x.x/common/cmd_tftpServer.c:314-393 | so does a block, in any order and number; the server acknowledges it anew only if it stores it |
| `TftpUpload.Transfer.AckArrives` | uboot-5.x.x.x/common/cmd_tftpServer.c:119-186 | the sender goes on only when its current block is acknowledged |
| `TftpUpload.Transfer.Run` | uboot-5.x.x.x/common/cmd_tftpServer.c:225-405 | over any network an image that is flashed is the sender's file if and only if, by the packets that reached the server, its header was not lost by then or is zero anyway; if no request came behind the first data it always is |
| `TftpUpload.NeverLate` | uboot-5.x.x.x/common/cmd_tftpServer.c:332-347 | if all requests come before the first data, the packets never show a late one |
| `TftpUpload.LateRequest` | uboot-5.x.x.x/common/cmd_tftpServer.c:332-347 | a request behind the first data, and one more block, have a wrong image flashed, although the sender keeps in lock step |

## Left out

- dlmalloc: realloc, memalign, calloc, mmap, the statistics, mallopt, the fencepost for a foreign sbrk and the relocation of the bins; they are build variants or add little to the invariant.
- dlmalloc arena: it begins and ends on a page and is at most 1 GiB, as the boot loader's is; the static `av_` lies below it.
- Qmalloc: alignments are powers of two, as the mask in the source presumes. The C code of realloc copies bytes, the model words.
- Qmalloc.Heap.Run: stops in front of an operation whose padding wraps around, because the client has been given less than it asked for; `Qmalloc.Heap.Malloc`, `Memalign` and `Realloc` say what that operation does.
- Heap memory: reading a word that was never written yields some value, so the copy of realloc may read past the old block.
- uIP: active open, UDP, reassembly, urgent data, statistics, IP input checks, the choice among connections and ports, the stopped flag, TCP options other than the MSS, and the value of the advertised window; the round-trip estimate is some byte.
- Tcp.Conn.Serve: assumes that the stream is shorter than 2^32 bytes and that a segment's bytes are those of the stream at its number; checksums that catch damage are not modelled there.
- Tcp.Conn.AppCall: what the scanning of incoming text finds is a parameter (`Look`): the page asked for, the length of an upload, where its file begins and how long it is, and what the check of the file says; that scanning, the check, the pages and the upgrade itself are not modelled.
- Tcp.Conn.ParseMss: the walk over the TCP options is the parameter `mssOption`, the MSS it finds or none.
- Flash: the registers below the command level, the 4-byte address mode, chip identification, timing and LEDs; a wait either ends with an idle chip or gives up.
- Raspi.Erase: a sector number beyond the chip wraps around to its beginning, as on a chip that ignores the high address bits.
- Raspi.EraseWrite: what `malloc` says to each call is the parameter `grants`; that memory is not given back on the ways out is not modelled.
- Rootfs.SectorBehindImage: requires that the header sums do not wrap, which the code does not check.
- Environment.Editor.SetEnv: what console_assign and the table of baud rates say to a new value is the parameter `accepts`; deleting `baudrate` without a value makes the source read a null pointer there, which is an ordinary answer of `accepts` in the model; what else follows a change of ethaddr, ipaddr, loadaddr, bootfile, the console or the baud rate outside the buffer is not modelled.
- Environment: askenv, printing and the location of the buffer; its crc32 is any function of the bytes.
- Kermit: S-records, baud-rate changes, padding and end-of-line of the answers, and what happens between frames; a frame begins behind its start character and has as many characters as its length says.
- Kermit.Receiver.Receive: assumes, as the source does, that length and sequence characters arrive intact, and that a frame which passes its check was not damaged.
- TFTP: ports, addresses and the read requests that set them; one sender at a time, which does not give up, and files of at most 65535 blocks. That the server goes on taking packets behind a finished upload only adds runs.
- The rest of the boot loader: USB, GPIO, Ethernet, partitions, booting and the image formats.
