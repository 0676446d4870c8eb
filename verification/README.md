# Proofs for the kernel's memory management and the font library's inflater

The project models two parts of the system and proves what they promise for all inputs.

**Memory.** `efi-stage/efi_pmm.c` turns the firmware's memory map into a bitmap allocator of 4 KiB
frames, `kernel/memory/physical.c` runs it, `kernel/memory/paging.c` builds a four-level page-table
tree out of its frames, and `kernel/kernel.c` (`init_paging`) and `kernel/memory/heap.c` (`get_heap`)
use both. The central invariant (`Paging.Sound`) says that the tables of the tree live in distinct
frames, that each hangs in exactly one entry, that none of them is free for the allocator to hand
out, and that the rights of the upper levels never take away from those of a leaf. Every mapping
function keeps it. What the processor makes of the tables is a separate definition
(`PageWalk.Walk`, after sections 4.5 and 4.6 of the Intel SDM, Volume 3A) that knows nothing of the
code; `PageTree.WalkFindsLeaf` ties the two together. On top of that, each mapping function is
proved against a relation that gives the translation of *every* page before and after, on success
and on failure, and accounts for every frame.

**Inflating.** `include/ssfn.h` holds a DEFLATE decoder (RFC 1951): canonical Huffman tables with a
9-bit fast path, a 32-bit bit buffer, copies that may overlap, stored, fixed and dynamic blocks.
`HuffmanCodes`, `Deflate` and `DeflateStream` define what a bit sequence means and say nothing of
buffers or tables; `Huffman`, `BitBuffer` and `Inflate` model the code. How it ends is proved to be
decided by the bits alone (`Inflate.ZlibDecode`): it stops where its reading asks for more bits than
are left or uses output that was never written, and exactly there; otherwise it returns exactly the
meaning of the bits, or rejects exactly what has none. That meaning is in turn tied to a
writer of streams that follows RFC 1951: what inflates is exactly what can be written
(`StreamWriter.StreamsAreWritten`), and the tables and the fixed code that both use are proved to be
the closed formulas (`FixedCodes`). The kernel's own build leaves this code
out (`kernel/drivers/ssfn_fb.c:4`); it is part of the library the repository ships.

## How it is laid out

| file | content |
|---|---|
| `Bits.dfy` | the bitwise operators of C on unsigned words, and their algebra |
| `FrameSpec.dfy`, `FrameRuns.dfy` | what allocating and freeing frames means; runs of calls |
| `Physical.dfy` | the allocator: classes `Block` and `Pmm` over one bitmap array |
| `EfiPmm.dfy` | sizing the allocator and building it from a memory map |
| `PageFormat.dfy`, `PageWalk.dfy` | page-table entries, and the processor's walk |
| `PageTree.dfy`, `PageSpace.dfy`, `PageLinks.dfy` | the tree as a value, single writes, and the words of the upper levels |
| `PageRange.dfy`, `PageNeeds.dfy` | whole ranges, and the tables they need |
| `Paging.dfy`, `Heap.dfy`, `Kernel.dfy` | the mapping functions, `get_heap`, `init_paging` |
| `Boot.dfy` | from the memory map to the kernel's page tables, end to end |
| `PageTheorems.dfy` | what holds of the processor's translation afterwards |
| `HeapTheorems.dfy`, `KernelTheorems.dfy` | the bytes of a heap and of the framebuffer; concrete states |
| `PageRuns.dfy` | runs of mapping calls |
| `HuffmanCodes.dfy`, `BitStream.dfy`, `PrefixCodes.dfy` | canonical codes; bit sequences and bit reversal; codes in bit sequences |
| `Huffman.dfy`, `BitBuffer.dfy` | the decoding tables; the bit buffer and decoding one symbol |
| `Deflate.dfy`, `DeflateStream.dfy` | the meaning of compressed blocks and of whole streams |
| `FixedCodes.dfy`, `DynamicCodes.dfy` | the fixed code in closed form; writing dynamic headers |
| `StreamWriter.dfy` | writing whole streams, and that nothing else inflates |
| `InflateCuts.dfy`, `InflateSteps.dfy` | where a reading is cut off; the outcomes of the readers |
| `Inflate.dfy` | the inflater |
| `InflateTheorems.dfy` | inputs that can only be rejected, and inputs that are read beyond |
| `ByteStreams.dfy` | streams as bytes |

Machine words are natural numbers, and every operation whose result may not fit 64 (or 32, or 16)
bits says so with a remainder. The state that C updates in place is in class fields and arrays: the
blocks' fields and their shared bitmap storage, the Huffman tables, the bit buffer. Physical memory is a map
from frame addresses to tables of 512 words, and a page table is reached by its physical address.

## What the callers must see to

The contracts require what the code relies on and does not check: the firmware's regions are
aligned, end at or below 2^52 and do not overlap (section 7.2.3 of the UEFI Specification 2.10);
`flags` holds no address bit and no page-size bit; a virtual range neither wraps nor leaves its
48-bit window; `map_large_page` is called with a physical address aligned to 2 MiB. A virtual
address need not be page-aligned in any of the contracts: where it matters the contract says what
happens (`PageSpace.MapPageOutcome`, `Heap.HeapIsBacked`).

## Where the code and its description differ

* `kernel/memory/paging.h:61-62` says that mapping fails on an incompatible existing mapping. Only a
  2 MiB page is ever in the way of `map_page`, and only a page table in the way of `map_large_page`;
  an existing leaf of the same size is replaced without a word (`PageSpace.MapPageOutcome`,
  `PageSpace.MapLargeOutcome`).
* When `map_page` meets a 2 MiB page that already maps the address to the requested frame, it
  succeeds and its flags have no effect, whereas the 2 MiB step of `map_range` replaces such a page.
  So the two ways of mapping a range agree on every frame but not always on the rights:
  `PageTheorems.FastPathRefines` gives the exact condition and `PageTheorems.FastPathCanChangeRights`
  a concrete state in which they differ.
* `get_heap` rounds its length but not its address: with an address that is not page-aligned the
  last page of the range lies one frame past the claimed run (`Heap.HeapIsBacked`, both directions;
  `HeapTheorems.UnalignedHeap` is a concrete state).
* `kernel/memory/heap.c:5-7` says that after a failure the frames are released and page tables kept.
  The mappings are kept too: the pages mapped before the one that failed stay mapped to frames that
  are free again (`Heap.RefusedPages` says exactly which; `HeapTheorems.RefusedHalfWay` is a concrete
  state).
* A range of length 0 is not always empty: `map_range` rounds its ends to pages, so with an address
  inside a page it maps that page (`PageTheorems.PagesOfRange`).
* An identity mapping does not make every frame reachable by its physical address: from 2^47 on that
  number is no canonical linear address (`Kernel.ManagedIsReachable`, both directions;
  `KernelTheorems.HighFrameUnreachable` is a concrete memory map).
* RFC 1951 reserves the length symbols 286 and 287 and the distance symbols 30 and 31. The decoder
  accepts them, with length 0 and distance 0 (`InflateTheorems.ReservedIsAccepted` is such a block). An
  item with one of them leaves the output as it is or is a copy of a positive length from distance 0
  (`Deflate.ReservedSymbols`). Such a copy takes bytes of the output buffer that were never written,
  which is the outcome `Undefined` here. The decoder also accepts codes that do not use the whole
  code space.
* The decoder does not check for the end of its input, and calls for more bits than it needs. It reads
  beyond its input wherever a refill finds at most 24 bits left (`BitBuffer.Input.FillBits`, both
  directions), which is the outcome `Undefined` too. So it does on every input of at most three bytes
  (`InflateSteps.ShortInput`), among them the two bytes that are the whole stream of the empty output
  (`ByteStreams.EmptyStream`), and on any single block with the fixed code that nothing but its
  padding follows (`InflateTheorems.FixedBlockNeedsMore`). It does not where more than 24 bits
  follow the stream, as the eight bytes that end a gzip file do.

## Model

| member | source | states |
|---|---|---|
| Physical.Block.AllocateFrame | kernel/memory/physical.c:4-22 | the scan that skips full words takes the lowest free frame of the block, and fails exactly if there is none |
| Physical.Block.Take | kernel/memory/physical.c:14-18 | claiming one frame keeps the block's invariant: the cached count equals the clear bits and the tail bits stay set |
| Physical.Block.FreeFrame | kernel/memory/physical.c:24-35 | clears the flag of the frame that holds the address, counts it only if it was set, and leaves a block without bitmap alone |
| Physical.Block.FrameIsUsed | kernel/memory/physical.c:65-68 | the shifted word shows the flag of the frame |
| Physical.Block.AllocateFrames | kernel/memory/physical.c:71-95 | takes the lowest run of `count` free frames of the block, and fails exactly if there is none |
| Physical.Block.ClaimRun | kernel/memory/physical.c:87-92 | the claiming loop marks the run and nothing else, and lowers the cached count by its length |
| Physical.Pmm.RuledOut | kernel/memory/physical.c:105 | a block that the cached count (or a missing bitmap) rules out has no such run |
| Physical.Pmm.AllocateFrame | kernel/memory/physical.c:37-47 | first fit with length 1 over all blocks, keeping the allocator's invariant |
| Physical.Pmm.AllocateFrames | kernel/memory/physical.c:98-111 | complete contiguous first fit: the lowest run of the first block that has one, those frames only, the sentinel exactly if no block has one or `count` is 0 |
| Physical.Pmm.FreeFrame | kernel/memory/physical.c:49-63 | clears the flag in the one block that holds the address, if any, and changes nothing else |
| Physical.Pmm.OthersKept | kernel/memory/physical.c:71-95 | writing the words of one block leaves every other block valid and unchanged, because their bitmaps do not overlap |
| FrameSpec.AllocationIsDetermined | kernel/memory/physical.c:4-111 | first fit leaves no choice, so `frame_allocate` and `frames_allocate` with count 1 return the same address and leave the same bitmaps |
| FrameSpec.AllocationTakesRun | kernel/memory/physical.c:71-111 | an allocation removes exactly its run from the free set, all of which was free |
| FrameSpec.SingleAllocation | kernel/memory/physical.c:37-47 | one frame leaves the free set, or the free set is empty and nothing changes |
| FrameSpec.ExhaustedMeansEmpty | kernel/memory/physical.c:37-47 | if no block has a free frame, the free set is empty |
| FrameSpec.ReleaseReturnsFrame | kernel/memory/physical.c:24-63 | freeing any byte of a frame adds the frame to the free set if a bitmap covers it, and nothing otherwise |
| FrameSpec.RunNeedsFrames | kernel/memory/physical.c:105 | fewer free frames than requested means no run |
| FrameSpec.ScanUsedFrame | kernel/memory/physical.c:78-82 | a used frame ends the current run: no earlier place can hold one |
| FrameSpec.ScanFreeFrame | kernel/memory/physical.c:84-85 | a free frame lengthens the run; when it is long enough it is the lowest one |
| FrameSpec.CountAfterClaim | kernel/memory/physical.c:87-91 | claiming a free run lowers the number of clear bits by its length |
| FrameRuns.RunIsValid | kernel/memory/physical.c:4-111 | over every run of calls the allocator stays valid and manages the same frames |
| FrameRuns.StaysUsed | kernel/memory/physical.c:4-111 | a frame in use stays in use until it is freed |
| FrameRuns.NotReissued | kernel/memory/physical.c:4-111 | a frame handed out twice was freed in between |
| FrameRuns.NeverIssued | efi-stage/efi_pmm.c:154-159 | a frame that starts out used and is never freed is never handed out, as address 0 |
| FrameRuns.FreeAfterRun | kernel/memory/physical.c:4-111 | which frames are free after a run of calls, from the last call that touched each |
| EfiPmm.SizePmm | efi-stage/efi_pmm.c:37-50 | the counting loop counts the non-empty descriptors and the RAM frames; room for 16 more |
| EfiPmm.SizedWithOneMore | efi-stage/efi_pmm.c:37-43 | one more region raises the count of blocks unless it is empty, and the RAM frames only if its type is 1 to 4 or 7 |
| EfiPmm.SixteenMoreFit | efi-stage/efi_pmm.c:5-7 | 16 more regions that are no RAM still fit: each gets its block, and every RAM block its bitmap |
| EfiPmm.KindTable | efi-stage/efi_pmm.c:106-134 | the kind of a block for every number that a type can have, and which of them are RAM |
| EfiPmm.SizingSuffices | efi-stage/efi_pmm.c:48-50 | with no more RAM frames and at most the capacity of non-empty descriptors in the final map, every descriptor gets a block and every RAM block a bitmap |
| EfiPmm.WishesBounded | efi-stage/efi_pmm.c:49-50 | rounding up to words wastes less than one word a block |
| EfiPmm.KeptAreFirst | efi-stage/efi_pmm.c:93-97 | the loop keeps exactly the first non-empty descriptors, in order, as many as there are slots |
| EfiPmm.InitialCount | efi-stage/efi_pmm.c:144-159 | the count set for a fresh block is its number of clear bits |
| EfiPmm.FillWords | efi-stage/efi_pmm.c:146-150 | fills the words of one bitmap and no others |
| EfiPmm.FillBitmap | efi-stage/efi_pmm.c:144-159 | the words, the tail and frame 0 of one bitmap, and the count that goes with them |
| EfiPmm.AddBlock | efi-stage/efi_pmm.c:95-160 | one descriptor becomes the block it describes, with a bitmap exactly if it is RAM and the words last; the words before it stay |
| EfiPmm.BitmapEnds | efi-stage/efi_pmm.c:138-142 | the bitmap of a block ends before the words of any later block |
| EfiPmm.FillSlots | efi-stage/efi_pmm.c:85-161 | the first slots hold the blocks of the kept descriptors, their bitmaps one after another |
| EfiPmm.BuildPmm | efi-stage/efi_pmm.c:85-161 | for any map, whatever it was sized from, the result is a valid allocator whose blocks are those of the map, with address, size, attributes and kind |
| EfiPmm.BuiltIsValid | efi-stage/efi_pmm.c:85-161 | blocks built this way satisfy the allocator's whole invariant, pairwise separate bitmaps included |
| EfiPmm.FreeOnlyConventional | efi-stage/efi_pmm.c:79-159 | a frame starts out free exactly if it lies in conventional memory that got a bitmap and is not frame 0 |
| PageFormat.LinkEntry | kernel/memory/paging.c:50 | an upper entry reads as present, writable, executable, no large page, with the address of its table and the user bit of the flags |
| PageFormat.RaiseUser | kernel/memory/paging.c:55 | the user bit may rise; address and other fields stay |
| PageFormat.FlagMeanings | kernel/memory/paging.h:12-20 | each flag by its value sets the one bit that the processor reads for it, no-execute included |
| PageFormat.InitPtEntry | kernel/memory/paging.c:6-11 | bit by bit: the frame bits of the address, all other bits those of the flags, and the present bit |
| PageFormat.PageEntry | kernel/memory/paging.c:121 | the 4 KiB leaf maps the frame with the rights and the caching of the flags, in a word given bit by bit |
| PageFormat.LargeEntry | kernel/memory/paging.c:140 | the 2 MiB leaf maps the frames with the rights and the caching of the flags, with the page-size bit, in a word given bit by bit |
| PageFormat.AddressMask | kernel/memory/paging.c:13-26 | the mask extracts the 40-bit frame number |
| PageFormat.LargeAddressMask | kernel/memory/paging.c:114 | the two masks extract the frame number rounded to 2 MiB |
| PageWalk.SourceIndices | kernel/memory/paging.c:100-103 | the shifted and masked indices are those the processor uses at the four levels |
| PageTree.WalkFindsLeaf | kernel/memory/paging.c:40-57 | under the invariant the processor's walk, combining rights over all levels, gives the leaf alone |
| PageTree.TranslateIsLeafView | kernel/memory/paging.c:40-57 | so the translation of every page is that of its leaf |
| PageSpace.LinkSteps | kernel/memory/paging.c:46-51 | linking a fresh table keeps the tree separated, moves its frame from free to tables, and changes no translation |
| PageSpace.RaiseSteps | kernel/memory/paging.c:54-56 | raising the user bit on a shared level changes no translation |
| PageSpace.TwoDescents | kernel/memory/paging.c:105-109 | the way to the page directory fails exactly if more tables are missing than frames are free |
| PageSpace.CoverComparison | kernel/memory/paging.c:111-116 | the comparison of masked sums succeeds exactly if the covering 2 MiB page maps the page-aligned address to the requested frame |
| PageSpace.LeafWritten | kernel/memory/paging.c:121 | writing a 4 KiB leaf changes the translation of that page only |
| PageSpace.BlockWritten | kernel/memory/paging.c:140 | writing a 2 MiB leaf changes the translations of its 512 pages only |
| PageLinks.LinkWrites | kernel/memory/paging.c:47-51 | creating a table writes the one entry that links it, with the user bit of the flags, and no other link |
| PageLinks.RaiseWrites | kernel/memory/paging.c:54-55 | going through a table adds at most the user bit of the flags to the one entry that links it |
| PageLinks.LinksTransitive | kernel/memory/paging.c:98-168 | so over any number of steps with the same flags: old links are as before or raised once, new ones are exactly what `next_table` writes |
| Paging.AllocTable | kernel/memory/paging.c:30-38 | a zeroed frame that was free, or NULL exactly if none is |
| Paging.CreateTable | kernel/memory/paging.c:46-52 | the creating half of `next_table` keeps the invariant and every translation |
| Paging.NextTable | kernel/memory/paging.c:44-57 | finds or creates the table of an entry, keeping the invariant and every translation; NULL exactly if a large page is in the way or a needed frame is missing, and then nothing changed; the entry that links the table is raised or written as the flags say, and no other link changes |
| Paging.InitPml4 | kernel/memory/paging.c:59-62 | an empty tree in a frame that was free, or NULL exactly if none is |
| Paging.PageDirectory | kernel/memory/paging.c:105-109 | the two descents that both mapping functions start with |
| Paging.MapPage | kernel/memory/paging.c:98-123 | fails exactly on a conflicting 2 MiB page or for want of frames, and then changes no translation; otherwise this page alone is mapped as requested, rights and caching, by an entry known bit by bit, or stays under a matching 2 MiB page; frames taken are tables added; on the upper levels old links gain at most the user bit of the flags, and new ones are what `next_table` writes |
| Paging.SetLeaf | kernel/memory/paging.c:121 | the last write of `map_page` keeps the invariant |
| Paging.MapLargePage | kernel/memory/paging.c:125-142 | fails exactly if a page table is in the way or frames are wanting, and then changes no translation; otherwise exactly the 512 pages of the block are mapped to consecutive frames |
| Paging.SetLargeLeaf | kernel/memory/paging.c:140 | the last write of `map_large_page` keeps the invariant |
| Paging.MapRange | kernel/memory/paging.c:144-168 | for any mix of steps: fails exactly if a page of the range is in conflict with a 2 MiB page that stays, or the tables the range needs outnumber the free frames, both told from the state before; on success every page of the rounded range is mapped as requested or stays under a matching 2 MiB page, and the tree gains exactly those tables; on failure it stopped at a page in conflict or without a table, with the pages before it mapped and all others as before; always, frames taken are tables added and no table is lost |
| PageRange.LargeStep | kernel/memory/paging.c:154-161 | a 2 MiB step advances the loop invariant by 512 pages |
| PageRange.SmallSucceeded | kernel/memory/paging.c:163-165 | a 4 KiB step advances the loop invariant by one page, also after a refused 2 MiB step |
| PageRange.LargeStepFailed | kernel/memory/paging.c:154-163 | a refused 2 MiB step changes no translation, and if the block was fit for it then frames have run out |
| PageRange.StepFacts | kernel/memory/paging.c:146-165 | the 64-bit addresses, alignment tests and bounds of the loop, in pages |
| PageNeeds.FreeLeft | kernel/memory/paging.c:150-166 | after k pages the frames left are those at the start less the tables these pages needed |
| PageNeeds.SmallTables | kernel/memory/paging.c:163-165 | a 4 KiB step adds exactly the tables its page needs |
| PageNeeds.LargeTables | kernel/memory/paging.c:154-161 | a 2 MiB step adds exactly the tables its 512 pages need |
| PageNeeds.LargeFailed | kernel/memory/paging.c:154-163 | a refused 2 MiB step added nothing, or there are too few frames for the pages so far |
| PageNeeds.NeedsUnmet | kernel/memory/paging.c:163 | where a 4 KiB step fails, a page is in conflict or the range needs too many tables |
| PageTheorems.UniqueParent | kernel/memory/paging.c:28-57 | an entry of the tree links the frame of a table exactly if it is the one entry for it |
| PageTheorems.LeafDecides | kernel/memory/paging.c:40-43 | the rights the processor grants are those of the one entry that maps the page |
| PageTheorems.RangeFrames | kernel/memory/paging.c:144-168 | after success every page of the range has its frame, and the requested rights unless an older 2 MiB page stayed in charge |
| PageTheorems.MappedRange | kernel/memory/paging.c:144-168 | after success the processor translates each byte of the rounded range to aligned(paddr) + (v - aligned(vaddr)), modulo the 52 bits of a physical address, and every page outside as before |
| PageTheorems.MappedBytes | kernel/memory/paging.c:144-168 | in bytes: the one at distance d < length from vaddr is translated to the one at distance d from paddr's page and vaddr's offset |
| PageTheorems.PagesOfRange | kernel/memory/paging.c:146-150 | the pages of a range are exactly those that hold one of its bytes; without bytes, none or the page the address is in |
| PageTheorems.SmallRunState | kernel/memory/paging.c:98-123 | what a successful run of `map_page` over the range maps, page by page |
| PageTheorems.FastPathRefines | kernel/memory/paging.c:144-168 | `map_range` and the plain 4 KiB loop, both successful from one state, give every page the same frame; and the same rights exactly unless the fast path replaced an older 2 MiB page with other rights |
| PageTheorems.FastPathSucceeds | kernel/memory/paging.c:144-168 | if every call of the plain 4 KiB loop succeeds, so does `map_range` from the same state |
| PageTheorems.FastPathCanChangeRights | kernel/memory/paging.c:111-140 | a concrete state in which the two differ in rights |
| Kernel.BlockRanges | kernel/kernel.c:27-32 | the clipped byte range of a block covers exactly its pages from page 1 up |
| Kernel.IdentityFailure | kernel/kernel.c:32 | an identity range over an identity map can fail only with no frame left, and then a page of it faults |
| Kernel.IdentityViews | kernel/kernel.c:32-37 | an identity range extends an identity map by exactly its pages |
| Kernel.System.MapBlocks | kernel/kernel.c:22-33 | maps exactly the pages of the blocks that are neither device memory nor reserved, from page 1 up; fails only with no frame left and one of those pages unmapped |
| Kernel.System.InitPaging | kernel/kernel.c:15-41 | afterwards exactly those pages and the framebuffer's are mapped, each to itself, and the tree is the one the processor walks; fails only with no frame left and a page still to map; in any case the frames that left the free set are exactly the tables |
| Kernel.TablesFromFree | kernel/kernel.c:19-37 | from the empty tree on, the tables are exactly the frames that left the free set |
| Kernel.KernelTranslations | kernel/kernel.c:10-14 | the processor's translation of every page after `init_paging`; page 0 faults unless the framebuffer lies there |
| Kernel.ManagedIsMapped | kernel/kernel.c:10-14 | every frame the allocator can hand out, other than frame 0, is mapped to itself |
| Kernel.ManagedIsReachable | kernel/memory/paging.c:28-38 | so every byte of it is reached by its physical address exactly if that is below 2^47 |
| PageRuns.CallKeepsPage | kernel/memory/paging.c:98-168 | whatever a mapping call, `get_heap` or the allocator answers, it changes no page outside its range |
| PageRuns.CallKeepsTables | kernel/memory/paging.c:40-57 | it loses and moves no table, and the tables it adds were free |
| PageRuns.AllocatorSeparates | kernel/memory/physical.c:4-111 | other callers of the allocator keep the tree separated as long as they give back only managed frames that are not tables and not frame 0 |
| PageRuns.RunIsSound | kernel/memory/paging.c:28-57 | after every run of calls the tree is separated, and every table and every free frame is one that the allocator manages |
| PageRuns.SoundIsManaged | kernel/memory/paging.c:28-38 | any state in which the mapping functions may be called can start such a run |
| PageRuns.RunKeepsPage | kernel/memory/paging.c:98-168 | over every run of mapping calls, `get_heap` and the allocator, the processor translates a page that none of them touches as before |
| PageRuns.RunKeepsTables | kernel/memory/paging.c:40-57 | over every such run no table is lost or moved |
| PageRuns.ManagedStayReachable | kernel/memory/paging.c:28-38 | from `init_paging` on, over every such run, a managed frame is reached by its physical address exactly if that is below 2^47, as long as no call touches its page |
| PageRuns.TablesStayReachable | kernel/memory/paging.c:28-38 | so is every table of the tree, from the beginning or created since |
| KernelTheorems.FramebufferPages | kernel/kernel.c:35-37 | the pages mapped for the framebuffer are exactly those that hold one of the four bytes of a pixel, for every size that fits 64 bits |
| KernelTheorems.PixelsAreMapped | kernel/kernel.c:35-37 | after `init_paging` every byte of every pixel is reached by its own address, as far as that is below 2^47 |
| KernelTheorems.HighFrameUnreachable | kernel/memory/paging.c:28-38 | a concrete memory map with a managed frame at 2^47 that is mapped and not reached |
| Boot.TakeFrame | kernel/memory/physical.c:37-47 | one frame leaves the free set; the sentinel exactly if it is empty |
| Boot.KernelStart | kernel/kernel.c:43-110 | the two frames of the descriptor table, the page tables and the free frames never meet, and together are what was free; the mapped pages are those of the regions and the framebuffer |
| Boot.PagesOfRegions | kernel/kernel.c:22-33 | the pages of the blocks told from the memory map: from page 1 up, those in kept regions of types 1 to 7, 9 and 10 |
| Boot.BuildAndStart | efi-stage/efi_pmm.c:85-161 | the same starting from any memory map and storage of any size, with the processor's translation of every page told from the map's own type numbers: what `build_pmm` establishes is what the kernel relies on, and it halts only with no frame left |
| PageSpace.NeedsTableFaults | kernel/memory/paging.c:105-119 | a page that mapping could not reach for want of a table faults |
| Heap.HeapPages | kernel/memory/heap.c:10-12 | the fewest pages that hold the length |
| Heap.ClaimRun | kernel/memory/heap.c:14-15 | claims the run that first fit finds, keeping the mapping invariant; fails exactly if there is no run |
| Heap.FirstFitIsUnique | kernel/memory/heap.c:14 | that run is determined by the blocks before the call |
| Heap.ReturnFrames | kernel/memory/heap.c:19 | freeing the frames one by one returns exactly the run |
| Heap.GetHeap | kernel/memory/heap.c:8-23 | succeeds exactly if there is a run, no page of the range mapped onto the first-fit run is in conflict, and the run and the tables needed do not outnumber the free frames, all told from the state before; then the range is mapped onto that run, the other frames that left the free set became tables, and nothing but tables was written; on failure the frames that left the free set are exactly the new tables, and the reason is one of these |
| Heap.GrantedCounts | kernel/memory/heap.c:14-22 | in numbers: the frames taken are the run and the tables added |
| Heap.HeapFailsExactly | kernel/memory/heap.c:14-17 | mapping the run fails exactly on a conflict or for want of frames beside the run |
| Heap.RunAndTables | kernel/memory/heap.c:14-17 | the run and the tables created meanwhile never meet |
| Heap.RefuseHeap | kernel/memory/heap.c:17-21 | giving the run back after a failure undoes the claim, with table allocations in between: what is left is what linking the new tables alone would have done |
| Heap.RefusedPages | kernel/memory/heap.c:17-21 | after a refusal at page k exactly the first k pages of the range are mapped to frames given back; all others are as before |
| Heap.HeapIsBacked | kernel/memory/heap.c:10-17 | every page of the range lies in the claimed run exactly if the address is page-aligned |
| HeapTheorems.HeapBytes | kernel/memory/heap.c:10-17 | after a grant each byte of the range is backed by the byte of the run at the same distance, from vaddr's offset on |
| HeapTheorems.UnalignedHeap | kernel/memory/heap.c:10-17 | a concrete grant for address 1 that maps a page to the frame behind the run |
| HeapTheorems.RefusedHalfWay | kernel/memory/heap.c:17-21 | a concrete refusal after the first of two pages, which stays mapped to a free frame |
| HuffmanCodes.LimitIsKraftSum | include/ssfn.h:484-495 | `maxcode` of a length is the Kraft sum of the codes up to it |
| HuffmanCodes.MatchIsUnique | include/ssfn.h:484-495 | canonical codes are prefix-free: a window starts with at most one |
| HuffmanCodes.Tiling | include/ssfn.h:492-496 | the codes tile [0, maxcode[15]): a window starts with a code exactly if it lies below |
| HuffmanCodes.MatchAtLength | include/ssfn.h:557-560 | between the limits of two lengths the subtraction of the slow path finds the place of the matching symbol |
| HuffmanCodes.PlacesDiffer | include/ssfn.h:500-503 | symbols have different places in the sorted table, all within it |
| HuffmanCodes.CodeFits | include/ssfn.h:490-491 | under the Kraft inequality every code fits its length |
| BitStream.BitOfReverse16 | include/ssfn.h:457-464 | the four rounds of masks and shifts reverse 16 bits |
| BitStream.ReverseIsWindow | include/ssfn.h:556 | the reversed buffer is the next 16 bits read as a code |
| Huffman.SlotsOfCode | include/ssfn.h:504-509 | the fast slots of a code are exactly those equal to the reversed code modulo 2^length |
| Huffman.SlotIsUnique | include/ssfn.h:504-509 | no two symbols write the same fast slot |
| Huffman.Tables.CountSizes | include/ssfn.h:476-480 | counts the codes of each length |
| Huffman.Tables.SetLimits | include/ssfn.h:481-496 | succeeds exactly under the Kraft inequality, with the first codes and limits of section 3.2.2 of RFC 1951 |
| Huffman.Tables.FillFast | include/ssfn.h:505-509 | the stepping loop writes exactly the slots with the right low bits |
| Huffman.Tables.PlaceSymbols | include/ssfn.h:497-513 | every symbol is at its place and in its fast slots, and no others are filled |
| Huffman.Tables.Build | include/ssfn.h:471-515 | returns 1 exactly if the lengths satisfy the Kraft inequality; the tables then represent their canonical code |
| Huffman.FastHit | include/ssfn.h:571-576 | a filled fast slot names the symbol whose code the buffer starts with, and its length |
| Huffman.FastMiss | include/ssfn.h:571-578 | an empty one means that no code of at most 9 bits does |
| Huffman.SlowHit | include/ssfn.h:557-564 | the slow path finds the symbol whose code starts the window |
| BitBuffer.Input.AppendNextByte | include/ssfn.h:538-539 | taking a byte into the buffer leaves the unread bits the same |
| BitBuffer.Input.FillBits | include/ssfn.h:535-541 | so does a whole refill, which ends with more than 24 bits, and stays within the input exactly if that many are left |
| BitBuffer.Input.Receive | include/ssfn.h:543-551 | the next n unread bits as a number, and they are consumed; stays within the input exactly if n bits are buffered or more than 24 are left |
| BitBuffer.Input.DecodeSlow | include/ssfn.h:553-565 | the symbol whose code the unread bits start with, consumed; -1 exactly if no code starts them |
| BitBuffer.Input.Decode | include/ssfn.h:567-579 | the same for fast and slow path together, for every code and every state of the buffer |
| PrefixCodes.CodeIsUnique | include/ssfn.h:567-579 | at most one code is a prefix of the unread bits, however few they are |
| BitBuffer.Input.TakeByte | include/ssfn.h:711-714 | the lowest byte of the buffer, consumed |
| Deflate.ItemIsUnique | include/ssfn.h:617-639 | literals, copies and the end of a block, extra bits included, are prefix-free |
| Deflate.BodyStep | include/ssfn.h:617-653 | a block means what it means after its first item |
| Deflate.BodyIsUnique | include/ssfn.h:614-654 | bits hold at most one compressed block, with one output and one end |
| Deflate.WrittenBlock | include/ssfn.h:614-654 | whatever items are written, followed by whatever bits, the block means their output |
| Deflate.BlockWasWritten | include/ssfn.h:614-654 | every block was written from some items |
| Deflate.EveryLength | include/ssfn.h:600-606 | the tables give every length from 3 to 258 |
| Deflate.EveryDistance | include/ssfn.h:608-612 | the tables give every distance from 1 to 32768, in one way |
| Deflate.ReservedSymbols | include/ssfn.h:600-612 | reserved symbols stand for length 0 or distance 0: an item with one leaves the output as it is or is a copy from distance 0 |
| DeflateStream.LengthsAreUnique | include/ssfn.h:676-697 | a run-length coded list of lengths is read in one way |
| DeflateStream.LengthsFit | include/ssfn.h:676-698 | it ends with exactly the announced number of lengths, none over 15 |
| DeflateStream.HeaderIsUnique | include/ssfn.h:656-702 | a dynamic header gives one pair of codes |
| DeflateStream.HeaderFits | include/ssfn.h:664-701 | at most 288 and 32 lengths, both satisfying the Kraft inequality |
| DeflateStream.StoredIsUnique | include/ssfn.h:704-728 | a stored block has one content |
| DeflateStream.FixedLengthAt | include/ssfn.h:731-737 | the fixed lengths, symbol by symbol |
| DeflateStream.FixedIsComplete | include/ssfn.h:731-740 | the fixed codes use the whole code space, so building them succeeds |
| DeflateStream.BlockIsUnique | include/ssfn.h:747-762 | bits hold at most one block |
| DeflateStream.InflatesUniquely | include/ssfn.h:742-765 | bits hold at most one stream, with one output |
| DeflateStream.FixedRoundTrip | include/ssfn.h:742-765 | every byte sequence has a stream that means it |
| FixedCodes.LengthTable | include/ssfn.h:600-606 | bases and extra bits of all length symbols in closed form |
| FixedCodes.DistanceTable | include/ssfn.h:608-612 | bases and extra bits of all distance symbols in closed form |
| FixedCodes.FixedCode | include/ssfn.h:730-738 | the code of every literal and length symbol, as the table of section 3.2.6 of RFC 1951 gives it |
| FixedCodes.FixedDistanceCode | include/ssfn.h:739 | distance symbol d has the five bits of d |
| FixedCodes.CopyBits | include/ssfn.h:633-639 | the bits of every copy in the fixed code: length symbol, extra bits, distance symbol, extra bits |
| FixedCodes.ReachIsExact | include/ssfn.h:640 | a copy can be carried out from every distance up to the whole output, and no further |
| FixedCodes.LiteralsThenCopy | include/ssfn.h:614-654 | any bytes and any copy of 3 to 258 from among them have a block, which inflates to these bytes going on with the ones `dist` before |
| FixedCodes.ByteRun | include/ssfn.h:646-648 | one literal and a copy of n from distance 1 inflate to n + 1 equal bytes |
| DynamicCodes.SizeOrderIs | include/ssfn.h:658 | the order of the lengths of the code length code as a formula |
| DynamicCodes.SizesRead | include/ssfn.h:669-673 | lengths written three bits each in that order are read back |
| DynamicCodes.OpsRead | include/ssfn.h:676-697 | any list of lengths described by single lengths, repetitions and runs of zeros is read back |
| DynamicCodes.LengthsWereWritten | include/ssfn.h:676-697 | and every list that can be read was described so |
| DynamicCodes.HeaderRoundTrip | include/ssfn.h:656-702 | a dynamic header written for any two codes is read back, whatever follows it |
| DynamicCodes.HeaderWasWritten | include/ssfn.h:656-702 | and every header that can be read was written so |
| DynamicCodes.EveryCodeHasHeader | include/ssfn.h:664-667 | any two codes of up to 288 and 32 symbols can be sent |
| StreamWriter.StreamRead | include/ssfn.h:742-765 | any blocks of the three types written one after another inflate to what they hold, copies reaching back into earlier blocks included |
| StreamWriter.StreamWasWritten | include/ssfn.h:742-765 | every stream that inflates was written from some blocks |
| StreamWriter.StreamsAreWritten | include/ssfn.h:742-765 | so the streams that inflate, with their output and their end, are exactly those that can be written |
| InflateSteps.RepeatedStep | include/ssfn.h:650 | copying byte by byte extends the output periodically |
| InflateSteps.ConstantTail | include/ssfn.h:646-648 | the branch for distance 1 agrees with that |
| InflateCuts.NotCutInCopy | include/ssfn.h:633-640 | a copy that was read to its end was cut off nowhere: the places where it could be are determined |
| InflateCuts.BodyCutStep | include/ssfn.h:617-653 | behind an item that was read a block is cut off exactly where what follows is |
| InflateCuts.StoredCutDecides | include/ssfn.h:716-727 | its header decides whether a stored block is cut off |
| InflateCuts.StreamCutStep | include/ssfn.h:747-763 | behind a block that was read a stream is cut off exactly where what follows is |
| InflateSteps.SameBodyStep | include/ssfn.h:617-653 | a block means, is cut off, and leaves buffered what the rest of it does after an item |
| InflateSteps.SameStreamStep | include/ssfn.h:747-763 | the same for a stream after a block |
| InflateSteps.OutcomeDecided | include/ssfn.h:742-765 | the bits and the number of them that are buffered decide how a reader of a stream ends |
| InflateSteps.ShortInput | include/ssfn.h:535-541 | every input of at most 24 bits is read beyond |
| InflateTheorems.ReservedTypeIsRejected | include/ssfn.h:752-753 | more than 25 bits that start with the reserved type hold no stream and are cut off nowhere |
| InflateTheorems.UnknownSymbolIsRejected | include/ssfn.h:618-620 | more than 24 bits that no code starts hold no block and are cut off nowhere |
| InflateTheorems.MismatchIsRejected | include/ssfn.h:718-720 | a length that does not match its complement is no stored block, nor one that is cut off |
| InflateTheorems.FixedBlockNeedsMore | include/ssfn.h:567-570 | any single block with the fixed code leaves room for the last lookup only if 9 more bits follow |
| InflateTheorems.FixedStreamNeedsMore | include/ssfn.h:567-570 | for any data there is a stream that does not |
| InflateTheorems.ReservedIsAccepted | include/ssfn.h:600-612 | a block with the reserved symbols 286 and 30 that the decoder accepts |
| ByteStreams.StoredRoundTrip | include/ssfn.h:704-728 | any data cut into pieces below 64 KiB and framed byte by byte inflates to the data, whatever bytes follow |
| ByteStreams.EmptyStream | include/ssfn.h:742-765 | the bytes 3 and 0 hold the whole stream of the empty output |
| ByteStreams.LetterStream | include/ssfn.h:742-765 | the bytes 4B 04 00 hold the stream of the letter a |
| Inflate.Inflater.ReadItem | include/ssfn.h:617-640 | stops exactly where the item is cut off; otherwise gives the one item that the unread bits go on with, or rejects exactly if there is none |
| Inflate.Inflater.ReadCopy | include/ssfn.h:633-640 | the same after the symbol of a copy: extra bits, distance, and its bound |
| Inflate.Inflater.CopyBytes | include/ssfn.h:645-651 | both copying loops append the periodic repetition |
| Inflate.Inflater.ParseHuffmanBlock | include/ssfn.h:614-654 | stops exactly where the block is cut off, in one of its items; otherwise gives the output and the end of the block that the unread bits hold, or rejects exactly if they hold none |
| Inflate.Inflater.ReadRun | include/ssfn.h:678-693 | one run of code lengths, which refers back and stays in bounds only as allowed |
| Inflate.Inflater.ReadLengths | include/ssfn.h:676-697 | the list of lengths that the unread bits hold, or a rejection exactly if they hold none |
| Inflate.Inflater.ReadCounts | include/ssfn.h:664-667 | the three counts of section 3.2.7 of RFC 1951 |
| Inflate.Inflater.ReadSizes | include/ssfn.h:669-673 | the lengths of the code length code, in their permuted order, or a stop if they are cut off |
| Inflate.Inflater.ComputeHuffmanCodes | include/ssfn.h:656-702 | the tables of both codes that the header gives, or a rejection exactly if it gives none |
| Inflate.Inflater.ReadHeader | include/ssfn.h:710-717 | four bytes, first those left in the buffer |
| Inflate.Inflater.ParseUncompressedBlock | include/ssfn.h:704-728 | stops exactly if its header or the data it announces is longer than what is left; otherwise gives the content of the stored block, or rejects exactly if the length does not match its complement |
| Inflate.Inflater.InitDefaults | include/ssfn.h:731-740 | fills in the lengths of the fixed codes |
| Inflate.Inflater.ParseContent | include/ssfn.h:750-762 | the same for the content of a block, of any of the three types |
| Inflate.Inflater.ParseBlock | include/ssfn.h:747-762 | and for a whole block |
| Inflate.Inflater.ParseZlib | include/ssfn.h:742-765 | stops exactly where the reading of the stream is cut off; otherwise gives the output of the stream that the unread bits hold, or rejects exactly if they hold none |
| Inflate.ZlibDecode | include/ssfn.h:767-783 | the bits decide the outcome: undefined if their reading is cut off somewhere, else the one output of the stream if they hold one, else a rejection; a stream followed by more than 24 bits is always decoded; at most three bytes, and streams that leave too little room, are read beyond |

## Left out

- UEFI calls, the loop around ExitBootServices and `getEFIMemoryMap`: the memory map is an input.
- Carving the storage of the allocator out of one region (`efi-stage/efi_pmm.c:52-74`): slots and bitmap words are separate objects of the computed sizes.
- Control registers, the TLB and inline assembly: `set_cr3` only records which tree is walked.
- Reserved bits and the accessed and dirty bits that the processor writes: the walk neither faults on the former nor sets the latter.
- Protection keys, 57-bit addresses and PCIDs: the walk is the four-level one.
- `get_pmm_size`, `mmap` and the dump functions: small, or no behaviour to state.
- `_ssfn__zexpand` and the limit of the output buffer: output is a growing sequence. The expansion reads a size out of decoded data and is a matter of the font format.
- gzip headers and checksums: the stream starts at its first block.
- The pointer types of C: a table is known by its frame address, a bitmap by its first word in the storage array.
- Filling and loading the descriptor table in `kernel_start`: only its two frames are modelled.
- The renderer, the string and memory functions, ACPI, GDT and IDT: `memset` and `memcpy` are taken to do what they say.
- Concurrency: the code has none.
- Paging.MapPage: does not say what becomes of flags that hold address bits or the page-size bit, because then the written entry means something else than the caller asked for.
- Paging.MapLargePage: does not cover physical addresses that are not aligned to 2 MiB, for which the entry would set reserved bits.
- Paging.MapRange: does not cover ranges that wrap or leave their 48-bit window, where the loop would visit other pages than those of the range.
- Kernel.System.InitPaging: requires that all regions to be mapped lie below 2^48, because a page-table tree has no entries for higher ones.
- EfiPmm.SizePmm: requires that the number of RAM frames fits 64 bits, as it does for any map below 2^52.
- Inflate.Inflater.ReadItem: the bytes that a copy from distance 0 would take from the unwritten output buffer are not modelled; the outcome is `Undefined`.
