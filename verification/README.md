# Shizuku kernel: a verified model

This project models the five stateful subsystems of a small x86-64 kernel in Dafny and proves what
they promise. `dafny verify dfyconfig.toml` verifies everything.

**Memory** (`Common`, `Bits`, `Pmm`, `PageTable`, `PteWord`, `AddressSpaces`, `Budget`, `Vmm`,
`UserMemory`, `Proc`, `Elf`, `ElfFile`, `UserStack`, `Lifecycle`). The bitmap page allocator, the four-level page
tables on top of it, and the code that uses them: the ELF loader, the initial stack, the heap, process
creation and destruction. An address space is a tree of frames hidden behind page-table entries in
memory; the invariant says that every frame is owned at most once and no owned frame is free. On it
rest the main results: the tables are a finite map from pages to entries, one space cannot affect
another, a process gives back exactly what it took, and whether an operation finds enough memory is decided by
the tables and the number of free pages before it. Physical addresses are page numbers, addresses
and words are natural numbers with the wrap-around of the source written out where it can occur.

**File system** (`FileTree`, `Paths`, `Tmpfs`, `Chdir`, `Ustar`, `Initrd`). The node table is a tree
exactly under the conditions that the code leaves to its callers, and those conditions are stated as
equivalences. The byte pool behaves like a map from files to bytes. Path lookup, the working-directory text and the
archive unpacker are compared with independent definitions: following a list of names, the directory
really reached, and an archive encoder.

**Windows** (`Dirty`, `Surface`, `Compositor`). The dirty list is the least cover of the reported
damage, and repainting only the dirty list gives the picture that repainting everything would give. That
picture is also described as a viewer sees it, pixel by pixel in screen coordinates.

**Scheduler** (`Sched`). Thread operations are steps of a machine over the thread table, the processor
registers a switch loads, and the memory model. Bounded waiting, exact resumption, the safety of CR3
and kernel stacks, and the conservation of pages are theorems about every run of that machine.

**Terminals** (`Vterm`). The scrolling grid shows the end of an unbounded layout of all output.

Where the code does less than one might expect of it, the model does what the code does, and a lemma
says exactly when the expectation holds:

- A `..` in a working-directory path that is met while the text ends in a slash does nothing; the stored
  text is then wrong for good (`Chdir.StoredCwdMeans`, `Chdir.FaultDiverges`, `Chdir.FaultInATree`).
- `rename` accepts a target inside the moved directory, and a parent need not be a directory
  (`FileTree.MoveKeepsTree`, `FileTree.AddKeepsTree`, with `Tmpfs.RenameIntoItself` and
  `Tmpfs.MkdirUnderFile`). The new path of a rename need not lead to the moved node
  (`Tmpfs.RenamedMeans`, `Tmpfs.RenameThroughItself`).
- A user thread whose kernel stack cannot be allocated leaves a Runnable slot with an empty context
  (`Sched.CreateUserSafeIff`, `Sched.CreateUserExample`).
- The free-page counter is wrong when memory-map entries overlap (`Pmm.CountIffDisjoint`,
  `Pmm.OverlapExample`), and an alignment of more than one page makes the run scan stand still
  (`Pmm.MisalignedScanIsStuck`, `Pmm.ScanEndsIff`).
- A page that was allocated but could not be mapped is lost. Without huge pages, which no user space has,
  mapping one page loses it exactly when some page is free but not more than tables are missing on the way
  (`Proc.MapSegmentPage`, `Proc.MapUserPage`, with `Proc.FirstPageLost` and `Proc.LastPageLost`); mapping a
  range loses one exactly when the free pages run out at a table (`Lifecycle.MapZeroPages`, `Lifecycle.Sbrk`).
- A page that a later segment, the stack or the heap is mapped over is lost too (`Elf.ElfLoad`,
  `Elf.SharedImageExample`, `Lifecycle.FillSpace`, `Lifecycle.WholeLife`).
- A failed `create` leaves an empty file behind exactly when the name was new and a slot was free
  (`Tmpfs.FileSystem.Create`, `Tmpfs.CreateTooBig`).

Each operation is one atomic step: interrupts arriving in the middle of one are not modelled. Inputs
from outside (the memory map, mouse position, what a window draws, trap frames) are parameters.

## Model

| member | source | states |
|---|---|---|
| Bits.SetBitReads | kernel-rs/src/mm/pmm.rs:38-40 | setting bit i of a bitmap word makes bit i read as set and leaves every other bit |
| Bits.ClearBitReads | kernel-rs/src/mm/pmm.rs:42-44 | clearing bit i makes it read as clear and leaves every other bit |
| Bits.TrailingZeros | kernel-rs/src/mm/pmm.rs:112 | the number of trailing zeros of a non-zero word is the position of its lowest set bit |
| Pmm.Allocator.BmSet | kernel-rs/src/mm/pmm.rs:38-40 | the page becomes a member of the free set the bitmap stands for, and no other page changes |
| Pmm.Allocator.BmClear | kernel-rs/src/mm/pmm.rs:42-44 | the page leaves the free set, and no other page changes |
| Pmm.Allocator.BmTest | kernel-rs/src/mm/pmm.rs:46-48 | reads membership in the free set |
| Pmm.Allocator.Init | kernel-rs/src/mm/pmm.rs:66-95 | start-up frees exactly the pages lying wholly inside a usable memory-map entry, and the free counter is right if and only if no page lies in two usable entries |
| Pmm.UsableIff | kernel-rs/src/mm/pmm.rs:66-95 | a page is freed at start-up if and only if some usable entry contains it wholly, below the 512 MiB cap |
| Pmm.Allocator.InitRange | kernel-rs/src/mm/pmm.rs:83-91 | frees a range of pages one by one and counts each |
| Pmm.Allocator.InitEntries | kernel-rs/src/mm/pmm.rs:68-95 | the loop over the memory map frees the union of the usable entries and counts entry by entry |
| Pmm.CountIffDisjoint | kernel-rs/src/mm/pmm.rs:66-95 | counting entry by entry equals the number of freed pages exactly when the usable entries share no page |
| Pmm.OverlapExample | kernel-rs/src/mm/pmm.rs:66-95 | two entries that share a page: four pages are counted, three are free |
| Pmm.Allocator.AllocPage | kernel-rs/src/mm/pmm.rs:106-121 | the word and trailing-zeros scan returns the lowest free page, takes that page only, and fails only when nothing is free |
| Pmm.Allocator.FindRun | kernel-rs/src/mm/pmm.rs:123-154 | the skip-ahead scan, run to its end, finds the lowest run of free pages, the answer of a naive scan, or reports that there is none; for larger alignments it is defined for exactly the counts for which the scan has an end |
| Pmm.Allocator.ClearRun | kernel-rs/src/mm/pmm.rs:142-144 | takes exactly the pages of the run out of the free set |
| Pmm.Allocator.AllocPages | kernel-rs/src/mm/pmm.rs:123-154 | takes exactly the lowest run of the requested length; failure if and only if no run exists |
| Pmm.MisalignedScanIsStuck | kernel-rs/src/mm/pmm.rs:127-152 | with an alignment of two pages or more and page 0 in use, the loop is at page 1 after its first turn and stays there after any number of turns, for every count the bitmap could hold beside page 0 |
| Pmm.ScanEndsIff | kernel-rs/src/mm/pmm.rs:127-152 | the scan ends if and only if the count is 0 or at least the size of the bitmap |
| Pmm.Allocator.FreePage | kernel-rs/src/mm/pmm.rs:156-166 | frees exactly one page in use; a misaligned, out-of-range or already free address changes nothing but the bad-free counter |
| PteWord.DecodeInvertsEncode | kernel-rs/src/mm/vmm.rs:6-14 | an entry with a 40-bit frame number survives being packed into a word, and no other bits are set |
| PteWord.FieldsInPlace | kernel-rs/src/mm/vmm.rs:6-14 | each field lies in the bits of the word where the processor looks for it: 0 present, 1 writable, 2 user, 7 large, 12 to 51 frame, 63 no-execute |
| PteWord.EncodeInvertsDecode | kernel-rs/src/mm/vmm.rs:6-14 | a word with only the defined bits set is the packing of the entry it decodes to |
| Vmm.PathsArePages | kernel-rs/src/mm/vmm.rs:42-47 | two lower-half addresses have the same four table indices if and only if they lie in the same page |
| Vmm.PageOfPath | kernel-rs/src/mm/vmm.rs:42-47 | every quadruple of table indices is the index path of an address |
| PageTable.WalkReadsFlat | kernel-rs/src/mm/vmm.rs:42-69 | the four-level tables refine a finite map: the hardware walk over memory, which allows only what every level allows, finds exactly what the map holds with exactly its rights |
| PageTable.EditEntry | kernel-rs/src/mm/vmm.rs:58-65 | writing one entry of one table, linking or unlinking a page, keeps the table tree well formed |
| PageTable.EditFlat | kernel-rs/src/mm/vmm.rs:71-95 | writing one entry changes at most one key of the map |
| PageTable.TreeFrame | kernel-rs/src/mm/vmm.rs:42-108 | memory writes that spare the tables of a space change none of its translations |
| AddressSpaces.AddTableOk | kernel-rs/src/mm/vmm.rs:53-61 | adding an empty table keeps ownership exclusive and keeps every translation of every space |
| AddressSpaces.SetLeafOk | kernel-rs/src/mm/vmm.rs:71-80 | writing a page entry changes one key in one space; the frame it replaces is owned by nobody afterwards |
| AddressSpaces.NewRootOk | kernel-rs/src/mm/vmm.rs:133-145 | a fresh root gives an empty space that owns one page and shares none |
| AddressSpaces.DropSpaceOk | kernel-rs/src/mm/vmm.rs:148-177 | removing a space returns its pages to the free set and leaves every other space as it was |
| AddressSpaces.WriteDataOk | kernel-rs/src/mm/vmm.rs:42-108 | writing a page that is not a table changes no translation |
| Vmm.RootSharing | kernel-rs/src/mm/vmm.rs:138-144 | a root table that shares the upper half and is empty below |
| Vmm.Descend | kernel-rs/src/mm/vmm.rs:45-67 | following an entry leads where the table tree says |
| Vmm.SharedAddTable | kernel-rs/src/mm/vmm.rs:53-61 | linking a table never touches the upper half of a root, so every space keeps sharing the kernel half |
| Vmm.SharedSetLeaf | kernel-rs/src/mm/vmm.rs:71-95 | neither does writing a page entry |
| Vmm.AddressSpaceManager.constructor | kernel-rs/src/mm/vmm.rs:110-130 | the kernel space starts with an empty lower half and the boot upper half, at the price of one page |
| Vmm.AddressSpaceManager.Walk | kernel-rs/src/mm/vmm.rs:42-69 | finds the last-level table, creating missing ones if asked; no translation changes; when creating it succeeds if and only if no huge page is in the way and there is a free page for every missing table, and then takes exactly those from the bottom |
| Vmm.AddTableStep | kernel-rs/src/mm/vmm.rs:53-61 | one step of the walk: a missing table costs one page, the lowest, and neither adds nor hides a huge page |
| Vmm.WayFails | kernel-rs/src/mm/vmm.rs:49-66 | a walk that stops for want of a page or at a huge page could not have been afforded at its start |
| Vmm.AddressSpaceManager.Map | kernel-rs/src/mm/vmm.rs:71-80 | success changes one key of one space, failure changes no translation of any space; it succeeds if and only if no huge page is in the way and there is a free page for every missing table, which is what it takes |
| Vmm.AddressSpaceManager.Unmap | kernel-rs/src/mm/vmm.rs:82-95 | removes exactly one key, if it is there, and says whether it was; no page is freed |
| Vmm.AddressSpaceManager.Translate | kernel-rs/src/mm/vmm.rs:98-108 | reads the map, page offset included, and 0 when the page is not mapped; nothing changes |
| Vmm.AddressSpaceManager.NewSpace | kernel-rs/src/mm/vmm.rs:133-145 | a space that maps nothing, has only its root table and shares the kernel upper half, as every space then keeps doing; it takes the lowest free page and fails if and only if there is none |
| Vmm.AddressSpaceManager.FreeBelow | kernel-rs/src/mm/vmm.rs:152-174 | the nested loops free every page strictly below a table, each once |
| Vmm.AddressSpaceManager.DestroySpace | kernel-rs/src/mm/vmm.rs:148-177 | frees each table, page and root of the space exactly once, with no bad free, and changes no other space; no frame that the shared upper half links to is freed, and the kernel root still links to them |
| Vmm.BelowStep | kernel-rs/src/mm/vmm.rs:152-174 | the pages under one more table entry are disjoint from those under the entries before it |
| Budget.DropTrans | kernel-rs/src/mm/pmm.rs:106-121 | allocating i pages and then j is allocating i + j: what is left depends only on the number |
| Budget.DropSize | kernel-rs/src/mm/pmm.rs:106-121 | n allocations leave n pages fewer, or none |
| Budget.RunKept | kernel-rs/src/mm/pmm.rs:106-154 | taking n pages from the bottom leaves the upper part of every free block longer than n |
| Budget.CostSplit | kernel-rs/src/mm/vmm.rs:42-69 | the cost of two sets of tables is that of the first, and that of the second once the first is there |
| Budget.PaidThen | kernel-rs/src/mm/vmm.rs:42-80 | costs add up over operations, also when the last one fails |
| Budget.PaidIff | kernel-rs/src/mm/vmm.rs:42-80 | without huge pages an operation of known cost succeeds if and only if that many pages are free |
| UserMemory.FramesDistinct | kernel-rs/src/mm/vmm.rs:71-80 | distinct pages, of one space or of two, never share a frame |
| UserMemory.PageWrite | kernel-rs/src/proc.rs:36-43 | copying into the frame of a mapped page is a virtual write to that page and to nothing else in any space |
| UserMemory.FreshPage | kernel-rs/src/proc/elf.rs:19-28 | mapping a frame fresh from the free set adds exactly one zero page to the space |
| UserMemory.OthersSeeNothing | kernel-rs/src/mm/vmm.rs:71-108 | isolation: an operation on one space changes no byte and no protection flag another space sees |
| Proc.CopyToPage | kernel-rs/src/proc/elf.rs:72-82 | a copy that stays inside one mapped page is exactly that virtual write |
| Proc.UstackWrite | kernel-rs/src/proc.rs:24-49 | page-by-page copying equals one virtual write; it succeeds exactly when every byte of the range is mapped |
| Proc.MapSegmentPage | kernel-rs/src/proc/elf.rs:19-28 | adds one zero page; without huge pages it succeeds if and only if more pages are free than tables are missing on the way; a refusal changes nothing visible and loses the page taken, so a page is lost if and only if some page is free but not more than tables are missing |
| Proc.MapUserPage | kernel-rs/src/proc.rs:66-77 | the same for stack and heap pages, which are zeroed after mapping |
| Proc.FirstPageLost | kernel-rs/src/proc.rs:66-77 | the first page of an empty space costs four pages, so it is lost exactly when one to three are free |
| Proc.LastPageLost | kernel-rs/src/proc.rs:66-77 | a machine of three pages in which this happens: two become roots, and mapping a page loses the third |
| Proc.TablesForHas | kernel-rs/src/proc.rs:66-77 | the tables that a range of pages needs are those on the way to one of its pages |
| Proc.PaidNext | kernel-rs/src/proc.rs:66-77 | a loop over pages costs the pages and each missing table once; when one page cannot be paid for, the range cannot |
| Elf.LoadPage | kernel-rs/src/proc/elf.rs:63-86 | one page of a segment ends up holding the file bytes that overlap it and zeroes elsewhere; a page mapped there before is lost |
| Elf.LoadSegment | kernel-rs/src/proc/elf.rs:52-88 | all pages of a segment hold its image with its protection, no other address changes, and no page is lost if and only if none of them was mapped |
| Elf.NextHeaderUncovered | kernel-rs/src/proc/elf.rs:52-94 | the pages of the next segment are unmapped exactly when no earlier segment has a part in them |
| Elf.SegmentsLoaded | kernel-rs/src/proc/elf.rs:52-94 | every byte of a segment is where its program header puts it, file contents below filesz and zero up to memsz, with the mapped flags, unless a later segment has a part in the same page |
| ElfFile.HeaderReads | kernel-rs/src/proc/elf_defs.rs:8-25 | against an encoder in ABI field order: the loader accepts exactly 64-bit little-endian x86-64 executables, and entry point, table offset, entry size and count are those written |
| ElfFile.EveryFileStarts | kernel-rs/src/proc/elf.rs:32-35 | every file of at least 64 bytes starts with some such header; shorter ones are refused |
| ElfFile.SegmentReads | kernel-rs/src/proc/elf_defs.rs:27-38 | a program header laid out in ABI field order is read back |
| ElfFile.CoversIff | kernel-rs/src/proc/elf.rs:57-64 | a segment gets exactly the pages that one of its bytes lies in |
| ElfFile.FlagsMean | kernel-rs/src/proc/elf.rs:8-17 | for all bits of p_flags: user access, writable exactly with PF_W, executable exactly with PF_X |
| ElfFile.SegmentSeen | kernel-rs/src/proc/elf.rs:52-94 | a loaded process sees every byte of every segment of the file at its address, zeroes up to memsz, with the permissions the file says, unless a later segment shares the page |
| ElfFile.NothingElseSeen | kernel-rs/src/proc/elf.rs:52-94 | and a page is unmapped if and only if no segment has a byte in it |
| Elf.ElfLoad | kernel-rs/src/proc/elf.rs:31-95 | on success the space shows exactly the image, the last segment of a page winning, and no page is lost if and only if no page belongs to two segments; without huge pages a proper header loads if and only if the entry point is not 0 and as many pages are free as the segments have pages and miss tables |
| Elf.SharedImageExample | kernel-rs/src/proc/elf.rs:52-94 | a well-formed image of two segments that share a page |
| UserStack.PushStrings | kernel-rs/src/proc.rs:79-94 | the argument strings lie disjoint below the stack top and read back; it succeeds when they fit the mapped stack |
| UserStack.LoadReads | userspace-rs/src/ulib.rs:10-22 | a little-endian load of bytes laid down by the kernel yields the word |
| UserStack.CStringReads | userspace-rs/src/ulib.rs:361-381 | reading up to the first NUL yields the string that was pushed |
| UserStack.FrameReads | kernel-rs/src/proc.rs:96-109 | word k of the entry frame reads back as word k |
| UserStack.ReadsBack | kernel-rs/src/proc.rs:79-109 | the start-up code recovers exactly argc and every argument from an entry frame and strings that do not overlap |
| UserStack.BuildStack | kernel-rs/src/proc.rs:79-109 | argv round trip: rsp is 16-aligned, argc and each of the first sixteen arguments read back; it succeeds whenever frame and strings fit the four stack pages to the byte |
| Lifecycle.MapZeroPages | kernel-rs/src/proc.rs:65-77 | maps a range of zero pages; without huge pages it succeeds if and only if as many pages are free as the range has pages and misses tables; success loses no page if and only if the range was unmapped; otherwise it stops at the first page whose need exceeds the free pages, and loses a page on it exactly when more pages are free than the pages before it need |
| Lifecycle.Sbrk | kernel-rs/src/syscall.rs:541-567 | success shows zero pages in exactly the grown range; without huge pages it succeeds if and only if the new break is within the heap and the free pages cover the new pages and missing tables; failure leaves the break, and where it stops and whether it loses a page is known from the old state |
| Lifecycle.FillSpace | kernel-rs/src/proc.rs:59-109 | image, stack and argument vector together; success loses no page if and only if no page of the image is shared by two segments or with the stack; without huge pages a startable image succeeds if and only if the free pages cover its pages, the stack and the missing tables |
| Lifecycle.SpawnElf | kernel-rs/src/proc.rs:52-121 | success: the process owns its pages and stack, memory shows image, stack and arguments, and no page is lost if and only if no page of the image is shared; failure: all other spaces are as before and in memory nothing is left but lost pages; a proper image with fitting arguments starts if and only if four consecutive pages are left when the root, its pages and its tables have been taken |
| Lifecycle.EmptySpaceNeed | kernel-rs/src/proc.rs:52-77 | in a new space the image and the stack cost their pages and every table on the way to them |
| Lifecycle.EnoughToSpawn | kernel-rs/src/proc.rs:52-121 | a free block of the length of everything the process needs is enough |
| Lifecycle.FreeStack | kernel-rs/src/sched.rs:364-368 | returns the four kernel-stack pages, with no bad free |
| Lifecycle.Reap | kernel-rs/src/sched.rs:355-370 | returns exactly the pages of the space and the kernel stack |
| Lifecycle.LifeBalanced | kernel-rs/src/sched.rs:355-370 | if a process accounts for every page that stopped being free, reaping it restores the free set |
| Lifecycle.WholeLife | kernel-rs/src/proc.rs:52-121 | conservation over spawn, any sequence of sbrk calls, exit and reap: all spaces and all pages but the lost ones are as at the start; when every call succeeds, nothing is lost if and only if no page of the image is shared and no segment lies between the heap base and the final break, which is the base plus the increments |
| Dirty.UnionLeast | kernel-rs/src/gui/dirty.rs:126-137 | the union is the smallest rectangle around both |
| Dirty.CoveredByOne | kernel-rs/src/gui/dirty.rs:140-142 | a rectangle covered pixel by pixel by pairwise non-touching rectangles lies inside one of them |
| Dirty.MergeTight | kernel-rs/src/gui/dirty.rs:56-67 | merging two touching rectangles stays inside every non-touching cover of the damage |
| Dirty.LeastCoverUnique | kernel-rs/src/gui/dirty.rs:51-80 | there is only one least cover of a damage set, so the final rectangles do not depend on the order of reports |
| Dirty.MergeStep | kernel-rs/src/gui/dirty.rs:58-66 | swallowing one entry keeps cover and tightness of the rest of the list |
| Dirty.DirtyRegion.constructor | kernel-rs/src/gui/dirty.rs:36-40 | an empty list for the given bounds |
| Dirty.DirtyRegion.Merge | kernel-rs/src/gui/dirty.rs:56-67 | the restarting loop ends with a rectangle that touches no entry, keeping cover and tightness; it terminates by the pair (entries, entries left) |
| Dirty.DirtyRegion.Collapse | kernel-rs/src/gui/dirty.rs:72-80 | on overflow one rectangle covers everything reported since the last flush |
| Dirty.DirtyRegion.Add | kernel-rs/src/gui/dirty.rs:51-80 | the list stays non-empty, in bounds, pairwise non-touching and at most 16 long, covers all clipped damage, and is the least cover unless it overflowed |
| Dirty.DirtyRegion.AddAll | kernel-rs/src/gui/dirty.rs:87-95 | one rectangle covers the whole screen |
| Dirty.DirtyRegion.Flush | kernel-rs/src/gui/dirty.rs:98-103 | hands out every rectangle and forgets the damage |
| Surface.ClipsAgree | kernel-rs/src/gui/surface.rs:59-75 | clipping to a surface and clipping to the damage bounds keep the same pixels |
| Surface.FillRect | kernel-rs/src/gui/surface.rs:77-88 | colours exactly the pixels of the rectangle that lie on the surface |
| Surface.BlitClipped | kernel-rs/src/gui/wm.rs:478-495 | copies exactly the pixels of the picture that lie inside the clip |
| Surface.CopyRect | kernel-rs/src/gui/wm.rs:583-594 | copies exactly one rectangle of the back buffer |
| Compositor.ReplaceAt | kernel-rs/src/gui/wm.rs:342-422 | replacing a window changes no pixel outside its old and new footprint |
| Compositor.WindowManager.constructor | kernel-rs/src/gui/wm.rs:756-775 | start-up reports the whole screen as damage |
| Compositor.WindowManager.CreateWindow | kernel-rs/src/gui/wm.rs:248-300 | opens a focused, freshly rendered window in the lowest free slot, or fails without effect; stale pixels stay covered by damage |
| Compositor.WindowManager.ContentChanged | kernel-rs/src/gui/wm.rs:315-320 | new content: the footprint becomes damage before the cache goes stale |
| Compositor.WindowManager.HitTest | kernel-rs/src/gui/wm.rs:324-340 | the topmost window under the pointer |
| Compositor.WindowManager.Unfocus | kernel-rs/src/gui/wm.rs:359-365 | the window loses the focus, its title bar goes stale and its footprint becomes damage |
| Compositor.WindowManager.Focus | kernel-rs/src/gui/wm.rs:367-372 | the window gains the focus; only a window that did not have it goes stale |
| Compositor.WindowManager.Press | kernel-rs/src/gui/wm.rs:355-383 | moves the focus to the window hit and, in its title bar, starts a drag that remembers the grabbed point |
| Compositor.MouseStepMeans | kernel-rs/src/gui/wm.rs:342-422 | a look at the mouse changes no content and moves only the dragged window; without a new press no cache is invalidated; without the button nothing moves and a drag ends |
| Compositor.DragFollows | kernel-rs/src/gui/wm.rs:388-405 | while the button is held the grabbed point stays under the mouse as far as the screen edges allow, and otherwise the window stops exactly at them: 40 columns and the title bar stay on the screen |
| Compositor.PressMeans | kernel-rs/src/gui/wm.rs:324-383 | a new press on the topmost window under the pointer gives it the focus and takes it from the old holder; in the 20 rows above the body it grabs the window at that point, in the body it starts no drag |
| Compositor.PressOutside | kernel-rs/src/gui/wm.rs:324-386 | a press on no window changes nothing |
| Compositor.WindowManager.MoveTo | kernel-rs/src/gui/wm.rs:388-418 | a move damages both footprints and invalidates no cache |
| Compositor.WindowManager.UpdateMouse | kernel-rs/src/gui/wm.rs:342-422 | focus, drag state and windows change exactly as one mouse step prescribes, and every stale pixel stays inside the damage |
| Compositor.WindowManager.MoveCursor | kernel-rs/src/gui/wm.rs:515-522 | the old and the new place of the cursor become damage |
| Compositor.WindowManager.RenderStale | kernel-rs/src/gui/wm.rs:531-535 | afterwards every cached frame is what a fresh render would give, which FrameShows says in screen terms |
| Compositor.FrameShows | kernel-rs/src/gui/wm.rs:177-237 | a rendered window shows its content upright in the body, the close button, title text and bar in the colours of its focus above it, and a one-pixel border round both |
| Compositor.RepaintDepicts | kernel-rs/src/gui/wm.rs:502-597 | a full repaint gives every pixel the colour a viewer expects: opaque cursor, else topmost window, else wallpaper |
| Compositor.OneColour | kernel-rs/src/gui/wm.rs:502-597 | there is only one such colour for each pixel |
| Compositor.WindowManager.Animate | kernel-rs/src/gui/wm.rs:523-528 | every animated window gets its new content and becomes damage, no other window changes |
| Compositor.WindowManager.PaintRect | kernel-rs/src/gui/wm.rs:556-578 | inside the rectangle the back buffer shows topmost cached frame over wallpaper, outside the header band |
| Compositor.WindowManager.PaintAll | kernel-rs/src/gui/wm.rs:555-579 | all damaged rectangles together |
| Compositor.WindowManager.DrawCursor | kernel-rs/src/gui/wm.rs:449-468 | cursor pixels appear where the bitmap is opaque, clipped to the screen, and nothing else changes |
| Compositor.WindowManager.Flip | kernel-rs/src/gui/wm.rs:583-596 | the screen takes over the back buffer inside the rectangles and nowhere else |
| Compositor.WindowManager.PaintAndFlip | kernel-rs/src/gui/wm.rs:546-597 | if the stale pixels lie in the rectangles, all pixels outside the header band are right afterwards |
| Compositor.WindowManager.Repaint | kernel-rs/src/gui/wm.rs:530-597 | after draining the damage every pixel outside the header band is what a full repaint would draw, which is the colour a viewer expects |
| Compositor.WindowManager.ComposeFrame | kernel-rs/src/gui/wm.rs:502-597 | incremental repaint equals full repaint: after one frame every screen pixel outside the header band shows the opaque cursor, else the topmost window there (its own content upright in the body; close button, title and border by focus), else wallpaper; animated windows have their new content, the others their old one; focus, drag and windows are those of one mouse step |
| FileTree.StoredReads | kernel-rs/src/fs/tmpfs.rs:57-60 | a name without NUL that fits the field survives storage |
| FileTree.PathLeadsBack | kernel-rs/src/fs/tmpfs.rs:79-120 | following the names on the way from the root to a live node leads to that node |
| FileTree.PlainPathIsOwn | kernel-rs/src/fs/tmpfs.rs:79-120 | a plain path that resolves is the canonical path of the node it resolves to |
| FileTree.SamePath | kernel-rs/src/fs/tmpfs.rs:79-120 | two plain paths to one node are equal |
| FileTree.AddKeepsTree | kernel-rs/src/fs/tmpfs.rs:185-201 | adding a new name keeps the tree a tree if and only if the parent is a directory, which the code does not check |
| FileTree.RemoveKeepsTree | kernel-rs/src/fs/tmpfs.rs:283-290 | unlinking a file keeps the tree |
| FileTree.MoveKeepsTree | kernel-rs/src/fs/tmpfs.rs:292-310 | a rename keeps the tree if and only if the new parent is a directory outside the moved subtree; the code checks neither |
| FileTree.RenameMovesSubtree | kernel-rs/src/fs/tmpfs.rs:292-310 | every path new+suffix resolves to what old+suffix resolved to, old+suffix is gone, and every other plain path resolves as before |
| FileTree.MovedWalk | kernel-rs/src/fs/tmpfs.rs:292-310 | any path that resolved, dots included, is lost after a rename if it passed through the moved node and means the same if it did not |
| Paths.PathTextNames | kernel-rs/src/fs/tmpfs.rs:79-120 | the slash-joined text of plain names has exactly those components |
| Paths.ComponentsJoin | kernel-rs/src/fs/tmpfs.rs:79-120 | a slash separates: the components of a joined path are those of both sides |
| Tmpfs.FileSystem.constructor | kernel-rs/src/fs/tmpfs.rs:206-219 | an empty root directory, no files, an empty pool |
| Tmpfs.FileSystem.FindChild | kernel-rs/src/fs/tmpfs.rs:65-76 | the first live node of that parent and name |
| Tmpfs.FileSystem.Lookup | kernel-rs/src/fs/tmpfs.rs:79-120 | the hand-written scan computes what following the components does |
| Tmpfs.FileSystem.LookupParent | kernel-rs/src/fs/tmpfs.rs:124-183 | parent and last component, refused for an over-long leaf, for dot names and for the root |
| Tmpfs.FileSystem.AllocNode | kernel-rs/src/fs/tmpfs.rs:185-201 | fills the first free slot, or fails if and only if there is none |
| Tmpfs.FileSystem.Mkdir | kernel-rs/src/fs/tmpfs.rs:239-252 | succeeds exactly when the parent exists, the name is free and a slot is free; one node is added |
| Tmpfs.WhenFree | kernel-rs/src/fs/tmpfs.rs:124-182 | mkdir, create and rename accept a path exactly when the directories before the last component are there, that component has at most 23 bytes and is no dot name, and the path leads nowhere yet (or, for create, to a file) |
| Tmpfs.NeverFree | kernel-rs/src/fs/tmpfs.rs:124-182 | a path that is not absolute or has no component is refused by all three |
| Tmpfs.FileSystem.Unlink | kernel-rs/src/fs/tmpfs.rs:283-290 | removes exactly one file; directories and missing paths are refused |
| Tmpfs.FileSystem.Rename | kernel-rs/src/fs/tmpfs.rs:292-310 | succeeds exactly when the source exists, is not the root, and the new name is free; one node moves |
| Tmpfs.FileSystem.Create | kernel-rs/src/fs/tmpfs.rs:255-281 | on success the path names a file with exactly the given bytes and every other file keeps its bytes; success exactly when the name is usable and the pool has room; a failed call leaves an empty file behind if and only if the name could have been added |
| Tmpfs.CreateTooBig | kernel-rs/src/fs/tmpfs.rs:255-281 | creating /a with more bytes than the pool holds fails, and /a is an empty file afterwards |
| Tmpfs.FileSystem.NodeRead | kernel-rs/src/fs/tmpfs.rs:351-368 | returns the bytes of the file from the offset on, as many as were asked for or as there are; refused for anything but a file |
| Tmpfs.FileSystem.Relocate | kernel-rs/src/fs/tmpfs.rs:384-393 | the file moves to a fresh extent and every other file keeps its bytes |
| Tmpfs.FileSystem.Overwrite | kernel-rs/src/fs/tmpfs.rs:395-396 | a splice in place that touches no other file |
| Tmpfs.FileSystem.NodeWrite | kernel-rs/src/fs/tmpfs.rs:370-398 | splices the buffer into that one file, also when it relocates, and leaves all other files unchanged; refused exactly when sparse, out of room or not a file |
| Tmpfs.SpliceReads | kernel-rs/src/fs/tmpfs.rs:351-398 | a write shows up in later reads: the new bytes where they were written, the old ones before and after |
| Tmpfs.WriteThenRead | kernel-rs/src/fs/tmpfs.rs:351-398 | reading back a successful write gives the bytes written, also when the file was relocated |
| Tmpfs.AddedMeans | kernel-rs/src/fs/tmpfs.rs:239-252 | after adding a path: a tree if and only if the parent is a directory, and then the path leads to the new node and every old lookup is kept |
| Tmpfs.CreatedMeans | kernel-rs/src/fs/tmpfs.rs:255-281 | the same for creating or replacing a file |
| Tmpfs.RenamedMeans | kernel-rs/src/fs/tmpfs.rs:292-310 | a tree remains if and only if the new parent is a directory outside the subtree; then the new path leads to the moved node if and only if it did not itself pass through that node, as no plain path does |
| Tmpfs.RunsStayTrees | kernel-rs/src/fs/tmpfs.rs:185-310 | every state of every run of steps of mkdir, create, unlink and rename within the side conditions is a tree in which looking up the text of the path of any live node finds that node |
| Tmpfs.MkdirDoes | kernel-rs/src/fs/tmpfs.rs:239-253 | what a successful mkdir does in a tree is such a step if and only if it leaves a tree |
| Tmpfs.CreateDoes | kernel-rs/src/fs/tmpfs.rs:255-281 | a successful create of a new file is such a step if and only if it leaves a tree; one that replaces a file always is and does |
| Tmpfs.FailedCreateDoes | kernel-rs/src/fs/tmpfs.rs:255-281 | a create that fails for want of room adds an empty file, as such a step if and only if it leaves a tree |
| Tmpfs.UnlinkDoes | kernel-rs/src/fs/tmpfs.rs:283-290 | a successful unlink is such a step and leaves a tree |
| Tmpfs.RenameDoes | kernel-rs/src/fs/tmpfs.rs:292-310 | a successful rename is such a step if and only if it leaves a tree |
| Tmpfs.NodePathResolves | kernel-rs/src/fs/tmpfs.rs:79-120 | resolving the text of the canonical path of a live node returns that node |
| Tmpfs.MkdirUnderFile | kernel-rs/src/fs/tmpfs.rs:148-159 | in a tree with a file /a, mkdir of /a/b succeeds and the table is no tree any more |
| Tmpfs.RenameIntoItself | kernel-rs/src/fs/tmpfs.rs:297-305 | in a tree with a directory /a, renaming /a to /a/b succeeds and the table is no tree any more |
| Tmpfs.RenameThroughItself | kernel-rs/src/fs/tmpfs.rs:292-310 | renaming /a to /a/../b keeps the tree, but that path leads nowhere afterwards |
| Chdir.PopComponent | kernel-rs/src/syscall.rs:413-426 | the backwards scan removes the last component and keeps the slash before it, all indices in bounds |
| Chdir.PushComponent | kernel-rs/src/syscall.rs:427-437 | appends a slash and the component, or reports that the 96-byte buffer is full |
| Chdir.Normalize | kernel-rs/src/syscall.rs:391-440 | the loop splits components as path resolution does and computes their rewriting |
| Chdir.ShortPathFits | kernel-rs/src/syscall.rs:391-440 | every path of at most 94 bytes fits the buffer |
| Chdir.PlainStored | kernel-rs/src/syscall.rs:391-440 | a path without dots is stored as its names with one slash before each, and fits exactly if that has at most 94 bytes |
| Chdir.NoFaultAgrees | kernel-rs/src/syscall.rs:413-437 | without a dot-dot met at a trailing slash the text names the directory reached |
| Chdir.FaultDiverges | kernel-rs/src/syscall.rs:413-437 | once a dot-dot met a trailing slash, no later component makes the text right again |
| Chdir.StoredCwdMeans | kernel-rs/src/syscall.rs:391-440 | the stored working directory resolves to the directory asked for if and only if no dot-dot was processed with the text ending in a slash |
| Chdir.FaultExample | kernel-rs/src/syscall.rs:413-426 | for all plain names a and b, /a/b/../.. means the root but is stored as the text /a/ |
| Chdir.FaultInATree | kernel-rs/src/syscall.rs:413-437 | a tree with directories /a and /a/b, in which the path /a/b/../.. leads to the root and the text stored for it to /a |
| Chdir.AbsPathIs | kernel-rs/src/syscall.rs:116-145 | the absolute form is the argument if that is absolute, else working directory, slash and argument, cut after 255 bytes |
| Chdir.AbsolutePathMeans | kernel-rs/src/syscall.rs:124-126 | an absolute argument means the same whatever the working directory is |
| Chdir.RelativePathMeans | kernel-rs/src/syscall.rs:116-145 | a relative path that fits resolves to where its components lead from the working directory, and nowhere if that does not resolve |
| Chdir.SysChdir | kernel-rs/src/syscall.rs:381-444 | succeeds exactly when the argument, from the root or from the working directory, leads to a directory and the rewriting fits, which it does for every path of at most 94 bytes; otherwise the working directory stays; the stored text leads there exactly when the path has no fault |
| Ustar.OctalDigits | kernel-rs/src/fs/initrd.rs:8-17 | reading the octal digits of a number yields the number |
| Ustar.ReadOctal | kernel-rs/src/fs/initrd.rs:8-17 | the loop reads the leading octal digits and stops at the first other byte |
| Ustar.TrimPadded | kernel-rs/src/fs/initrd.rs:28-30 | trimming trailing NULs inverts padding a name |
| Ustar.MemberReads | kernel-rs/src/fs/initrd.rs:26-32 | a member anywhere in an archive is read as the entry it was written from, and the advance is header plus padded data |
| Ustar.CutMemberReads | kernel-rs/src/fs/initrd.rs:69-70 | of an archive cut off inside a member, the data that is there is read |
| Ustar.ScanInvertsEncode | kernel-rs/src/fs/initrd.rs:19-80 | for every list of entries and every other header content the loop visits exactly the names, types and data written, in order ("ustar Interchange Format" in the pax section of POSIX.1) |
| Ustar.ReadHeader | kernel-rs/src/fs/initrd.rs:25-32 | header fields at any offset, and the next offset |
| Initrd.AddGood | kernel-rs/src/fs/tmpfs.rs:239-252 | a directory added under names that no file obstructs keeps the tree, every lookup and the bytes of every file |
| Initrd.CreateGood | kernel-rs/src/fs/tmpfs.rs:255-281 | a file created or replaced holds the new bytes under its name, every other unpacked file keeps its own |
| Initrd.MakeParents | kernel-rs/src/fs/initrd.rs:55-68 | afterwards every directory named in the path exists, unless the node table is full |
| Initrd.UnpackEntry | kernel-rs/src/fs/initrd.rs:50-75 | a counted entry is there; an uncounted file had no slot, no pool space, no name, or a directory in its place |
| Initrd.TarUnpack | kernel-rs/src/fs/initrd.rs:19-80 | visits exactly the scanned entries at offsets that are multiples of 512; for a tidy archive every counted file resolves under its name to the bytes of its last counted entry, every counted directory is there, and every uncounted file had a reason that still holds |
| Initrd.EntryNames | kernel-rs/src/fs/initrd.rs:34-45 | the names of an entry are the components of its name field, with or without a trailing slash |
| Initrd.FileRestored | kernel-rs/src/fs/initrd.rs:50-75 | after unpacking, the path of a counted entry of type 0 or NUL is a file with the bytes of the last such entry |
| Initrd.DirRestored | kernel-rs/src/fs/initrd.rs:50-54 | the path of a counted entry of type 5 is a directory |
| Initrd.NotRestored | kernel-rs/src/fs/initrd.rs:55-75 | an uncounted file entry met a full node table or pool, has no name, or is a directory there |
| Sched.Scheduler.PickNext | kernel-rs/src/sched.rs:282-291 | the Runnable thread nearest behind the current slot; a Zombie or Unused slot is never chosen while any thread is Runnable |
| Sched.Scheduler.SwitchTo | kernel-rs/src/sched.rs:294-312 | saves the frame of the old thread, loads frame, CR3 and kernel stack of the new one |
| Sched.Scheduler.Reschedule | kernel-rs/src/sched.rs:324-328 | hands the processor to the next Runnable thread, or leaves it where it is |
| Sched.Scheduler.SchedTick | kernel-rs/src/sched.rs:315-329 | one tick is one step of the machine: it counts, and reschedules when the slice is over |
| Sched.Scheduler.SchedYield | kernel-rs/src/sched.rs:331-338 | a yield ends the slice at once |
| Sched.Scheduler.ThreadExit | kernel-rs/src/sched.rs:343-352 | the thread becomes a Zombie and another thread runs |
| Sched.Scheduler.KthreadCreate | kernel-rs/src/sched.rs:179-224 | the lowest unused slot becomes a Runnable kernel thread that will start in ring 0 in the trampoline, with function and argument in rbx and rdi, at the top of its own four stack pages; failure changes nothing |
| Sched.Scheduler.ThreadCreateUser | kernel-rs/src/sched.rs:226-280 | the lowest unused slot becomes a Runnable user thread that will start in ring 3 at the entry point on the given stack, interrupts on and all other registers zero; when no stack can be had the slot stays taken |
| Sched.Scheduler.SchedReap | kernel-rs/src/sched.rs:355-370 | frees space and stack of a Zombie and recycles its slot, with no bad free; anything else is left alone |
| Sched.Scheduler.FindSlot | kernel-rs/src/sched.rs:182-187 | the lowest unused slot |
| Sched.Scheduler.TakeStack | kernel-rs/src/sched.rs:192-195 | the lowest run of four free pages, or nothing |
| Sched.Scheduler.constructor | kernel-rs/src/sched.rs:163-176 | the boot context runs in the kernel space and the machine is safe |
| Sched.StepShape | kernel-rs/src/sched.rs:282-352 | every step keeps 32 slots, a current slot inside the table and a slice counter below 5 |
| Sched.HandMoves | kernel-rs/src/sched.rs:282-329 | each ended slice runs the waiting thread or moves strictly closer to it |
| Sched.BoundedWaiting | kernel-rs/src/sched.rs:282-338 | over every run, a thread that stays Runnable is dispatched before 31 slices have ended, whatever other threads do |
| Sched.BoundedWaitingTicks | kernel-rs/src/sched.rs:315-329 | hence within 155 timer ticks |
| Sched.WholeSlice | kernel-rs/src/sched.rs:315-322 | a thread that neither yields nor exits is not preempted before the fifth tick of its slice |
| Sched.ResumesWhereStopped | kernel-rs/src/sched.rs:294-312 | over every run, a thread resumes with exactly the frame the interrupt found when it was taken off the processor |
| Sched.StartsAsCreated | kernel-rs/src/sched.rs:206-215 | over every run, its first dispatch loads rip, rsp, selectors and flags as the creator asked, for kernel and user threads, and zero in all other registers |
| Sched.RunsInItsSpace | kernel-rs/src/sched.rs:294-312 | whenever a user thread runs, CR3 is the space it was created with and the interrupt stack is the top of its own four pages |
| Sched.ExitIsFinal | kernel-rs/src/sched.rs:343-352 | over every run, a thread that exited does not run again and waits as a Zombie for the reaper |
| Sched.ReapTakesNothing | kernel-rs/src/sched.rs:355-370 | reaping a Zombie leaves every other thread its space with all its pages, and its stack |
| Sched.CreateUserSafeIff | kernel-rs/src/sched.rs:254-280 | creating a user thread keeps the machine safe if and only if no slot was free or a stack could be allocated |
| Sched.CreateUserExample | kernel-rs/src/sched.rs:255-263 | a safe machine without four free pages in a row that creating a user thread makes unsafe |
| Sched.StepSafe | kernel-rs/src/sched.rs:179-370 | every step keeps: the running thread is Runnable, CR3 is its space, the TSS stack is its own when it is a user thread, and no two threads share a space or a stack page |
| Sched.RunsStaySafe | kernel-rs/src/sched.rs:179-370 | so it holds in every state of every run |
| Sched.ReapInARun | kernel-rs/src/syscall.rs:513-535 | a reap anywhere in a run destroys neither the loaded space nor the kernel stack in use |
| Sched.StepBooks | kernel-rs/src/sched.rs:179-370 | every step keeps each managed page in exactly one place: free, in one space, in one kernel stack, or lost |
| Sched.RunsConserve | kernel-rs/src/sched.rs:179-370 | so over every run, with any interleaving of spawns, sbrks, exits and reaps, no page appears or disappears except those memory operations lost |
| Sched.AllComesBack | kernel-rs/src/sched.rs:355-370 | when all threads of a run are reaped and the spaces are those of the start, exactly the lost pages are missing from the free set |
| Sched.BooksOpen | kernel-rs/src/sched.rs:163-176 | the books of any safe machine can be opened |
| Sched.SbrkRespects | kernel-rs/src/syscall.rs:541-567 | the memory work of an sbrk takes nothing a thread holds and loses exactly the pages it says |
| Sched.SpawnRespects | kernel-rs/src/proc.rs:52-121 | neither does that of a spawn, successful or undone |
| Sched.DropRespects | kernel-rs/src/proc.rs:111-115 | nor the removal of a space no thread runs in |
| Vterm.LayoutSnoc | kernel-rs/src/vterm.rs:84-114 | the unbounded layout of a text, folded at 56 columns with eager wrap, can be kept up byte by byte |
| Vterm.LinesOfText | kernel-rs/src/vterm.rs:84-99 | splitting a text into lines undoes joining them with newlines |
| Vterm.ReturnsDropped | kernel-rs/src/vterm.rs:89-91 | carriage returns leave no trace |
| Vterm.FoldAt | kernel-rs/src/vterm.rs:100-110 | column c of row r of a folded line is its character 56 r + c, and all rows but the last are full |
| Vterm.ShortTextShown | kernel-rs/src/vterm.rs:84-114 | a text of at most 14 short lines stands on the screen as written, character by character, blank elsewhere |
| Vterm.Terminal.constructor | kernel-rs/src/vterm.rs:52-67 | a blank screen, the cursor at the top left, no input |
| Vterm.Terminal.Scroll | kernel-rs/src/vterm.rs:75-81 | every row moves up by one and the last is blank |
| Vterm.Terminal.Putc | kernel-rs/src/vterm.rs:84-114 | the screen stays the last 14 rows of the layout of everything written, the cursor at its end |
| Vterm.Terminal.Write | kernel-rs/src/vterm.rs:84-114 | after any bytes the 14 by 56 grid equals the end of their layout padded with blanks, and the cursor is in bounds |
| Vterm.Terminal.Push | kernel-rs/src/vterm.rs:117-128 | the input ring is a queue of at most 127 characters; a character that does not fit is dropped |
| Vterm.Terminal.Getc | kernel-rs/src/vterm.rs:130-141 | characters come out in the order they were typed |

## Left out

- Interrupts in the middle of a system call, a window operation or a compositor frame; each is atomic here.
- Page 0 is assumed never to be free, since address 0 is the failure value of the allocator (`kernel-rs/src/mm/pmm.rs:118-120`).
- Page-table flags for write-through and cache-disable, which nothing sets; upper-half mappings beyond their being shared; TLB flushes.
- ELF images with headers outside the file, segments outside the lower half or filesz above memsz: the loader contracts ask for a well-formed image, as the kernel does not validate it.
- Vmm.AddressSpaceManager.Map: asks for a frame that nobody owns, as every caller passes a page it has just allocated; `map` itself does not test it, and ownership would be lost.
- Lifecycle.SpawnElf: the kernel stack is allocated here without the search for a thread slot, which Sched.Scheduler.ThreadCreateUser models.
- Validation of user pointers, user-memory faults, and the copying of strings from user space.
- Overflow of 32-bit screen coordinates, and the row pitch of surfaces and frame buffer: a surface is a two-dimensional array.
- Compositor.WindowManager.ComposeFrame: says nothing about the header band, whose text is drawn without clipping (`kernel-rs/src/gui/wm.rs:558-561`).
- Compositor.WindowManager.CreateWindow: whether memory for the surfaces could be had is a parameter.
- Glyphs, the cursor bitmap and what paint hooks draw are arbitrary; the unclipped `blit` of surfaces, terminals opened by a key, and frame statistics are not modelled.
- Directory listing (`list`), `getdents`, file descriptors, `node_data` and the other read-only accessors of the file system: only easy members.
- Initrd.TarUnpack: the statement about the resulting files is for archives with plain names in which no file has the name of a directory another entry needs, unpacked into a tree without files.
- UTF-8 validity of names: all text is bytes, so the branches for invalid UTF-8 do not appear; thread and window names are left out.
- Sched.Scheduler.ThreadExit: the boot context is assumed never to exit in the run theorems; its main loop does not end (`kernel-rs/src/main.rs:89-100`).
- `sys_waitpid` as a loop of yields: its reap is a step of the scheduler machine, its waiting is not modelled.
- Thread names, file descriptors, exit statuses and terminal numbers in the thread table; the thread count kept for listings.
- The constant offset of the direct map in kernel stack addresses.
- The table of four terminals: one terminal is modelled, with its in-use flag; the repaint hook is left out.
- Assembly stubs, descriptor tables, interrupt controller, serial port, keyboard and mouse decoding, logging, the kernel shell, user programs other than the start-up reader of the argument vector.
- Time: ticks are counted by the scheduler only, sleeping and uptime are not modelled.
