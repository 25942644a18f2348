# Verified models of the m5 simulator

This project models seven parts of the m5 full-system simulator and proves what each of them promises.

* **The decode translator** of the ISA description language (`Decode*.dfy`). A decode block is compiled to nested C
  `switch` statements. The model has the abstract syntax, its meaning, a small C language with `switch` fall-through,
  the grammar actions with their format and default stacks, and a proof that the emitted code decodes every machine
  instruction to its meaning. Blocks are also resolved to decision trees, a second account of formats and defaults that
  is proved to agree.
* **The libelf writer** (`Elf*.dfy`, `Numbers.dfy`). The layout pass, the image writer that fills a buffer in place, the
  top-level `elf_update`, what a reader finds by following the headers, string lookup and the reference-counted
  descriptors of nested archives.
* **The critical-path annotation engine** (`Cpa*.dfy`). Interning tables, machine stacks, links held back until a
  system call starts their target, byte queues whose records are shared with a pending log, the annotation file, and
  checkpointing. The engine is one class, `Cpa.Cpa`, whose invariant `Valid` is kept by every step. `CpaModel.dfy` says on
  plain values what each call does (numbers are positions in lists, a queue is a stream of bytes tagged by record, the
  log is a list), every step of the class is proved to do just that, and laws of whole runs are proved on the values;
  among them what the log alone tells a reader.
* **CRC-32** (`Crc*.dfy`): the nibble-table routine, the disabled bit-at-a-time reference and the big-endian routine,
  against long division by the generator polynomial.
* **The Internet checksum** (`IpChecksum.dfy`): the unrolled loop and the carry folding, against one's-complement
  arithmetic (sections 1 and 2(B) of RFC 1071).
* **Containers** (`DblList.dfy`, `CircleBuf.dfy`, `ChunkGenerator.dfy`): a circular doubly linked list with a dummy node,
  a circular buffer seen as a history, and the aligned chunk generator.

`dafny verify dfyconfig.toml` checks the whole project.

## What the proofs found

* A nested decode block is emitted without a `break`. When every format's code returns this does not matter
  (`DecodeCorrect`). For any format that does not return there is a block where the next case runs too
  (`FallThroughHappens`), and `DecodeExactlyOnce` gives the exact condition.
* The layout accepts a section whose requested alignment is smaller than the file alignment of its data type, but the
  writer then stops at its own alignment assertion. `WriteByteAligned` builds such an object: bytes of odd length and
  then a symbol table. `ElfObject.Elf.Update` says exactly when an image is written: every file-occupying section is
  writable and the header fields can hold the section count and the offset of the section table. With 0xff00 or more
  sections the writer finds no section table to write, and its final length assertion fails.
* The writer refuses descriptors of size zero and those whose buffer is misaligned in memory for its type, since the
  translation step it calls fails on them, and it stops on descriptors without a buffer.
* The program header table is written at the running offset instead of at `e_phoff`; the two are proved equal.
* More than 0xffff program headers are counted in section 0, but the library's own reader looks there only if the
  section count is there too, and with a section count that large nothing is written. So such a count is never read back
  (`CountsReadBack`, `CountsWithoutSections`).
* The two branches of `elf_strptr` agree on every offset exactly when rounding each start up to its own alignment gives
  the offsets of the layout (`LookupsAgree`). This holds when all descriptors share one alignment
  (`SharedAlignmentAgrees`) and fails for mixed ones (`MixedAlignmentDiffers`).
* After a write `elf_update` drops the sections but keeps the count, so adding a section afterwards stops at an
  assertion (`UpdateThenNewScn`).
* A write that ends exactly at the end of a circular buffer and runs over the read cursor leaves `_start` one past the
  end, and the next consuming read copies a negative number of bytes (`PastTheEnd`). No other write does that
  (`CursorStays`), and a run can be followed by a read at any point exactly when it has no such write
  (`SafeIffNeverPushed`).
* A consuming read of a circular buffer that has not rolled over and has nothing left to read gives bytes that were never
  written. In every other case it gives bytes in the order they were written (`UnreadIsRecent`).
* `ip_cksum_add` enters its loop body even for an empty word count, so with fewer than two bytes it reads past the
  buffer; `IpChecksum.CksumAdd` gives nothing exactly then.
* The chunk generator passes its unsigned chunk size to a rounding function that takes an `int`. With chunks of 2^31 bytes
  the mask is wrong: a region that starts at 2^32 is taken to be empty (`WidestChunkFails`). `AllChunks` covers a region
  exactly when it is one of the `Sound` ones, which are all regions for every smaller chunk size, including those that
  wrap around the end of the address space.
* Checkpoints do not save the links that wait for a system call. A caller therefore sees no difference between a restored
  engine and the saved one exactly when the saved one waited for no link (`RestoredAlike`). Otherwise two calls tell
  them apart (`LostLinkShows`), and any run that reaches no lost link gives the same results on both (`RunsAgree`). Such
  engines are reached by two calls (`WaitingIsReached`).
* The list of symbols whose states are to be ignored has no effect. The macro that builds it turns string literals into
  strings again, so the quotes and the terminating character are part of what is compared (`NeverSkipped`).
* Ending a machine reads the top of the stack before testing that the stack is not empty; in the model the run stops
  there. The record logged on leaving a nested machine names the machine that ended, not the one returned to.
* The lookup `getSm` inside the assertion made when a machine ends can never give another number than the top of the
  stack (`TopIsInterned`).

## Model

| member | source | states |
|---|---|---|
| `DecodeCodegen.DecodeCorrect` | src/arch/isa_parser.py:1511-1618 | if every format's code returns, running the generated nested switch under C fall-through returns exactly the instruction the block means, for every block and every field assignment |
| `DecodeCodegen.DecodeExactlyOnce` | src/arch/isa_parser.py:1511-1618 | for arbitrary formats: the intended instruction runs first, and alone exactly when it returns or the decode path leaves no code behind it |
| `DecodeCodegen.FallThroughHappens` | src/arch/isa_parser.py:1601-1610 | any format that does not return has an accepted block where a second instruction runs |
| `DecodeCodegen.BlockRuns` | src/arch/isa_parser.py:1511-1520 | the same for a block under any inherited default clause and any format in force |
| `DecodeCodegen.ExecConcat` | src/arch/isa_parser.py:293-296 | running joined code is running the first part and, unless it returned or broke off, the second |
| `DecodeCodegen.ListLabels` | src/arch/isa_parser.py:1543-1552 | the labels found in a statement list's code are those of its statements, through nested format blocks |
| `DecodeCodegen.MeaningIsKnown` | src/arch/isa_parser.py:1651-1675 | the instruction an accepted block decodes to always has a known format |
| `DecodeCodegen.BlockCompiles` | src/arch/isa_parser.py:1511-1520 | the generated switches are legal C exactly when no block repeats a constant, counting through format blocks |
| `DecodeTranslator.IsaParser.DefineInst` | src/arch/isa_parser.py:1651-1675 | an instruction with a format of its own is defined by that one, any other by the format on top of the stack; it is refused exactly when that format is unknown or there is none |
| `DecodeTranslator.IsaParser.DecodeBlock` | src/arch/isa_parser.py:1511-1520 | accepts exactly the good blocks, restores both stacks, and emits the specified code |
| `DecodeTranslator.IsaParser.StmtListCode` | src/arch/isa_parser.py:1543-1552 | accepts a statement list exactly when it is good (at most one default through nested formats), stacks restored |
| `DecodeTranslator.IsaParser.StmtCodeOf` | src/arch/isa_parser.py:1577-1618 | the same for one statement: a format block, a nested block or an instruction |
| `DecodeTranslator.Translate` | src/arch/isa_parser.py:1061-1064 | a fresh parser accepts exactly the good blocks, which are those that have a decision tree; the code it emits decodes every machine instruction to its meaning, which is the leaf the tree leads to, and compiles exactly when the constants of each block differ |
| `DecodeTree.TreeDecides` | src/arch/isa_parser.py:1511-1618 | resolving formats and defaults once, before any field is known, gives a tree of tests exactly when the translator accepts the block, and the tree leads every field assignment to what the block means |
| `DecodeTree.BlockAgrees` | src/arch/isa_parser.py:1511-1520 | the same inside any format blocks and default clauses, of which the innermost count |
| `DecodeTree.InstAgrees` | src/arch/isa_parser.py:1651-1675 | the format of an instruction is its own, else that of the innermost format block, and has to be known |
| `ElfLayout.LayoutCorrect` | ext/libelf/elf_update.c:266-317 | for any sections, each file-occupying one is well placed right after the ones before it; sections come in list order without overlap and the others are left alone |
| `ElfLayout.LaidOutWellPlaced` | ext/libelf/elf_update.c:136-225 | a section starts at the first offset that is a multiple of the least alignment suiting its header and all descriptors; descriptors are packed at such multiples, aligned as each asked; its header records offset, size, alignment and entry size and is otherwise unchanged |
| `ElfLayout.LaidOutFileAligned` | ext/libelf/elf_update.c:136-206 | a section whose alignment is open or a multiple of the file alignment starts at a file-aligned offset |
| `ElfLayout.PlaceInOrder` | ext/libelf/elf_update.c:162-173 | the running offset places descriptors in order and at multiples of their alignment |
| `ElfLayout.DataAligns` | ext/libelf/elf_update.c:140-160 | descriptors that pass the checks have power-of-two alignments, the right type and version |
| `ElfLayout.FinalAlignIs` | ext/libelf/elf_update.c:137-160 | the alignment used is the least common multiple of those asked for by the header, or the data type, and by every descriptor |
| `ElfLayout.DataComplaintIs` | ext/libelf/elf_update.c:140-160 | descriptors are accepted exactly when each has the right type, version and a power-of-two alignment that fits; otherwise the first wrong one is blamed for what is wrong with it |
| `ElfLayout.ComplaintIs` | ext/libelf/elf_update.c:113-160 | a section is placed exactly when it takes no room in the file, or its type is known and its descriptors are sound |
| `ElfLayout.FirstComplaintIs` | ext/libelf/elf_update.c:266-285 | the first pass succeeds exactly when every section can be placed, and otherwise reports the first that cannot |
| `ElfLayout.EndIs` | ext/libelf/elf_update.c:219-221 | the file is as long as its last file-occupying section reaches |
| `ElfTypes.FileTable` | ext/libelf/elf_types.m4:82-310 | for every type and class the size in the file is the sum of the members of the structure and the file alignment its widest member |
| `ElfTypes.MemoryTable` | ext/libelf/libelf_msize.m4:50-80 | the size in memory is the size in the file padded to the alignment |
| `ElfTypes.TypeOfIs` | ext/libelf/libelf_data.c:30-77 | a section type is translated to the one data type that lists it, and to none otherwise |
| `ElfImage.RenderCorrect` | ext/libelf/elf_update.c:663-772 | a sorted list of pieces renders to an image holding each piece at its offset and fill everywhere else, each byte once |
| `ElfUpdate.Memset` | ext/libelf/elf_update.c:574-576 | fills exactly the gap |
| `ElfUpdate.Emit` | ext/libelf/elf_update.c:574-596 | fill up to the piece, then the piece: the written prefix is the rendering of the pieces so far |
| `ElfUpdate.WriteData` | ext/libelf/elf_update.c:564-597 | the descriptor loop writes every descriptor or gives the verdict of the first that cannot be written |
| `ElfUpdate.WriteScn` | ext/libelf/elf_update.c:501-600 | a section is written at its offset, or its verdict is the specified one |
| `ElfUpdate.WriteScns` | ext/libelf/elf_update.c:723-729 | all sections in order, stopping at the first that cannot be written |
| `ElfUpdate.WriteShdrs` | ext/libelf/elf_update.c:731-766 | the section header table, one row per section |
| `ElfUpdate.ScnsVerdictIs` | ext/libelf/elf_update.c:524-583 | writing succeeds exactly when every file-occupying section is writable |
| `ElfUpdate.DataVerdictKind` | ext/libelf/elf_update.c:564-597 | a section is refused at its first descriptor that cannot be encoded: by an assertion without a buffer or with a fraction of an object, by an error if it is empty or misaligned |
| `ElfUpdate.ScnsVerdictKind` | ext/libelf/elf_update.c:723-729 | the writer stops at the first section it cannot write |
| `ElfObject.LayoutPlaces` | ext/libelf/elf_update.c:408-495 | after resynchronising, headers, sections and tables are where the writer expects them |
| `ElfObject.PreparedUpdates` | ext/libelf/elf_update.c:136-225 | sections set up with data and a fitting alignment are always writable after layout |
| `ElfObject.ByteAlignedSymtabAborts` | ext/libelf/elf_update.c:529 | an object with bytes of odd length and then a symbol table asking for byte alignment passes layout, and the writer's verdict on it is a failed assertion |
| `ElfObject.WriteByteAligned` | ext/libelf/elf_update.c:529 | writing such an object, from the beginning, stops at that assertion |
| `ElfReader.ReaderFindsHeaders` | ext/libelf/elf_update.c:386-495 | a written image starts with the executable header, as long as `e_ehsize` says, and has the program header table at `e_phoff` with `e_phentsize` bytes an entry; the header names class and version and is otherwise the one given |
| `ElfReader.ReaderFindsRow` | ext/libelf/elf_update.c:731-766 | row i of the section header table is found at `e_shoff` plus i times `e_shentsize`, is the final header of section i, and the table ends the file |
| `ElfReader.ReaderFindsData` | ext/libelf/elf_update.c:564-597 | every descriptor is found, encoded, at its offset within the bytes that `sh_offset` and `sh_size` of its row describe |
| `ElfReader.CountsReadBack` | ext/libelf/libelf_ehdr.c:40-88 | the counts a reader takes from the headers are those written exactly when both fit, or row 0 is consulted because the section count is there |
| `ElfReader.CountsWithoutSections` | ext/libelf/libelf_ehdr.c:187-199 | without sections a program header count of 0xffff or more cannot be read back |
| `ElfObject.Elf.NewScn` | ext/libelf/elf_scn.c:161-213 | appends a section numbered by its position, with section 0 first; a stale count stops it |
| `ElfObject.Elf.ComputeSectionExtents` | ext/libelf/elf_update.c:74-225 | the descriptor loops give the section its complaint, or place it well (see `LaidOutWellPlaced`) at the end of the file so far and move that end to its own |
| `ElfObject.Elf.ResyncSections` | ext/libelf/elf_update.c:266-317 | the section loop computes the specified layout, and the second pass ends at the same offset |
| `ElfObject.Elf.SetShnum` | ext/libelf/libelf_extended.c:46-73 | a count too large for the header goes to section 0, which is allocated if missing |
| `ElfObject.Elf.SetPhnum` | ext/libelf/libelf_extended.c:105-131 | the same for program headers |
| `ElfObject.Elf.ResyncElf` | ext/libelf/elf_update.c:320-495 | the new header, sections and file size, or the complaint |
| `ElfObject.Elf.WriteHeaders` | ext/libelf/elf_update.c:663-721 | executable header at 0 and program headers at `e_phoff` |
| `ElfObject.Elf.WriteElf` | ext/libelf/elf_update.c:619-772 | the image is the rendering of all pieces with the computed length; otherwise the failing section's verdict or a failed length assertion |
| `ElfObject.Elf.Update` | ext/libelf/elf_update.c:834-885 | a layout complaint, the size, the first rejected section's error or a failed assertion, each exactly when specified; otherwise the image, in which every byte is written once at the computed place |
| `ElfObject.UpdateThenNewScn` | ext/libelf/elf_scn.c:161-213 | after an image has been written no section can be added, unless there were none |
| `ElfStrptr.Strptr` | ext/libelf/elf_strptr.c:42-134 | both loops compute their specified lookups, with all error cases |
| `ElfStrptr.ResolvesTo` | ext/libelf/elf_strptr.c:66-92 | resolving by stored offsets finds exactly the byte of a descriptor that has the given offset in the section |
| `ElfStrptr.LookupsAgree` | ext/libelf/elf_strptr.c:66-130 | the two branches give the same byte or failure at every offset exactly when every rounded start is the layout's offset |
| `ElfStrptr.SharedAlignmentAgrees` | ext/libelf/elf_strptr.c:66-130 | with one shared alignment the branches agree on the offsets the layout computed |
| `ElfStrptr.MixedAlignmentDiffers` | ext/libelf/elf_strptr.c:94-130 | with mixed alignments they can differ |
| `ElfLibrary.Library.End` | ext/libelf/elf_end.c:37-86 | does exactly what the value-level step says: one activation less, then the unneeded ancestors released in turn; returns the activations left |
| `ElfLibrary.Library.Begin` | ext/libelf/elf_begin.c:82-154 | does exactly what the value-level step says; from an archive it returns a new descriptor below it for the member at the cursor and the archive counts it, from any other descriptor that descriptor with one more activation |
| `ElfLibrary.Library.OpenMember` | ext/libelf/libelf_ar.c:279-322 | a readable member is a new descriptor of its kind with one activation, whose parent is the archive, which counts it |
| `ElfLibrary.Library.OpenObject` | ext/libelf/elf_begin.c:39-80 | a new root descriptor, or nothing; exactly when an archive is opened for update one descriptor is released, the new one |
| `ElfLibrary.Library.Allocate` | ext/libelf/libelf_allocate.c:40-66 | a descriptor with the next number, one activation and no children, counted by its parent |
| `ElfLifetime.NothingLeft` | ext/libelf/elf_end.c:37-86 | if nothing is active, nothing is live |
| `ElfLifetime.BalancedLeavesNothing` | ext/libelf/elf_end.c:37-86 | the same from the calls and results alone: as many effective ends as begins for every descriptor if and only if nothing is live, and then all are released exactly once |
| `ElfLifetime.RunMatches` | ext/libelf/elf_begin.c:82-154 | in every run parents are live archives with exact child counts, nothing unneeded is kept, nothing is released twice, and the activations of a descriptor are the begins that returned it without the ends that took effect |
| `ElfLifetime.BeginsMember` | ext/libelf/elf_begin.c:145-149 | beginning from an archive adds one descriptor below it and changes nothing else but its count of members |
| `ElfLifetime.BeginsAgain` | ext/libelf/elf_begin.c:150-151 | beginning from any other descriptor changes only its activations |
| `ElfLifetime.BeginsFile` | ext/libelf/elf_begin.c:39-80 | beginning from a file adds one descriptor without a parent |
| `ElfLifetime.BeginsNothing` | ext/libelf/elf_begin.c:82-154 | exactly when a descriptor is returned, for every command |
| `ElfLifetime.EndResultIs` | ext/libelf/elf_end.c:42-46 | elf_end returns the activations that are left |
| `ElfLifetime.AncestorsKept` | ext/libelf/elf_end.c:47-84 | ending any descriptor keeps every archive around one that is still active |
| `ElfLifetime.NestedRun` | ext/libelf/elf_end.c:37-86 | with a member of a member, both archives ended first stay until the innermost end, which releases all three from the inside out |
| `ElfLifetime.EndsOk` | ext/libelf/elf_end.c:37-86 | what elf_end releases is the descriptor and its ancestors in turn, each inactive, and everything else is as it was but for exact child counts |
| `ElfLibrary.Library.Run` | ext/libelf/elf_begin.c:82-154 | any calls of elf_begin and elf_end, on any descriptor that is live, lead where the calls and their results say, up to the first that names a released one; nothing is live exactly when every descriptor has been ended as often as it was returned, and then each one ever allocated has been released exactly once |
| `ElfLifetime.ReleaseStep` | ext/libelf/elf_end.c:47-84 | releasing one more descriptor extends the chain of released ancestors |
| `ElfLifetime.OpenedAndEnded` | ext/libelf/elf_end.c:37-86 | opening a file or a member and ending it at once leaves every descriptor as it was and releases that one only |
| `Cpa.Cpa.GetSys` | src/base/cp_annotate.hh:324-340 | finds or adds a system with the next number and empty tables; tables stay inverse bijections |
| `Cpa.Cpa.GetSm` | src/base/cp_annotate.hh:284-297 | finds or adds a machine; fails exactly when the table is full; the reverse table gives its key back |
| `Cpa.Cpa.GetSt` | src/base/cp_annotate.hh:301-321 | finds or adds a kind of machine and a state of it; all other names keep their numbers |
| `Cpa.Cpa.GetQ` | src/base/cp_annotate.hh:344-361 | finds or adds a queue, which starts empty |
| `CpaTables.Intern` | src/base/cp_annotate.hh:284-297 | giving a new key the next number keeps caches and reverse table inverse to each other |
| `CpaTables.LooksUp` | src/base/cp_annotate.hh:284-297 | a number leads to its key and the key back to the number |
| `CpaTables.TableDetermines` | src/base/cp_annotate.hh:284-297 | the reverse table determines the caches |
| `CpaTables.NamesByNumber` | src/base/cp_annotate.cc:848-872 | the key written to the file lists every name in its own slot and leaves no slot empty |
| `CpaRuns.TablesInvert` | src/base/cp_annotate.hh:284-361 | in every state, every machine and queue number is found again from its key |
| `CpaSteps.TopIsInterned` | src/base/cp_annotate.cc:282-286 | the machine on top of a stack of a system is looked up under the same number, so the assertion never fails |
| `CpaSteps.DoSwSmEnd` | src/base/cp_annotate.cc:251-303 | does exactly what the model says: ends the top machine if the names match, pops it, drops its link, logs the link back and the return |
| `CpaSteps.CheckTop` | src/base/cp_annotate.cc:268-286 | tells whether the name matches and changes no table |
| `CpaSteps.SwSmBegin` | src/base/cp_annotate.cc:146-235 | does exactly what the model says: the new stack, links, completed record, last state and log entries; with the link flag the new machine leads back to the one on top of the stack; it stops exactly when the table is full or a link assertion fails |
| `CpaSteps.Place` | src/base/cp_annotate.cc:177-225 | a machine is pushed and joined to its caller and to a waiting link, or the run stops because it would be linked twice |
| `CpaSteps.SwSyscallLink` | src/base/cp_annotate.cc:774-806 | does exactly what the model says: one more held record under its name and frame; it stops exactly when one is already waiting there |
| `CpaSteps.SwLink` | src/base/cp_annotate.cc:699-725 | does exactly what the model says: the other machine is linked back to the running one; it stops exactly when the table is full or that machine is already linked |
| `CpaSteps.SwBegin` | src/base/cp_annotate.cc:349-378 | does exactly what the model says: ignores listed symbols, enters the named state unless in explicit mode, and logs it only if it changes |
| `CpaSteps.SwEnd` | src/base/cp_annotate.cc:381-409 | does exactly what the model says: leaves explicit mode and enters the state returned to |
| `CpaSteps.SkipsSymbol` | src/base/cp_annotate.cc:352-360 | the loop over the symbols to be ignored finds exactly the listed ones, as the macro spells them |
| `CpaModel.NeverSkipped` | src/base/cp_annotate.cc:50-72 | no name without a terminating character inside is ever ignored |
| `Cpa.Cpa.Add` | src/base/cp_annotate.cc:812-836 | the history grows by one record; links are not flushed |
| `Cpa.Cpa.Dump` | src/base/cp_annotate.cc:924-966 | writes nothing below the threshold, everything when asked to, else up to the first held record; written entries never change |
| `Cpa.Cpa.Hold` | src/base/cp_annotate.cc:802-803 | an unresolved link is pending and held |
| `Cpa.Cpa.Resolve` | src/base/cp_annotate.cc:211-216 | completes a held link in place; no written entry and no queue changes |
| `CpaRuns.WrittenIsResolved` | src/base/cp_annotate.cc:802-803 | in every state, no link without target is in the file and every awaited link is pending |
| `CpaRuns.FileHoldsHistory` | src/base/cp_annotate.cc:941-959 | in every state, record k of the file is the k-th record appended, as it looks now, and the rest are pending in order |
| `CpaRuns.IndexLeads` | src/base/cp_annotate.cc:946-947 | index entry k is the byte offset of record 100000(k+1) |
| `CpaRecords.EncodeReads` | src/base/cp_annotate.cc:950-956 | the 19 bytes of a record read back as its fields |
| `CpaRecords.RecordAt` | src/base/cp_annotate.cc:941-957 | record k occupies 19 bytes from 40 + 19k |
| `Cpa.Cpa.DoQ` | src/base/cp_annotate.cc:968-986 | appends `count` bytes tagged with a new record, or prepends them under `FL_QOPP` |
| `Cpa.Cpa.DoDq` | src/base/cp_annotate.cc:989-1051 | drops exactly the first `count` bytes, or all for -1; fails exactly when fewer are there; other queues keep their bytes |
| `CpaQueues.DropFront` | src/base/cp_annotate.cc:1025-1046 | the dequeue loop refines dropping bytes from a stream; its internal fatal is unreachable |
| `CpaQueues.DropBack` | src/base/cp_annotate.cc:636-656 | the resize loop refines keeping a prefix; its internal fatal is unreachable |
| `CpaQueues.StreamConcat` | src/base/cp_annotate.cc:968-986 | the stream of joined queues is the joined streams |
| `CpaRuns.EnqueueBytes` | src/base/cp_annotate.cc:968-986 | one queue gains `count` bytes tagged with a new record at the right end, everything else stays; overflow stops the run |
| `CpaRuns.DequeueBytes` | src/base/cp_annotate.cc:989-1051 | one queue loses its first bytes, exactly when it has enough; everything else stays |
| `CpaRuns.ResizeBytes` | src/base/cp_annotate.cc:617-658 | one queue is left with exactly max(0, size) bytes, a prefix or the old bytes and new ones, with the records logged for it |
| `CpaRuns.SwQueueCall` | src/base/cp_annotate.cc:411-658 | software enqueue, dequeue and resize do exactly what the model says |
| `CpaRuns.HwQueueCall` | src/base/cp_annotate.hh:416-442 | so do hardware enqueue and dequeue, whose queue may belong to another system |
| `CpaRuns.Step` | src/base/cp_annotate.cc:146-806 | every call ends as the model's does and, unless it stops the simulation, leaves a valid engine that shows the model's next state; written records stay |
| `CpaRuns.Run` | src/base/cp_annotate.cc:146-806 | every sequence of calls ends where the model's run ends: in particular each queue holds exactly the bytes left by the enqueues, dequeues and resizes of the run, each tagged with its record |
| `CpaShows.HasModel` | src/base/cp_annotate.hh:195-280 | every valid engine shows some model state |
| `CpaShows.NewShows` | src/base/cp_annotate.cc:102-131 | a new engine shows the empty one |
| `CpaLaws.RunsOk` | src/base/cp_annotate.cc:146-806 | in every state a run can reach, queues and held links refer to records of the right kind, and stacks and links to known machines |
| `CpaLaws.OthersKeep` | src/base/cp_annotate.cc:146-1051 | a call changes the bytes of no queue but the one it names |
| `CpaLaws.EndUndoesBegin` | src/base/cp_annotate.cc:146-303 | ending what was just begun succeeds, and restores all stacks, queues and other links |
| `CpaLog.LinkedToCaller` | src/base/cp_annotate.cc:177-198 | a machine begun with the link flag right after another on the same frame is linked back to that one, and the log gains a link record from it to the new one |
| `CpaLog.BegunLink` | src/base/cp_annotate.cc:177-198 | the same for any state of the engine: the link and its record name the machine on top of the stack |
| `CpaLog.BeginStops` | src/base/cp_annotate.cc:146-225 | beginning a machine stops the simulation exactly when no number is left for it or it would be linked back twice |
| `CpaLog.OtherStops` | src/base/cp_annotate.cc:251-806 | what ending and linking need, ignore and stop at |
| `CpaLog.LinkedLog` | src/base/cp_annotate.cc:699-725 | a link asked for leads from the machine on top of the stack and is logged with both |
| `CpaLog.HeldLog` | src/base/cp_annotate.cc:774-806 | a system-call link is logged for the machine on top of the stack, without its target, and held under name and frame |
| `CpaLog.HeldLinkArrives` | src/base/cp_annotate.cc:209-225 | the machine a held link waits for completes that record in place and is linked back to the one that waited |
| `CpaLog.EndedLog` | src/base/cp_annotate.cc:251-303 | the end of a machine logs where its link led, if it had one, and then its last state, if others are on the stack; both records name the machine that ended |
| `CpaLog.StateLog` | src/base/cp_annotate.cc:349-378 | entering a state logs the running machine and the number of the state, and nothing exactly when that was its last state |
| `CpaLog.StateEndLog` | src/base/cp_annotate.cc:381-409 | leaving explicit states logs the state named, even if it was the last, and nothing without a name |
| `CpaLog.StateEntered` | src/base/cp_annotate.cc:349-378 | which states are entered and which ignored, and the mode afterwards |
| `CpaLog.ExplicitKeepsOut` | src/base/cp_annotate.cc:306-409 | an explicit state keeps automatic ones out until it is left |
| `CpaLog.BackToAutomatic` | src/base/cp_annotate.cc:146-270 | beginning or ending a machine leaves explicit-state mode |
| `CpaLog.QueueMode` | src/base/cp_annotate.cc:412-658 | so do enqueuing and dequeuing, but not resizing |
| `CpaLog.SwQueueLog` | src/base/cp_annotate.cc:412-658 | queue records of software name the machine on top of the stack and the queue of the call |
| `CpaLog.HwQueueLog` | src/base/cp_annotate.hh:415-442 | queue records of hardware name the machine and the queue of the call |
| `CpaLog.HardwareAdds` | src/base/cp_annotate.hh:426-441 | hardware calls add their flag and touch no other |
| `CpaLog.FirstInFirstOut` | src/base/cp_annotate.cc:968-1051 | once what a queue held is removed, the bytes put in last are left |
| `CpaLog.LastInFirstOut` | src/base/cp_annotate.cc:968-1051 | with the stack flag, removing what was put in last restores the queue |
| `CpaLog.ResizeUndoes` | src/base/cp_annotate.cc:617-658 | resizing to the old size undoes an enqueue |
| `CpaLog.ResetRefills` | src/base/cp_annotate.cc:612-634 | resizing with the reset flag leaves only new bytes |
| `CpaLog.KnownRecords` | src/base/cp_annotate.hh:119-150 | the records of each kind, field by field, with the numbers of the operations and flags |
| `CpaReader.LogTells` | src/base/cp_annotate.cc:146-1051 | in every run the log alone tells the last state of every machine, by its last begin record, and the length of every queue, by adding up the records about it |
| `CpaReader.EngineTells` | src/base/cp_annotate.cc:146-1051 | so for the engine: its byte counts and last states are those its records tell |
| `CpaCheckpoint.SaveMap` | src/base/cp_annotate.cc:1079-1085 | numbering the entries of a container in any order lists each once |
| `CpaCheckpoint.LoadMap` | src/base/cp_annotate.cc:1231-1235 | reading back as many entries as the counter says restores the container |
| `CpaCheckpoint.LoadRows` | src/base/cp_annotate.cc:1238-1269 | the same for a vector of containers with their counters |
| `CpaCheckpoint.LoadStacks` | src/base/cp_annotate.cc:1291-1306 | restores every non-empty stack |
| `CpaCheckpoint.LoadQueues` | src/base/cp_annotate.cc:1358-1371 | restores every queue's records with their residual counts and puts them on the log again |
| `CpaRestore.CountersAgree` | src/base/cp_annotate.cc:1217-1225 | every counter used for reading back equals the size of its container |
| `CpaRestore.Serialize` | src/base/cp_annotate.cc:1056-1212 | the checkpoint lists every table, stack, link, mode, last state and queue |
| `CpaRestore.Unserialize` | src/base/cp_annotate.cc:1215-1372 | rebuilds a valid engine with the same tables, stacks, links and queue contents that waits for no system-call link |
| `CpaRestore.SaveAndRestore` | src/base/cp_annotate.cc:1056-1372 | saving and restoring gives a valid engine that agrees with the saved one in everything but the system-call links it waits for |
| `CpaReplay.StepAgrees` | src/base/cp_annotate.cc:146-1051 | the same call on engines in agreement ends the same way and keeps them in agreement, unless it starts or awaits again a machine that only one of them waits for |
| `CpaReplay.StepDiffers` | src/base/cp_annotate.cc:211-224 | a call that does so stops the first engine, or leaves it with a link the second lacks |
| `CpaReplay.RunsAgree` | src/base/cp_annotate.cc:146-1051 | engines in agreement stay alike over a run exactly when no call of it reaches a lost link; then every outcome and log agrees, and they end in agreement |
| `CpaReplay.LostLinkShows` | src/base/cp_annotate.cc:1272-1274 | for every lost link there are two calls on which a caller sees a different outcome or a different log, if the second engine waits for nothing, as after a restore |
| `CpaReplay.AlikeWhenNothingLost` | src/base/cp_annotate.cc:1272-1274 | engines in agreement, the second one waiting for nothing, cannot be told apart by outcomes and logs in any run exactly when no link was lost; the same with their links compared |
| `CpaReplay.ReachesIs` | src/base/cp_annotate.cc:146-225 | the calls that reach a lost link, by their guards, are those about one that go through |
| `CpaReplay.WaitingIsReached` | src/base/cp_annotate.cc:774-806 | two calls on a new engine after which it waits for a link |
| `CpaRestore.RestoredAlike` | src/base/cp_annotate.cc:1272-1274 | a caller sees no difference between a restored engine and the saved one, in any run, exactly when the saved one waited for no link |
| `CpaRestore.RunBoth` | src/base/cp_annotate.cc:146-1051 | the agreement of runs on two actual engines |
| `CpaRestore.Resume` | src/base/cp_annotate.cc:1056-1372 | checkpointing after any calls and continuing both engines: same results exactly when no call reaches a lost link |
| `CpaRestore.RestoredBytes` | src/base/cp_annotate.cc:1358-1371 | every queue of the restored engine holds the same bytes, tag by tag |
| `CpaRestore.RestoredStack` | src/base/cp_annotate.cc:1291-1306 | every frame of the restored engine has the same stack |
| `CpaRestore.SameNumber` | src/base/cp_annotate.hh:284-297 | engines with the same tables give a machine the same number, or both fail, and agree afterwards |
| `CrcCode.Crc32le` | src/base/crc.cc:66-85 | the nibble-table loop computes the bit-at-a-time CRC, which is the remainder of the message by the Ethernet generator (see `CrcIsRemainder`) |
| `CrcCode.Crc32leReference` | src/base/crc.cc:48-65 | so does the disabled reference loop |
| `CrcCode.Crc32be` | src/base/crc.cc:87-105 | the big-endian loop computes its 32-bit reversal |
| `CrcCode.RoutinesAgree` | src/base/crc.cc:48-105 | table and reference agree on every buffer, and the big-endian result is the mirrored word |
| `CrcCode.PolyReversed` | src/base/crc.cc:88-105 | the two polynomials are mirror images |
| `CrcCode.FourByteBurstDetected` | src/base/crc.cc:67-85 | two messages that differ only within four consecutive bytes have different CRCs |
| `CrcCode.FrameCheckVerifies` | src/base/crc.cc:67-85 | appending a message's CRC in little-endian order drives the register to 0 |
| `Crc.FeedLinear` | src/base/crc.cc:52-62 | the register is linear in state and message |
| `Crc.FeedInjective` | src/base/crc.cc:52-62 | different registers stay different on the same message |
| `Crc.ReachesZero` | src/base/crc.cc:52-62 | a nonzero difference of at most 32 bits never cancels |
| `Crc.NibbleTable` | src/base/crc.cc:69-74 | one table lookup is four single-bit shifts, for every word |
| `Crc.ShiftXor` | src/base/crc.cc:52-62 | a single-bit shift is linear |
| `CrcPolynomial.CrcIsRemainder` | src/base/crc.cc:39-85 | the register is the remainder of the message, first 32 bits complemented, after long division by the generator with exponents 0, 1, 2, 4, 5, 7, 8, 10, 11, 12, 16, 22, 23, 26 and 32 (clause 3.2.9 of IEEE 802.3) |
| `CrcPolynomial.FeedIsRemainder` | src/base/crc.cc:52-62 | the same from any register: feeding bits is dividing by the generator |
| `CrcPolynomial.PolyIs` | src/base/crc.cc:39-40 | the constant of the source is that generator |
| `CrcPolynomial.KnownRegister` | src/base/crc.cc:66-85 | the nine digits 1 to 9 leave the register 0x340bc6d9 |
| `IpChecksum.CksumAdd` | ext/dnet/ip.h:427-475 | entered at the case for the word count, the unrolled loop adds exactly the zero-padded 16-bit words in host order, or reads past the buffer exactly when it has fewer than two bytes |
| `IpChecksum.NoOverflow` | ext/dnet/ip.h:427-475 | no overflow for any buffer up to 65535 bytes starting from 0 |
| `IpChecksum.CarryReduces` | ext/dnet/ip.h:477-482 | two folds give the complement of the sum modulo 65535 |
| `IpChecksum.ChecksumIsOnesComplement` | ext/dnet/ip.h:427-482 | the checksum is the complement of the one's-complement sum of the words |
| `IpChecksum.Checksum` | ext/dnet/ip.h:427-483 | summing and folding gives the complement of the one's-complement sum of the words |
| `IpChecksum.StoreChecksum` | ext/dnet/ip.h:427-483 | computing and storing the checksum makes recomputation give 0 |
| `IpChecksum.StoredChecksumVerifies` | ext/dnet/ip.h:427-482 | storing the checksum in a zero word makes recomputation give 0 |
| `IpChecksum.ByteOrderIndependent` | ext/dnet/ip.h:427-482 | summing in the other byte order gives the byte-swapped checksum |
| `IpChecksum.KnownChecksum` | ext/dnet/ip.h:427-482 | the example of section 3 of RFC 1071 gives the checksum 220d, in either byte order, and 2304 without its last byte |
| `DblList.List.Remove` | src/base/dbl_list.hh:101-104 | removes that element of the sequence |
| `DblList.List.InsertBefore` | src/base/dbl_list.hh:106-109 | inserts before an element or the dummy |
| `DblList.List.InsertAfter` | src/base/dbl_list.hh:111-114 | inserts after an element or the dummy |
| `DblList.List.Append` | src/base/dbl_list.hh:117-119 | appends |
| `DblList.List.Prepend` | src/base/dbl_list.hh:122-124 | prepends |
| `DblList.List.Pop` | src/base/dbl_list.hh:126-131 | removes the first element, or gives null on the empty list |
| `DblList.List.Next` | src/base/dbl_list.hh:89-91 | the next element, never the dummy |
| `DblList.Traverse` | src/base/dbl_list.hh:81-95 | forward traversal gives the sequence, backward traversal its mirror |
| `DblList.Unlink` | src/base/dbl_list.hh:39-42 | the ring without the element is linked both ways |
| `DblList.LinkAfter` | src/base/dbl_list.hh:53-58 | the ring with the element is linked both ways |
| `DblList.Run` | src/base/dbl_list.hh:97-131 | any run of inserts, appends, prepends, removals and pops leaves the list with what the same run makes of a sequence, and pops the same elements |
| `CircleBuf.CircleBuf.Write` | src/base/circlebuf.cc:180-214 | the buffer holds the most recent bytes of the extended history, for short, wrapping and oversized writes; both cursors and the size are as specified |
| `CircleBuf.CircleBuf.ReadAll` | src/base/circlebuf.cc:158-165 | emits the last min(total, buflen) bytes written since the last flush, in order |
| `CircleBuf.CircleBuf.Flush` | src/base/circlebuf.cc:66-71 | forgets the history |
| `CircleBuf.CircleBuf.Read` | src/base/circlebuf.cc:74-97 | a consuming read leaves the history as it was and takes the next unread items, as many as there are, so that the next read goes on where it stopped; they are the items written, in order, unless nothing is left of a buffer that has not rolled over; it is undefined exactly when the cursor is past the end |
| `CircleBuf.CircleBuf.ReadRest` | src/base/circlebuf.cc:126-155 | a read of everything up to the stop; exactly when something is left to read, or the buffer has rolled over, or the cursor is at its end, these are the items written last |
| `CircleBuf.UnreadIsRecent` | src/base/circlebuf.cc:74-155 | the exact condition for the unread items to be the last ones written, in order |
| `CircleBuf.CursorStays` | src/base/circlebuf.cc:211-213 | the exact writes that push the cursor past the end, and those that bring it back |
| `CircleBuf.CircleBuf.Run` | src/base/circlebuf.cc:66-214 | any interleaving of writes, reads and flushes runs to its end exactly when no consuming read finds the cursor past the end |
| `CircleBuf.CircleBuf.RunThenReadAll` | src/base/circlebuf.cc:66-214 | after any such run reading all gives the last min(total, buflen) bytes written since the last flush |
| `CircleBuf.SafeIffNeverPushed` | src/base/circlebuf.cc:74-214 | a run can be followed by a read at any point exactly when no write of it pushes the cursor past the end |
| `CircleBuf.PastTheEnd` | src/base/circlebuf.cc:86-92 | a run whose next read copies a negative number of bytes |
| `ChunkGenerator.Generator.constructor` | src/base/chunk_generator.hh:81-110 | the first chunk ends at the next boundary or the end of the region, for every sound region, also one that wraps around the end of the address space |
| `ChunkGenerator.Generator.Next` | src/base/chunk_generator.hh:132-144 | the next chunk starts at the next address; in a sound region it follows at once and lies in one aligned block |
| `ChunkGenerator.Generator.CompleteIs` | src/base/chunk_generator.hh:117 | complete + size + left stays the total until the end |
| `ChunkGenerator.InBlockWraps` | src/base/chunk_generator.hh:81-144 | lying in one aligned block is the same before and after addresses wrap around |
| `ChunkGenerator.MaskRoundUpIs` | src/base/intmath.hh:181-187 | masking rounds up to the least multiple of a power of two below 2^31, modulo the address space |
| `ChunkGenerator.WideFirst` | src/base/intmath.hh:181-187 | what the rounding gives for 2^31, and the bytes it leaves in the first chunk |
| `ChunkGenerator.WidestChunkFails` | src/base/chunk_generator.hh:81-110 | one byte at 2^32 is the first region that chunks of 2^31 bytes do not cover |
| `ChunkGenerator.AtLeastBlocks` | src/base/chunk_generator.hh:81-144 | no decomposition into pieces within aligned blocks has fewer pieces than blocks touched |
| `ChunkGenerator.AllChunks` | src/base/chunk_generator.hh:81-144 | iterating ends, and covers the region exactly by non-empty chunks in aligned blocks if and only if the region is sound; then it uses the fewest possible |

## Left out

- Executing let blocks and format bodies, templates, operator substitution and file inclusion in `isa_parser.py`: an instruction body is an opaque leaf that returns or does not. The grammar tables are not modelled; the input is a parsed tree.
- `ELF_F_LAYOUT` mode, clean sections in the write path, out-of-order empty sections, the translators and error numbers of libelf. Sections and descriptors are values in a sequence, so aliasing between them is not captured. File and memory offsets are unbounded, except that header fields truncate.
- Archive parsing, member names and symbol tables: only parent and child bookkeeping of descriptors is kept. The bytes found on opening are an input.
- How consuming reads of the circular buffer continue across a write that overruns the cursor: overwriting moves the reader without regard to what it has read.
- Totals of `ip_cksum_add` that overflow an `int`.
- Annotation calls that only look up names and log a record (peek, reserve, wait, identify, `hwBegin` and the other hardware forms of these, assertions on queue sizes): they add nothing to the steps modelled. Neither does `swGetId`, which numbers identifications and logs one, or panics without a running machine. A call that also ends a machine is two steps.
- Negative enqueue counts. A queue total beyond 32 bits stops the run.
- Default entries that C++ maps create when a missing key is read: they read as 0, false or empty and are not recorded. The per-system link tables are one map keyed by system number and name.
- The text form of checkpoints: a family of numbered parameters is a map from numbers to values, and a saved stack is a sequence. Systems are identified by their unique names. Outstanding system-call links and pending records are not saved by the source either.
- The text of the annotation file's key and the rewriting of its header on exit.
- CpaReader.LogTells: speaks of runs of the calls modelled. `hwBegin` logs begin records and keeps no last state, and state numbers are compared as the 16 bits that are logged.
- CpaReplay.RunsAgree: compares the records logged since the checkpoint, and queued bytes by the record that put them there without its count, since a restored record counts only the bytes that were left.
- CpaRestore.SaveAndRestore: the engine saved shows a well-formed model state, as every engine that a run can reach does (CpaLaws.RunsOk).
- Symbol lookup, thread contexts and tracing: frames, names and times are inputs.
