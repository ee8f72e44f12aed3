# tmg and LuaJIT, verified in Dafny

This project models the algorithmic core of the `tmg` template tool and of the LuaJIT 2.1 it is
built on, and proves what that core promises. Code that changes state in place is modelled by
classes with mutable fields and by loops over arrays, each method proved against a specification
on values; everything else is functions and lemmas. `dafny verify dfyconfig.toml` checks it all.

- Memory allocator (`lj_alloc.c`): `AllocBits`, `AllocRings`, `AllocTrie`, `AllocBins`, `AllocFit`,
  `AllocFreeBins`, `AllocLayout`, `AllocSegs`, `AllocHeap`, `AllocGrow`, `AllocState`, `Alloc`
- Register allocator of the trace compiler for x64 (`lj_asm.c`, `lj_asm_x86.h`): `RegMachine`,
  `RegFrame`, `RegState`, `RegAlloc`, `RegHead`
- DynASM encoding engine for x86 (`dynasm/dasm_x86.h`): `DasmActions`, `DasmText`, `DasmLabels`,
  `DasmCells`, `DasmLink`, `DasmCode`, `Dasm`
- Lua patterns with `find`, `match`, `gmatch` and `gsub` (`lib_string.c`): `Pattern`,
  `PatternFacts`, `PatternText`, `Matcher`, `Gsub`, `GsubText`
- `table.sort` (`lib_table.c`): `TableSort`
- Template compiler (`main.c`): `TemplateQuote`, `TemplateScan`, `TemplateEscape`, `TemplateExpand`,
  `TemplateMap`
- String buffer (`lj_buf.c`, `lib_buffer.c`): `Buffer`
- References (`lib_aux.c`): `Refs`

How the parts are set up:

- **Allocator.** `Alloc.MState` holds what the C program holds: the tag words of chunks, the bins
  (`AllocFreeBins.FreeBins`: ring links, tries, bit maps), top, designated victim and segments.
  Ghost fields say what the words describe: the chunks, the blocks clients hold, and the contents
  of memory. The invariant `Sound` says that the tags tile every segment with chunks, that no two
  free chunks touch, that every free chunk is the top, the victim, or in the one bin of its size,
  that rings and tries are well linked, and that live blocks lie apart inside the segments. A call
  also records the words it has written (`wrote`); memory outside them keeps its contents, so that
  "no live block changes" is proved from the stores and not assumed. Memory maps and unmaps that
  the system grants or refuses are parameters (`mapped`, `unmaps`). Words have 64 bits.
- **Register allocator.** A trace is a map from references to instructions with a meaning (`Val`,
  `Out`); machine code is run by `Run`. Code is generated backwards, so the invariant of
  `RegAlloc.ASMState` is about the code already emitted: run from any machine state that holds the
  live values where the allocator wants them, it has the effects the rest of the trace means. The
  instructions are constants, BASE, arithmetic with two operands, stack loads, stores, calls, and
  values inherited from a parent trace; where the loop begins is a position in the trace. Slots
  are those of the 64-bit target with 64-bit references outside of Windows. The machine, not the
  allocator, has the calling convention of section 3.2.3 of the AMD64 System V ABI: a call
  instruction says only which arguments are floating-point numbers, the function takes them from
  where the convention puts them (`ArgPlace`), and every register the callee need not save is lost.
- **DynASM.** `Dasm.State` has the buffer of words, the label tables with their chains threaded
  through the buffer, and the section positions. Ghost cells say which action each word came from.
  `DasmText` writes action lists as the assembler does, with the codes of the format as numbers.
- **Patterns.** `Pattern.Outcomes` is the sequence of outcomes a pattern item list can have, best
  first, and `Accepts` the set of matches a pattern means, with no search order and no limits. Both
  read the bytes of the pattern. `PatternText` starts from the manual instead: pieces (atoms with
  suffixes, captures, sets, `%b`, `%f`), their meaning, and the text they are written as; `GsubText`
  does the same for replacement templates and for the answers of the library functions.
- **Templates.** `Split` is the separator at its leftmost occurrences; `Chunk` is what the pieces
  should become. The expander keeps the map from lines of the chunk to lines of the template.
  `TemplateEscape` writes templates with backslashes and says what they mean.

In `TableSort`, array index k stands for Lua index k + 1.

## Model

| member | source | states |
|---|---|---|
| `AllocBits.TreeIndexRange` | LuaJIT-2.1/src/lj_alloc.c:614-639 | for every size from 256 up to 2^40 the computed tree bin is the one whose interval of sizes contains the size |
| `AllocBits.TreeIndexExact` | LuaJIT-2.1/src/lj_alloc.c:614-639 | for all sizes, the computed bin is the right one if and only if the size is below 2^40 or what is left of it, shifted by 8 and cut to 32 bits, is at least 0xC000 |
| `AllocBits.TruncationCounterexample` | LuaJIT-2.1/src/lj_alloc.c:614-630 | a chunk of 2^40 bytes goes to bin 0, whose sizes end below 384, while a request of eight bytes less is looked for in bin 31 |
| `AllocRings.PushRing` | LuaJIT-2.1/src/lj_alloc.c:675-687 | linking a chunk in behind a member of a ring of equal sizes keeps all rings doubly linked, closed and connected, with the chunk in that one ring |
| `AllocRings.LeaveRing` | LuaJIT-2.1/src/lj_alloc.c:690-701 | linking the neighbours of a chunk to each other takes it out of its ring and keeps all rings well formed |
| `AllocTrie.AddNode` | LuaJIT-2.1/src/lj_alloc.c:728-765 | a leaf hung into an empty child word or tree bin gives a well-formed trie with exactly that node more, parent words and tree map included |
| `AllocTrie.ReplaceNode` | LuaJIT-2.1/src/lj_alloc.c:767-811 | putting one node in the place of another keeps the trie, the parent's child word and both children's parent words consistent |
| `AllocFreeBins.FreeBins.InsertLarge` | LuaJIT-2.1/src/lj_alloc.c:728-765 | the walk along the size bits ends at an empty slot or at the node of the same size; the chunk becomes a member of the bins with its size, all others stay, and only link words of binned chunks are written |
| `AllocFreeBins.FreeBins.UnlinkLarge` | LuaJIT-2.1/src/lj_alloc.c:767-811 | exactly that chunk leaves the bins, whether ring member, leaf or inner node, and tries and rings stay well formed |
| `AllocFreeBins.FreeBins.FindLarge` | LuaJIT-2.1/src/lj_alloc.c:1130-1172 | below 2^40, if any large chunk fits the request one is found, and no fitting one is smaller; in any case what is found fits and comes from a bin at or behind that of the request |
| `AllocFreeBins.FreeBins.FindSmallest` | LuaJIT-2.1/src/lj_alloc.c:1194-1212 | a large chunk is found for any small request, and below 2^40 no large chunk is smaller |
| `Alloc.MState.TmallocLarge` | LuaJIT-2.1/src/lj_alloc.c:1130-1191 | the best fitting large chunk is used and its remainder put back in a bin, unless the victim fits at least as well; the invariant is kept |
| `Alloc.MState.TmallocSmall` | LuaJIT-2.1/src/lj_alloc.c:1194-1222 | a small request is cut from the smallest large chunk; a remainder of at least 32 bytes becomes the victim, and the old victim goes to its bin with its size |
| `Alloc.MState.PrependAlloc` | LuaJIT-2.1/src/lj_alloc.c:902-932 | a new area in front of a segment serves the request at its start; the rest of it is then the front of the top, the front of the victim, or, with the first chunk of the segment if that was free, one binned chunk |
| `Alloc.MState.AddSegment` | LuaJIT-2.1/src/lj_alloc.c:935-979 | a separate area becomes the new top; the segment list gets the area, with the old list head recorded in a chunk at the end of the old top and fenceposts behind it, and what is left of the old top is in a bin |
| `Alloc.MState.AllocSys` | LuaJIT-2.1/src/lj_alloc.c:983-1042 | memory from the system extends the top if and only if it lies right behind it, is else prepended if a segment starts where it ends, and only else is added as a segment; the block is at the old top or at the start of the new memory; the result is 0 if and only if the system gave none or the request is too large for an area, and then nothing has changed |
| `Alloc.MState.Malloc` | LuaJIT-2.1/src/lj_alloc.c:1269-1350 | a new block is aligned, in memory not in use, at least as large as asked for, and its chunk is less than 32 bytes larger than the padded request; all live blocks keep their place, size and contents; without new system memory a block comes from a free chunk that fits; below 2^40 the chunk is the one the search order calls for (a small bin of the exact or next size, then for a small request the victim, then the best fit among bins and victim, then the top, and only then the system), and the result is 0 only if no free chunk fits; 0 leaves the state alone |
| `Alloc.MState.Free` | LuaJIT-2.1/src/lj_alloc.c:1352-1421 | exactly that block is given up; it merges with free neighbours on both sides, the top or the victim, so that no two free chunks touch; all other blocks keep their size and contents; a top that has grown over the threshold is trimmed if the system takes memory back and no segment record pins it |
| `Alloc.MState.AllocTrim` | LuaJIT-2.1/src/lj_alloc.c:1087-1125 | a large top loses whole units of the granularity until at most one is left, exactly if the system takes them and no segment record lies there, and nothing otherwise; a failure switches trimming off; chunks in use are untouched and the top never becomes empty |
| `Alloc.MState.Realloc` | LuaJIT-2.1/src/lj_alloc.c:1423-1471 | the block stays where it is if and only if the request is not too large and its chunk is large enough already, or the top follows it and has room for the rest, so that a shrink never moves or fails; the resized block, in place or moved, starts with the old contents up to the smaller of the sizes and is neither too small nor a minimal chunk too large; all other blocks are as before; 0 is returned only if the request is too large, or the system gives no memory and, below 2^40, no free chunk fits, and then every block is as before |
| `Alloc.MState.AllocF` | LuaJIT-2.1/src/lj_alloc.c:1473-1483 | the allocation function of a Lua state: free, new block or resized block by its arguments, with what these promise, in place exactly when it can be; on failure, which has the same causes, all blocks and their bytes are as before |
| `Alloc.MState.ClientView` | LuaJIT-2.1/src/lj_alloc.c:1269-1350 | in every state between calls any two live blocks, with the sizes they were asked for, are disjoint, aligned and inside one segment |
| `RegAlloc.ASMState.RaEvict` | LuaJIT-2.1/src/lj_asm.c:501-521 | the register given up is one of the allowed ones with the least cost; its owner is rematerialized or restored from its slot, and the code so far still means what it did |
| `RegState.CostOrder` | LuaJIT-2.1/src/lj_target.h:121-132 | the eviction cost orders values by age, the older the cheaper, and a PHI reference counts as 64 references younger, as long as that has 16 bits |
| `RegAlloc.ASMState.AsmTraceRoot` | LuaJIT-2.1/src/lj_asm.c:2560-2600 | the backwards loop over the trace, with constants evicted and the head emitted, ends with all registers free and code that has exactly the effects of the trace |
| `RegAlloc.AssembleRoot` | LuaJIT-2.1/src/lj_asm.c:2471-2640 | for every trace and all hints, wherever the stack is, the emitted code run from any machine at the start of the trace does the stores and calls of the trace in order and with the right values, where a called function finds its arguments in the registers of the C calling convention, whatever was spilled, rematerialized or moved; all slots it names are below the final spill counter, the frame adjustment makes room for them, and memory outside of that frame is untouched; it fails only with a spill overflow, and only if two slots for each instruction would be too many |
| `RegAlloc.ArgRegsPlaced` | LuaJIT-2.1/src/lj_asm_x86.h:613-626 | the registers the allocator sets up for the arguments of a call are, argument by argument, those in which a C function of these argument classes looks for them |
| `RegHead.Shuffle` | LuaJIT-2.1/src/lj_asm.c:2062-2096 | moving parent registers to target registers in any order, with cycles broken through a free register, ends with all registers free and nothing needed but what the parent left |
| `RegHead.AssembleSide` | LuaJIT-2.1/src/lj_asm.c:1941-2111 | the same for a side trace that starts from the registers and slots of its parent: coalescing, stores to slots, register moves and reloads bring every inherited value where the trace needs it; the frame grows from the parent's by exactly what its slots need, or not at all; it fails only with a spill overflow under the same condition, or for want of a register if three for each inherited value would be too many |
| `RegFrame.FramedInside` | LuaJIT-2.1/src/lj_asm.c:1104-1109 | code that moves the stack pointer once and then names slots of its frame only stores nowhere else |
| `RegFrame.ShiftRun` | LuaJIT-2.1/src/lj_asm.c:1921-1931 | code has the same effects wherever the stack is |
| `DasmLabels.DefineLabel` | LuaJIT-2.1/dynasm/dasm_x86.h:246-252 | collapsing the chain of a label points every waiting reference to the label, keeps all other chains, and leaves the label defined |
| `DasmLabels.LinkLabel` | LuaJIT-2.1/dynasm/dasm_x86.h:213-244 | a reference to a label not yet defined joins its chain, and no other chain or resolved reference changes |
| `DasmLabels.AllResolved` | LuaJIT-2.1/dynasm/dasm_x86.h:211-299 | when no local or PC label waits, every reference ever put holds the position of the definition it means, backwards the last one, forwards the next one, or the marker of its global |
| `DasmText.ReadsStmts` | LuaJIT-2.1/dynasm/dasm_x86.lua:196-200 | any list of statements (bytes, immediates of each kind, fills, branches, labels, alignments), written as an action list with escapes as the assembler writes it, is read back by a put as exactly the elements that are meant, up to the STOP |
| `Dasm.State.Put` | LuaJIT-2.1/dynasm/dasm_x86.h:162-268 | the status is the verdict on the action list: the first action whose argument or label is not accepted is reported with its place, labels defined and started anew on the way counted, then a section there is none of; an accepted put appends to its section exactly the cells its actions and arguments spell, and the sections before it are as they were |
| `Dasm.State.Link` | LuaJIT-2.1/dynasm/dasm_x86.h:272-357 | the status is the first undefined PC label, if any; else every cell has its final offset, every shrink decision is the one the estimates call for, and the size is that of all cells |
| `Dasm.State.Encode` | LuaJIT-2.1/dynasm/dasm_x86.h:384-491 | the phase check never fails after a successful link: the bytes are as many as the link pass said, every cell's bytes stand at its offset, numbers of one, two and four bytes with the lowest byte first, and globals get the addresses of their labels |
| `Dasm.State.GetPcLabel` | LuaJIT-2.1/dynasm/dasm_x86.h:494-503 | after linking, the offset of the last definition of a PC label; -1 if it is only referred to, -2 if it is unused or out of range |
| `Dasm.State.CheckStep` | LuaJIT-2.1/dynasm/dasm_x86.h:507-522 | the first waiting local label is reported, else a wrong section; otherwise all local labels are forgotten |
| `DasmLink.Shrinks` | LuaJIT-2.1/dynasm/dasm_x86.h:304-350 | between any two cells, in one section or across sections, linked code is no longer than estimated |
| `DasmLink.ShortReaches` | LuaJIT-2.1/dynasm/dasm_x86.h:311-330 | a branch made short reaches its label with a signed byte in the final layout, whatever shrinks before, between and behind |
| `DasmCode.BranchMeaning` | LuaJIT-2.1/dynasm/dasm_x86.h:384-491 | decoding the bytes emitted for a jump or call, short or long, gives the same instruction to the final offset of its label |
| `DasmCode.ImmediateReads` | LuaJIT-2.1/dynasm/dasm_x86.h:358-372 | in the code, the bytes of every immediate operand read, unsigned or sign-extended as the processor does, as the value it was given, whenever that is in the range of the reading |
| `DasmCode.LittleEndian` | LuaJIT-2.1/dynasm/dasm_x86.h:358-372 | for every value the one, two or four bytes written add up, each with its power of 256, to the value modulo that many bytes |
| `Pattern.ClassLetters` | LuaJIT-2.1/src/lib_string.c:210-228 | an upper-case class letter matches the complement of the lower-case one, and other characters match themselves |
| `PatternFacts.HitsInside` | LuaJIT-2.1/src/lib_string.c:352-434 | a match and all its captures lie inside the subject, and captures already there are kept |
| `PatternFacts.Sound` | LuaJIT-2.1/src/lib_string.c:352-434 | every match found is one the pattern means, with these captures |
| `PatternFacts.Complete` | LuaJIT-2.1/src/lib_string.c:352-434 | every match the pattern means is among the outcomes of the backtracking search, unless the nesting exceeds the limit |
| `PatternFacts.ShortPatternExact` | LuaJIT-2.1/src/lib_string.c:352-434 | for patterns shorter than the recursion limit, the matches among the outcomes are exactly those the pattern means, and the limit error cannot occur |
| `PatternFacts.OutcomesAgree` | LuaJIT-2.1/src/lib_string.c:352-434 | an error is always the first fault of the pattern text itself, for every subject and place, and never stands beside a match; only the limit error depends on depth |
| `PatternFacts.FirstOutcome` | LuaJIT-2.1/src/lib_string.c:352-434 | for patterns shorter than the recursion limit match returns a match if and only if the pattern means one, and then one that is meant; an error it returns is the first fault of the pattern |
| `PatternFacts.Greedy` | LuaJIT-2.1/src/lib_string.c:286-299 | the first outcome of a greedy repetition is that of the longest run after which the rest of the pattern has an outcome |
| `PatternFacts.Lazy` | LuaJIT-2.1/src/lib_string.c:301-313 | the first outcome of a lazy repetition is that of the shortest such run |
| `PatternText.WrittenMeans` | LuaJIT-2.1/src/lib_string.c:189-434 | for every pattern written down as the manual says, with any atoms, sets, classes, ranges, escapes, suffixes, captures, balances, frontiers, back references and end anchor, the bytes describe a match with given captures if and only if the pieces mean it |
| `PatternText.WrittenExact` | LuaJIT-2.1/src/lib_string.c:352-434 | below the depth limit the matches among the outcomes on such a pattern are exactly those the pieces mean |
| `PatternText.WrittenFirst` | LuaJIT-2.1/src/lib_string.c:352-434 | the first outcome is a match if and only if the pieces mean one, and then one they mean; on a written pattern only captures can be at fault |
| `PatternText.SetAt` | LuaJIT-2.1/src/lib_string.c:189-251 | a set that stands in a pattern ends behind its closing bracket and holds exactly the union of its characters, ranges and classes, or the complement |
| `PatternText.ClassIs` | LuaJIT-2.1/src/lib_string.c:210-228 | every class letter matches exactly the characters listed for it, and in upper case exactly the others |
| `PatternText.Prefers` | LuaJIT-2.1/src/lib_string.c:394-431 | the suffix of an item decides which match comes first: with *, + and ? that of the most repetitions, with - that of the fewest, behind which the rest of the pattern comes to anything |
| `PatternText.Dot` | LuaJIT-2.1/src/lib_string.c:253-261 | on every subject a dot matches at a place if and only if a character is there, whichever it is, and takes just that one |
| `PatternText.DotRepeated` | LuaJIT-2.1/src/lib_string.c:286-313 | dot star takes the rest of every subject, line ends included, and dot minus takes nothing |
| `PatternText.Unreadable` | LuaJIT-2.1/src/lib_string.c:189-267 | a pattern that ends behind a percent sign, a %b without its two characters, a %f without a set and a set without its bracket are refused with the error for each |
| `Matcher.MatchState.Match` | LuaJIT-2.1/src/lib_string.c:352-434 | the recursive matcher with its mutable capture array and depth counter returns the first outcome of the semantics, error or match with captures; after a failure the captures are as before |
| `Gsub.StrFind` | LuaJIT-2.1/src/lib_string.c:464-525 | find and match answer with the leftmost start that matches, or an error met before it; plain searches with the first occurrence |
| `GsubText.FindWritten` | LuaJIT-2.1/src/lib_string.c:464-525 | on written patterns find and match answer nil if and only if the pieces mean no match at any place tried; otherwise with the leftmost one, find with its first and last position counted from one, and both with the texts and positions of its captures; an anchor leaves one place to try |
| `GsubText.StartPlaces` | LuaJIT-2.1/src/lib_string.c:467-475 | a start counted from the front and the same counted from the end are the same character, and starts outside are cut to the ends |
| `Gsub.PlainExact` | LuaJIT-2.1/src/lj_str.c:62-71 | a pattern taken for a plain string has, on all subjects, the same matches as the matcher would find if and only if it holds no closing parenthesis and no zero byte |
| `Gsub.PlainAnswers` | LuaJIT-2.1/src/lib_string.c:464-515 | for such patterns the plain search gives the answer of the pattern search |
| `Gsub.GMatch` | LuaJIT-2.1/src/lib_string.c:527-549 | one step of gmatch yields the leftmost match from the position on and always advances, past an empty match by one |
| `Gsub.GSub` | LuaJIT-2.1/src/lib_string.c:614-653 | the result is made of kept characters and replaced matches in order, each match the first one there, at most as many as allowed, with errors where they occur |
| `GsubText.GsubWritten` | LuaJIT-2.1/src/lib_string.c:561-653 | with a written pattern and a written template every replaced piece is a match the pieces mean with the template filled in from its captures, and a character is kept only where they mean none, or right behind an empty match |
| `GsubText.FillWritten` | LuaJIT-2.1/src/lib_string.c:561-580 | a template of characters, quoted characters, %0 and %1 to %9 gives just these texts in order, positions as decimal numbers, or the first error |
| `GsubText.CallsWithCaptures` | LuaJIT-2.1/src/lib_string.c:582-612 | a replacement function gets the values of all captures and a table the first, or the whole match if there are none; false and nil keep the match |
| `GsubText.DecimalReads` | LuaJIT-2.1/src/lib_string.c:561-580 | the digits put in for a position read back as it, without leading zeros |
| `Gsub.Conserves` | LuaJIT-2.1/src/lib_string.c:614-653 | the kept characters and the replaced texts, in order, are the subject up to the position reached |
| `Gsub.GsubIdentity` | LuaJIT-2.1/src/lib_string.c:614-653 | replacing every match by itself gives back the subject, and there are at most length + 1 replacements |
| `TableSort.Partition` | LuaJIT-2.1/src/lib_table.c:218-241 | the pivot ends at a place with nothing greater before and nothing less behind; for any comparison only a permutation, within bounds or with the error |
| `TableSort.AuxSort` | LuaJIT-2.1/src/lib_table.c:196-257 | in-place quicksort of a range: a permutation for any comparison; sorted and without error for a strict weak order; recursion no deeper than the logarithm of the range |
| `TableSort.Sort` | LuaJIT-2.1/src/lib_table.c:259-268 | the same elements as before, sorted if the comparison is a strict weak order |
| `TemplateQuote.FindLevel` | main.c:145-165 | the level found by the scan is the lowest one above those of all closing brackets in the text |
| `TemplateQuote.QuoteRoundTrip` | main.c:145-186 | a text quoted at the chosen level reads back as itself, as section 2.1 of the Lua 5.1 Reference Manual reads long brackets, if and only if it holds no carriage return, does not start with a line end, and does not end in what would begin the closing bracket |
| `TemplateQuote.QuoteRoundTripAt` | main.c:145-186 | the same at any place within a longer chunk |
| `TemplateScan.SplitJoins` | main.c:215-282 | the pieces of a template without backslashes, joined by the separator, are the template |
| `TemplateScan.SplitLeftmost` | main.c:215-282 | no piece holds the separator before its own end: splitting is at the leftmost occurrences |
| `TemplateScan.ScanExact` | main.c:215-282 | the scanner splits every template as the escapes and leftmost separators say if and only if the separator has at most one character or starts with a backslash |
| `TemplateScan.ScanExactPlain` | main.c:215-282 | for templates without backslashes it does so if and only if all characters of the separator are the same, or it holds a backslash |
| `TemplateScan.ReorderCounterexample` | main.c:218-239 | for every longer separator there is a template with an escape in the middle of a partial separator that is split wrongly |
| `TemplateScan.OverlookCounterexample` | main.c:244-266 | a separator with a second kind of character is overlooked right behind its own first character |
| `TemplateEscape.EscapeRoundTrip` | main.c:218-282 | any texts and pieces of code without backslashes, with a backslash before every separator character in them and separators between them, are scanned back as themselves, for every separator of one character but backslash and line end |
| `TemplateEscape.ScansWritten` | main.c:218-282 | for such a separator every template is scanned as written: a backslash frees a separator character, joins lines of text, and stays before anything else, before a line end in code, and at the end |
| `TemplateExpand.Expand` | main.c:190-290 | the loop writes the chunk for the pieces scanned; the line map never decreases and has one entry per line of the chunk, except for the line ends among code left over at the end of the template |
| `TemplateExpand.PlainTemplate` | main.c:190-290 | for a uniform separator without newline and a template without backslashes the chunk is that of the pieces in order, and every character of code stands on a chunk line mapped to the template line it came from |
| `TemplateExpand.ShortTemplate` | main.c:190-290 | for separators of one character the same mapping holds for all templates, escapes included |
| `TemplateExpand.TextReadsBack` | main.c:145-186 | in the finished chunk every non-empty piece of text is the argument of a `tmg.print` call and reads back as itself, if and only if it is quotable |
| `TemplateExpand.CodeStands` | main.c:244-266 | in the finished chunk every piece of code stands unchanged, on lines of its own, behind what comes from the pieces before it |
| `TemplateExpand.ChunkSize` | main.c:145-186 | the chunk has the characters of the code pieces, of the print calls for the text pieces, one line end for each separator, and no others |
| `TemplateMap.CompleteExactly` | main.c:275-284 | the map has an entry for every line of the chunk if and only if no line end is among the code left over; otherwise as many entries are missing as there are such line ends |
| `TemplateMap.CompleteSeparators` | main.c:215-284 | no template leaves such a line end over if and only if the separator is empty, holds a backslash, or has no line end before its last character |
| `TemplateMap.MapCounterexample` | main.c:275-284 | a separator of a line end and a percent sign, and a template for which a chunk of three lines gets two entries |
| `Buffer.WrapsExactly` | LuaJIT-2.1/src/lj_buf.c:19-88 | 32-bit sizes wrap around in a request for space exactly for buffers of at least 2 GiB whose length with the request wraps, or that have room but little slack |
| `Buffer.WrapsExample` | LuaJIT-2.1/src/lj_buf.c:19-24 | a buffer of 2 GiB for which the doubled size is 0 although the request would fit |
| `Buffer.MeetsRequests` | LuaJIT-2.1/src/lj_buf.c:58-88 | below 2 GiB a request for space is met if and only if there is room for it or content and request together are within the limit, and is an error otherwise |
| `Buffer.GetsConserve` | LuaJIT-2.1/src/lib_buffer.c:161-181 | for any arguments of get, the results in order and what is left are the content before |
| `Buffer.GetsTake` | LuaJIT-2.1/src/lib_buffer.c:161-181 | each result of get is as long as its argument says, of what the ones before have left; the call fails exactly at the first number that is no size |
| `Buffer.GetAll` | LuaJIT-2.1/src/lib_buffer.c:165-172 | get without an argument takes out everything |
| `Buffer.SBufExt.More` | LuaJIT-2.1/src/lj_buf.c:19-88 | growing, compacting and leaving copy-on-write keep the content, leave at least the requested space behind it, and never write to the string; nothing is done if there is room already, and no memory is obtained if compacting makes enough of it and an eighth is slack; the outcome is the stated function of sizes and flags |
| `Buffer.SBufExt.Put` | LuaJIT-2.1/src/lj_buf.c:130-136 | the bytes are appended to the queue, or nothing has changed; a string that held the content keeps its bytes |
| `Buffer.SBufExt.PutBuf` | LuaJIT-2.1/src/lib_buffer.c:116-150 | another buffer's content is appended and stays in that buffer; a buffer is not put into itself |
| `Buffer.SBufExt.Get` | LuaJIT-2.1/src/lib_buffer.c:161-181 | the results are the front of the queue cut by the arguments, up to the first bad one |
| `Buffer.SBufExt.Skip` | LuaJIT-2.1/src/lib_buffer.c:72-86 | so many bytes leave the front of the queue, or all |
| `Buffer.SBufExt.PutReserved` | LuaJIT-2.1/src/lib_buffer.c:202-224 | reserving, writing into the room and committing has the effect of a put |
| `Refs.ExactLength` | LuaJIT-2.1/src/lib_aux.c:277-297 | whenever the length operator is consulted it has only one answer, the number of references; while a reference is free it would have two |
| `Refs.StoredOk` | LuaJIT-2.1/src/lib_aux.c:277-297 | a new reference is no live one, and all live references keep their values |
| `Refs.ReleasedOk` | LuaJIT-2.1/src/lib_aux.c:299-308 | releasing a live reference keeps the others and puts it at the front of the free list |
| `Refs.AnyRun` | LuaJIT-2.1/src/lib_aux.c:277-308 | over every run that releases only live references, each live reference maps to its value, and never more references are in use than were live at once |
| `Refs.DoubleRelease` | LuaJIT-2.1/src/lib_aux.c:299-308 | after a reference is released twice, the next two values get the same reference |
| `Refs.RefTable.Ref` | LuaJIT-2.1/src/lib_aux.c:277-297 | the method does that: nil has its fixed reference, any other value a fresh one |

## Findings

Properties one would expect that are false of the code, each with an input and its exact condition:

- **Bins of huge chunks.** The bin index is computed from a size shifted and cut to 32 bits
  (`lj_alloc.c:614-630`). From 2^40 bytes on it may name a bin of much smaller sizes:
  `TruncationCounterexample`; `TreeIndexExact` has the condition. Best fit and "0 only if nothing
  fits" therefore hold while all binned chunks are smaller than that (`InRange`).
- **Plain patterns.** A pattern without magic characters is searched for as plain text
  (`lj_str.c:62-71`), but `)` and the zero byte count as plain there and not in the matcher:
  `PlainExact`.
- **Long brackets.** A text that holds a carriage return, starts with a line end, or ends in `]` and as
  many equals signs as the level does not read back from the chunk (`main.c:145-186`):
  `QuoteRoundTrip`.
- **Separators of several characters.** An escape inside a partial match makes the scanner write the
  escaped character before the characters it had held back (`main.c:218-239`), and a failed partial
  match is flushed without looking for a separator that starts within it (`main.c:257-266`):
  `ReorderCounterexample`, `OverlookCounterexample`, `ScanExact`, `ScanExactPlain`.
- **Line map at the end of a template.** Characters still held back for a separator are written to the
  chunk without a note of their line ends (`main.c:275-282`), so a template that ends in code within
  a separator of several lines has too few entries in the map: `MapCounterexample`,
  `CompleteExactly`, `CompleteSeparators`.
- **String buffers of 2 GiB.** A buffer with room but little slack is doubled to keep compactions
  rare; from 2 GiB on the doubled size no longer fits its 32 bits: `WrapsExactly`, `WrapsExample`.

## Left out

- Allocator: blocks mapped directly (`direct_alloc`, `direct_resize`), `release_unused_segments`, `mremap`, the Windows and 32-bit map functions, destroying an allocator; the random placement of maps is the parameter `mapped`.
- Alloc.MState.Malloc: a request for which direct mapping would be tried goes to the ordinary path, because direct mappings are not modelled.
- Alloc.MState.AllocSys: the same.
- Alloc.MState.Free: blocks mapped directly, and the release of segments that have become empty.
- Register allocator: weak references, snapshots and guards, PHI and loop shuffling, renames for snapshots, fusion of loads other than constants and spill slots, immediate operands of multiplication, LEA, arguments on the stack, the number of floating-point arguments that variadic functions are told in AL, calls that keep floating-point registers, references below the constants, GC checks, machine-code limits and retries.
- RegAlloc.AssembleRoot: a freed register is recorded as a hint, where the source leaves the register number in the instruction with a flag; the condition for an error is necessary, not exact, because spilling also depends on hints.
- RegHead.AssembleSide: the conditions for its errors are necessary ones for the same reason.
- DynASM: `dasm_growpc`, `DISP`, `IMM_WB`, `IMM_DB`, `VREG`, `MARK`, `SETLABEL`, `EXTERN`, `REL_A`, `IMM_LG`, `IMM_PC`, negative space counts, and growing a section's buffer; a section has at most 2^24 words.
- Dasm.State.Put: action lists must have the opcode of a branch right before its displacement, as DynASM's own preprocessor writes them.
- Dasm.State.Link: no local label may be waiting, which `dasm_checkstep` is there to check. The source demands this silently: for a reference that still waits, `dasm_link` reads the word at a chain position or at position 0, which need not exist.
- Strings: `string.format`, `string.rep` and the other functions of the library, stack limits while captures are pushed, wrap-around of a 32-bit `init`.
- PatternText.WrittenMeans: in sets, `^` and `-` that stand for themselves are written with a percent sign, as are `]` and `%`, and the ends of a range are none of these four; other spellings the matcher happens to take are not written.
- Gsub.GMatch: one step of the iterator; the closure that keeps the position is not modelled.
- Sorting: errors raised by the comparison function itself, and elements read through metamethods.
- Templates: reading files, loading and running the chunk, error reports, the library path.
- String buffer: borrowed buffers of the serializer, encoding and decoding, formatting of numbers put into a buffer, putting C data, and failure of the allocator; what a call does after a size has wrapped.
- References: a length operator that answers no border, and more than 2^31 references.
