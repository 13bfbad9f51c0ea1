# A verified model of the mkOS kernel logic

mkOS is a small AArch64 kernel. This project models the parts of it that carry state or arithmetic that is
easy to get wrong, and proves what they promise:

- **Page allocator.** Free pages are kept in power-of-two zones. `Zones` holds the zones as stacks of chunk
  start pages, with the allocator's operations as functions; `PageRuns` is the transition system of whole runs
  (boot, then any allocations and matching frees, each of which may end in a panic); `PageTheorems` proves the
  partition of the pages, the confinement of every chunk, and exactly when a run can exhaust the descriptor
  pool. `Descriptors` and `PageAllocator` are the linked lists the kernel keeps: a descriptor array, list heads
  and a free list rewired in place, where every descriptor is in exactly one place at all times.
- **Numbers and printf.** `Div64` is the 64-by-32 bit division; `Digits` says what a numeral is; `Decimal` is
  the division-free decimal conversion; `Number` lays out sign, prefix, precision and padding; `Strtoul` reads
  numbers back; `Printf` is the formatting engine, `Directives` checks its parser against the grammar of
  directives, and `Conversions` says what each directive prints in terms of its characters and the arguments.
  `Emit` is the truncation discipline every helper of the engine follows.
- **Kernel heap.** `KmallocRuns` and `Kmalloc`: first fit over a linked list of chunks, on top of the page
  allocator.
- **Files.** `Flash` parses (and serialises) the chain of images in flash; `Files` and `Vfs` are inodes,
  descriptors, reference counts and offsets; `ImageReads` and `Loader` are the reads a task is loaded with.
- **Tasks.** `Scheduler` is the cyclic scheduler; `Elf` loads a segment and `ElfImages` says which, for images as they are written; `Loads` is what loading and exiting a
  task do to the page allocator and the files; `Tasks` ties table, files and pages together.
- **The whole kernel.** `KernelRuns` is one transition system of heap requests, the idle task, memory mapping,
  loads and exits, in which every live run of pages carries the name of its owner; `KernelSystem` proves that the
  classes above, working on one page allocator, take exactly its steps. `Leaks` follows one of its runs.
- **Conformance.** `Conformance` states integer conversions as section 7.19.6.1 of ISO C99 words them.
- **Translation tables.** `Mmu` encodes entries, fills the tables and walks them.

Most modules come in pairs. Code that changes state is a class or a method with loops, proved equal to a
function on values; the theorems are about that function, over every input or every run. A panic is the
end of a run: a result of its own, with the exact condition under which it happens. All files verify
together: `dafny verify dfyconfig.toml`.

Four results are about behaviour that is not what one would expect:

- The descriptor pool is capped at 65536, so a machine with more managed pages can run out of descriptors:
  `PageTheorems.BootExhaustionExact` shows that a sequence of calls reaching the "Page pool exhausted" panic
  exists if and only if the memory behind the kernel has at least 0x1010_1000 bytes.
- An image without a loadable segment costs its stack pages and its file descriptor for good.
  `KernelRuns.LeaksExactly` says when, `KernelRuns.LeaksInPairs` that nothing else is ever lost this way, and
  `Leaks.LeakReached` follows a run from boot that does it.
- `number` departs from section 7.19.6.1 of ISO C99 in five ways, each with an input in `Conformance`, and
  `Conformance.ConformsExactly` has the condition under which it prints what the standard asks for. A negative `*`
  precision is read as zero instead of as none, which matters for strings only.
- What `number` prints in hexadecimal with a prefix is read back if and only if it is in lower case
  (`Strtoul.HexRoundTrip`), because the parser knows only `0x`.

## Model

| member | source | states |
|---|---|---|
| Zones.AddSum | kernel/core/page.c:84-93 | adding a run of pages to the pool adds exactly these pages to the free ones, for any additive measure (a page, their number) |
| Zones.AddChunks | kernel/core/page.c:84-93 | the run is cut into as many chunks as its length has binary ones |
| Zones.SplitSum | kernel/core/page.c:97-116 | splitting leaves the free pages as they were |
| Zones.SplitFails | kernel/core/page.c:97-116 | splitting fails if and only if every zone from the order up is empty |
| Zones.SplitExact | kernel/core/page.c:97-116 | the smallest non-empty zone m loses its first chunk, each zone strictly between gains one, the order itself gains two, with their start pages, all other zones stay |
| Zones.SplitChunks | kernel/core/page.c:97-116 | each halving makes one chunk out of none |
| Zones.TakeSum | kernel/core/page.c:139-157 | an allocation takes exactly the returned pages out of the free ones |
| Zones.TakeSucceeds | kernel/core/page.c:139-157 | an allocation of n pages succeeds if and only if a zone of order ceil(log2 n) or above holds a chunk |
| Zones.TakeStart | kernel/core/page.c:139-157 | the run returned starts at s + 2^m - 2^order, where s is the first chunk of the smallest usable zone m |
| Zones.TakeChunks | kernel/core/page.c:139-157 | how many chunks an allocation leaves: halvings plus the binary ones of the tail handed back |
| Zones.TakeNeedBound | kernel/core/page.c:97-157 | chunks plus the extra descriptors an allocation needs never exceed the free pages (or 3) |
| PageRuns.StepConserves | kernel/core/page.c:184-193 | every allocation and free keeps free plus live measure constant, for every additive measure |
| PageRuns.StepInv | kernel/core/page.c:184-193 | the allocator invariant (partition, descriptor count, confinement) survives every step |
| PageRuns.RunInv | kernel/core/page.c:159-193 | the invariant holds after boot and any sequence of allocations and matching frees |
| PageRuns.InvPermuted | kernel/core/page.c:184-193 | the invariant does not depend on the order in which live runs are listed |
| PageTheorems.PagesPartitioned | kernel/core/page.c:52-193 | after any run a page is held if and only if it is managed, and by one free chunk or one live allocation only |
| PageTheorems.LiveDisjoint | kernel/core/page.c:184-193 | two live allocations never share a page |
| PageTheorems.LiveInRange | kernel/core/page.c:184-193 | live allocations lie inside the managed pages |
| PageTheorems.ChunkInRange | kernel/core/page.c:52-116 | free chunks lie inside the managed pages |
| PageTheorems.NoMerge | kernel/core/page.c:159-193 | after no run does a request above the largest power of two in the managed pages succeed: chunks never merge |
| PageTheorems.Confined | kernel/core/page.c:84-157 | every allocation lies inside one of the chunks boot created |
| PageTheorems.AmpleNeverExhausts | kernel/core/page.c:55-65 | with a descriptor for every page (three for two pages) no run reaches "Page pool exhausted" |
| PageTheorems.ScarceExhausts | kernel/core/page.c:55-65 | with fewer descriptors than pages there is a run that does |
| PageTheorems.TwoPagesExhaust | kernel/core/page.c:97-116 | two pages with two descriptors: a run that does, since a chunk is recycled only after its halves are added |
| PageTheorems.ExhaustionExact | kernel/core/page.c:55-65 | the panic is reachable if and only if the pool is not ample |
| PageTheorems.PoolCoversPages | kernel/core/page.c:166-175 | below the cap boot provides a descriptor more than there are pages |
| PageTheorems.StartSucceeds | kernel/core/page.c:159-182 | boot itself never runs out of descriptors, manages fewer than 2^19 pages and establishes the invariant |
| PageTheorems.TooLittleMemory | kernel/core/page.c:166-175 | with less than a page of memory the descriptor pool alone is larger than the memory |
| PageTheorems.BootExhaustionExact | kernel/core/page.c:159-175 | booted with `ram` bytes, the panic is reachable if and only if ram >= 0x1010_1000 |
| Descriptors.TakeSpareLinked | kernel/core/page.c:55-65 | popping the free list keeps every descriptor in exactly one place and all lists acyclic |
| Descriptors.TakeFreshLinked | kernel/core/page.c:55-65 | so does taking the next untouched descriptor |
| Descriptors.InsertLinked | kernel/core/page.c:52-69 | so does linking a descriptor into a zone |
| Descriptors.ExtractLinked | kernel/core/page.c:71-81 | so does unlinking the head of a zone, whose start page is the top of that zone's stack |
| Descriptors.RecycleLinked | kernel/core/page.c:107-112 | so does giving a descriptor back to the free list |
| PageAllocator.Allocator.TakeDescriptor | kernel/core/page.c:52-66 | fails exactly when neither list nor pool has a descriptor, otherwise returns one nobody holds |
| PageAllocator.Allocator.AddFreePageToZone | kernel/core/page.c:52-69 | pushes one chunk and changes no other zone; fails exactly when no descriptor is left |
| PageAllocator.Allocator.GetFreePageFromZone | kernel/core/page.c:71-81 | pops the first chunk of a zone; fails exactly when the zone is empty or does not exist |
| PageAllocator.Allocator.PutBack | kernel/core/page.c:107-112 | the descriptor is spare again, the zones unchanged |
| PageAllocator.Allocator.AddMemoryToPool | kernel/core/page.c:84-93 | the zones become those of the specification; it panics exactly when descriptors run short |
| PageAllocator.Allocator.HalveTop | kernel/core/page.c:105-114 | one chunk of the order above becomes its two halves; needs two more descriptors |
| PageAllocator.Allocator.SplitZone | kernel/core/page.c:97-116 | the recursion on the lists is the specified splitting, with the exact conditions of failure and panic |
| PageAllocator.Allocator.GetMemoryFromPool | kernel/core/page.c:139-157 | the run returned and the zones left are those specified; failure and panic are exact |
| PageAllocator.Allocator.constructor | kernel/core/page.c:159-175 | there are 65536 descriptors or as many as there are pages of memory, the pages begin on the first page boundary behind all of them, 16 bytes each, and end at the last one in memory |
| PageAllocator.Allocator.PageInit | kernel/core/page.c:159-182 | boot succeeds and leaves the start state of the transition system |
| PageAllocator.Allocator.PageAlloc | kernel/core/page.c:184-187 | is the allocation step, outcome by outcome, and returns the address of the new live run, which lies in memory, behind the descriptors, with all its pages |
| PageAllocator.Allocator.PageFree | kernel/core/page.c:189-193 | is the free step, and takes exactly that run out of the live ones |
| PageAllocator.Allocator.CountChunks | kernel/core/page.c:118-136 | walking a zone's list counts its chunks |
| PageAllocator.Allocator.DumpZones | kernel/core/page.c:118-136 | the printed total is the number of free pages |
| Div64.ReduceHigh | kernel/lib_3rdparty/div64.c:29-35 | the high word is divided first: n = base * res + rem holds after it |
| Div64.ScaleUp | kernel/lib_3rdparty/div64.c:37-40 | b = base * d with d a power of two and rem < 2b, without wrap-around |
| Div64.Round | kernel/lib_3rdparty/div64.c:42-49 | one subtract step keeps n = base * res + rem, halves the bound on rem, and ends below base |
| Div64.Div64By32 | kernel/lib_3rdparty/div64.c:21-52 | quotient and remainder of every 64-bit dividend by every non-zero 32-bit base |
| Div64.DoDiv | kernel/lib_3rdparty/div64.h:27-37 | the 32-bit fast path agrees with the slow one |
| Digits.NumeralValue | kernel/lib_3rdparty/vsprintf.c:111-140 | the digits of a numeral have the value it was made from |
| Digits.DigitTable | kernel/lib_3rdparty/vsprintf.c:298-307 | the digits are those of the kernel's table, in capital or small letters, and no other character is read as a digit |
| Digits.NumeralUnique | kernel/lib_3rdparty/vsprintf.c:713-725 | a non-empty digit string without leading zero is the numeral of its value: canonical digits are unique |
| Digits.NumeralFits | kernel/lib_3rdparty/vsprintf.c:297-299 | at most 20 decimal and 22 other digits: the 66 characters of `tmp` suffice |
| Digits.RevNumeralReverses | kernel/lib_3rdparty/vsprintf.c:338-353 | digits produced low first are the numeral backwards |
| Decimal.Reciprocal205 | kernel/lib_3rdparty/vsprintf.c:184-222 | x * 0xcd >> 11 is x / 10 up to 339 |
| Decimal.Reciprocal13 | kernel/lib_3rdparty/vsprintf.c:184-222 | x * 0xd >> 7 is x / 10 up to 63 |
| Decimal.NibbleSums | kernel/lib_3rdparty/vsprintf.c:187-222 | the sums over nibbles stay in the range of the reciprocals and carry the decimal digits |
| Decimal.NibbleDigits | kernel/lib_3rdparty/vsprintf.c:187-222 | the sums give the five digits, and each "is there more" test says how long the number is |
| Decimal.PutDecTrunc | kernel/lib_3rdparty/vsprintf.c:187-222 | writes the digits of a number below 100000 low first, without leading zeros, and nothing else |
| Decimal.PutDecFull | kernel/lib_3rdparty/vsprintf.c:223-263 | writes all five digits |
| Decimal.RevDecimalLong | kernel/lib_3rdparty/vsprintf.c:265-274 | the digits of a long number are five full digits and those of the rest |
| Decimal.PutDec | kernel/lib_3rdparty/vsprintf.c:265-274 | writes the reversed canonical digits of any 64-bit number |
| Decimal.SimpleItoa | kernel/lib_3rdparty/vsprintf.c:713-725 | returns the canonical digits of any 64-bit number, inside its 22 characters |
| Decimal.PutDecReversesItoa | kernel/lib_3rdparty/vsprintf.c:265-274 | `put_dec` writes what `simple_itoa` returns, backwards |
| Emit.PutAppend | kernel/lib_3rdparty/vsprintf.c:288-292 | truncated writing composes: two texts one behind the other are their concatenation |
| Emit.AddCh | kernel/lib_3rdparty/vsprintf.c:288-292 | a character is stored only before the end; the position moves on in any case |
| Emit.Fill | kernel/lib_3rdparty/vsprintf.c:356-359 | the padding loop writes exactly as many characters as are left, and says what is left after it |
| Number.NumberWidth | kernel/lib_3rdparty/vsprintf.c:294-391 | length is max(width, sign + prefix + max(precision, digits)), for every flag set |
| Number.BinaryDigits | kernel/lib_3rdparty/vsprintf.c:338-349 | mask and shift produce the octal or hexadecimal digits in the right case |
| Number.DigitsInto | kernel/lib_3rdparty/vsprintf.c:332-353 | `tmp` holds the reversed numeral whichever branch is taken |
| Number.TakeSign | kernel/lib_3rdparty/vsprintf.c:306-331 | sign character, magnitude and room left for padding |
| Number.EmitHead | kernel/lib_3rdparty/vsprintf.c:360-368 | sign, then "0", "0x" or "0X" |
| Number.EmitDigits | kernel/lib_3rdparty/vsprintf.c:375-386 | zeros up to the precision, then the digits in order |
| Number.EmitParts | kernel/lib_3rdparty/vsprintf.c:354-390 | the four padding loops never overlap: at most one of them writes anything but precision zeros |
| Number.Assembled | kernel/lib_3rdparty/vsprintf.c:294-391 | the parts put together are the specified text |
| Number.EmitNumber | kernel/lib_3rdparty/vsprintf.c:294-391 | writes that text truncated at the end of the buffer and advances by its full length |
| Strtoul.SimpleStrtoull | kernel/lib_3rdparty/vsprintf.c:111-140 | reads the longest run of digits behind the prefix; the result is its value modulo 2^64 |
| Strtoul.DecimalRoundTrip | kernel/lib_3rdparty/vsprintf.c:111-140 | unpadded decimal output is read back whole with base 0, for every 64-bit number |
| Strtoul.HexRoundTrip | kernel/lib_3rdparty/vsprintf.c:111-140 | hexadecimal output with prefix is read back whole without a base if and only if it is lower-case; behind "0X" reading stops at the X, for every number |
| Strtoul.LowerHexRoundTrip | kernel/lib_3rdparty/vsprintf.c:111-140 | in lower case it is read back whole whatever base is given, 16 included |
| Strtoul.OctalRoundTrip | kernel/lib_3rdparty/vsprintf.c:111-140 | octal output with prefix is read back whole with base 0 |
| Strtoul.PaddedRoundTrip | kernel/lib_3rdparty/vsprintf.c:111-140 | zero-padded output of any width and precision is read back with the base given |
| Printf.SkipAtoi | kernel/lib_3rdparty/vsprintf.c:167-175 | value and end of a run of decimal digits |
| Printf.ParseDirective | kernel/lib_3rdparty/vsprintf.c:478-539 | flags, width, precision and qualifier, with `*` arguments, as specified |
| Directives.DirectiveReads | kernel/lib_3rdparty/vsprintf.c:472-539 | every directive of the grammar (flags in any order, width and precision in digits, as a bare dot or from the arguments, qualifier, conversion) is read as written, negative arguments included, whatever character the conversion is |
| Conversions.FlagsAre | kernel/lib_3rdparty/vsprintf.c:478-498 | each flag is set if and only if its character is among the flag characters, in any order |
| Conversions.ParsedAs | kernel/lib_3rdparty/vsprintf.c:472-539 | flags, width, precision, qualifier and next argument of a directive, from its characters and the arguments for `*` |
| Conversions.IntegerPrints | kernel/lib_3rdparty/vsprintf.c:541-625 | `%d %i %u %o %x %X` anywhere in a format: the digits read in base 10, 8 or 16 are the low 32, 16 or all 64 bits of the next argument, in two's complement for `%d` and `%i`; letters small for `x` and capital for `X`; sign, prefix, least number of digits and padding as asked for; then the rest of the format |
| Conversions.OneInteger | kernel/lib_3rdparty/vsprintf.c:541-625 | a format that is one such directive prints just this |
| Conversions.StringPrints | kernel/lib_3rdparty/vsprintf.c:555-558 | `%s`: the string, or "<NULL>", cut to the precision, in its field |
| Conversions.CharPrints | kernel/lib_3rdparty/vsprintf.c:545-553 | `%c`: the low byte of the argument, in its field, spaces behind it if justified left and in front otherwise |
| Conversions.PointerPrints | kernel/lib_3rdparty/vsprintf.c:431-446 | `%p`: "(null)" as a string, or the address in small hexadecimal digits, 16 columns filled with zeros when no width is given; letters and digits behind the directive are passed over |
| Conversions.OthersPrint | kernel/lib_3rdparty/vsprintf.c:579-606 | `%%` prints a percent sign, an unknown character is printed behind one; neither takes an argument |
| Conversions.StorePrints | kernel/lib_3rdparty/vsprintf.c:569-577 | `%n` prints nothing and takes an argument |
| Conversions.PlainPrints | kernel/lib_3rdparty/vsprintf.c:472-476 | other characters are printed as they stand, up to the end of the format |
| Conversions.PercentEnds | kernel/lib_3rdparty/vsprintf.c:600-606 | a lone percent sign at the end is printed |
| Conformance.ConformsExactly | kernel/lib_3rdparty/vsprintf.c:294-391 | for every number, base, width, precision and flag set the text printed is that of section 7.19.6.1 of ISO C99, worded over the signed value, if and only if a condition on the arguments holds |
| Conformance.SignedDecimal | kernel/lib_3rdparty/vsprintf.c:312-324 | a signed decimal number is "-" and the digits of -v for a negative v, otherwise the digits of v behind "+", a space or nothing |
| Conformance.ZeroFlagBesidesPrecision | kernel/lib_3rdparty/vsprintf.c:374-380 | departure: the `0` flag fills with zeros next to a precision |
| Conformance.ZeroWithoutDigits | kernel/lib_3rdparty/vsprintf.c:333-334 | departure: zero with precision zero prints a digit |
| Conformance.HexPrefixOfZero | kernel/lib_3rdparty/vsprintf.c:368-373 | departure: zero gets "0x" with `#` |
| Conformance.OctalPrefixOfZero | kernel/lib_3rdparty/vsprintf.c:368-373 | departure: octal zero gets a second zero with `#` |
| Conformance.OctalPrefixBesidesPrecision | kernel/lib_3rdparty/vsprintf.c:368-383 | departure: `#` adds a zero to octal digits that start with one already |
| Conformance.NegativePrecisionOfNumber | kernel/lib_3rdparty/vsprintf.c:514-527 | reading a negative precision as zero makes no difference to integers |
| Conformance.NegativePrecisionOfString | kernel/lib_3rdparty/vsprintf.c:514-527 | for strings it makes none if and only if the string is spaces that fit into the field |
| Conformance.NegativePrecisionHidesString | kernel/lib_3rdparty/vsprintf.c:514-527 | departure: a string printed with a negative precision is hidden |
| Printf.EmitChar | kernel/lib_3rdparty/vsprintf.c:545-553 | the character, padded on the chosen side |
| Printf.EmitString | kernel/lib_3rdparty/vsprintf.c:393-411 | the string up to the precision, padded on the chosen side |
| Printf.EmitPointer | kernel/lib_3rdparty/vsprintf.c:431-446 | "(null)" or a hexadecimal number, 16 digits wide by default |
| Printf.EmitConversion | kernel/lib_3rdparty/vsprintf.c:544-629 | text, continuation and argument of every conversion |
| Printf.FormatInto | kernel/lib_3rdparty/vsprintf.c:470-630 | the whole output, truncated at the end, whatever helpers produced it |
| Printf.VsnprintfInternal | kernel/lib_3rdparty/vsprintf.c:448-639 | returns the length of the untruncated output; the buffer holds its first min(len, size-1) characters and a NUL, and nothing from size on changed (section 7.19.6.12 of ISO C99) |
| Printf.Vscnprintf | kernel/lib_3rdparty/vsprintf.c:647-658 | returns the number of characters stored before the NUL |
| KmallocRuns.HeapRunInv | kernel/lib/kmalloc.c:35-75 | after any run of kmalloc mixed with page allocations and frees, chunks are live runs with 32 <= offset <= size |
| KmallocRuns.KmallocInv | kernel/lib/kmalloc.c:48-75 | one call keeps that |
| KmallocRuns.RunsApart | kernel/lib/kmalloc.c:48-75 | chunks share no byte with each other or with other live pages |
| KmallocRuns.BlockInChunk | kernel/lib/kmalloc.c:48-75 | every block is 16-byte aligned and lies behind its chunk's header and before its offset |
| KmallocRuns.BlocksApart | kernel/lib/kmalloc.c:48-75 | two blocks never overlap |
| KmallocRuns.BlockApartFromHeader | kernel/lib/kmalloc.c:48-75 | no block overlaps a chunk header |
| KmallocRuns.BlockApartFromPages | kernel/lib/kmalloc.c:48-75 | no block overlaps a page allocation of anyone else |
| KmallocRuns.BlocksStay | kernel/lib/kmalloc.c:48-75 | blocks given out earlier keep address and size |
| KmallocRuns.KmallocReturnsBlock | kernel/lib/kmalloc.c:48-75 | the address returned is a new last block of some chunk, of the aligned size |
| KmallocRuns.KmallocAccounts | kernel/lib/kmalloc.c:48-75 | the offsets grow by the aligned size, and by 32 for a new chunk |
| KmallocRuns.ServedByChunk | kernel/lib/kmalloc.c:52-60 | a request, rounded up to a multiple of 16, is served behind the blocks of the first chunk that has more than that left, at this address, and nothing else changes |
| KmallocRuns.ServedByNewChunk | kernel/lib/kmalloc.c:61-75 | when no chunk has room, a chunk with the least number of pages for request and header is opened and the block put behind its 32 bytes of header, or the allocator panics |
| KmallocRuns.HeapStarts | kernel/lib/kmalloc.c:35-46 | the heap starts with one chunk of four pages |
| KmallocRuns.RunKeepsBlock | kernel/lib/kmalloc.c:48-75 | a block stays where it is over any run |
| KmallocRuns.ReturnedApart | kernel/lib/kmalloc.c:48-75 | any two requests of a run return memory that does not overlap, whatever happens in between |
| KmallocRuns.KmallocsApart | kernel/lib/kmalloc.c:35-75 | the same from boot on, with every address a multiple of 16 |
| Kmalloc.KernelHeap.KmallocInit | kernel/lib/kmalloc.c:35-46 | the first chunk of four pages, or the panic of the page allocator |
| Kmalloc.KernelHeap.FindChunk | kernel/lib/kmalloc.c:52-58 | the first node with room, or the last node of the acyclic list |
| Kmalloc.KernelHeap.AppendNode | kernel/lib/kmalloc.c:59-70 | one node more at the end, all others as before |
| Kmalloc.KernelHeap.BumpNode | kernel/lib/kmalloc.c:71-74 | only the offset of one node changes |
| Kmalloc.KernelHeap.Kmalloc | kernel/lib/kmalloc.c:48-75 | is the specified step, with its exact panic condition |
| Flash.ParseIsChain | kernel/core/vfs.c:34-76 | what is recorded are consecutive well-formed images, and it stops only at the limit or where none follows |
| Flash.ParseLongest | kernel/core/vfs.c:34-76 | any chain of images from the start is a prefix of what is recorded |
| Flash.ChainLayout | kernel/core/vfs.c:34-76 | images are adjacent, do not overlap and lie inside the device |
| Flash.ParseSerialized | kernel/core/vfs.c:34-76 | any list of files written behind position `at`, followed by no image, is parsed as that list |
| Flash.ParseRoundTrip | kernel/core/vfs.c:34-76 | up to 64 files written to a device and a tail that starts no image: parsing gives the files back |
| Flash.ParseRefuses | kernel/core/vfs.c:34-76 | nothing is recorded at a position if and only if there is no room, fewer than 64 bytes are left, the magic bytes are not 27 05 19 56, byte 29 is not 22, byte 31 is not 0, or the size exceeds what is left |
| Flash.RefusedAlone | kernel/core/vfs.c:48-62 | each of these alone is enough |
| Flash.ImageWritten | kernel/core/vfs.c:48-70 | conversely an image that is recorded is one written for a file with its name and data |
| Flash.ParsedWritten | kernel/core/vfs.c:34-76 | the converse of the round trip: whatever the device holds, it begins with the files recorded, as they are written |
| Files.OpenInv | kernel/core/vfs.c:142-151 | opening keeps every reference count equal to the number of open descriptors |
| Files.CloseInv | kernel/core/vfs.c:130-140 | closing keeps it; no count underflows |
| Files.ReadInv | kernel/core/vfs.c:153-166 | reading keeps it, and every offset within its file |
| Files.RefcountsExact | kernel/core/vfs.c:108-178 | in every reachable state each count is the number of open descriptors, and each file an image of the device |
| Files.ImagesFixed | kernel/core/vfs.c:108-178 | no operation changes what the files are |
| Files.NeverReused | kernel/core/vfs.c:108-119 | a descriptor number is never handed out again, and a closed one stays closed |
| Files.OpenReturns | kernel/core/vfs.c:142-151 | opening takes the first file of the name, up to a NUL or 32 characters, and the next of 100 numbers; -1 if and only if there is no such file or number, and then nothing changes |
| Files.ReadReturns | kernel/core/vfs.c:153-166 | every read of an open descriptor returns the smaller of its size and what is left, with these bytes of the file, and moves the offset by it; -1 when closed |
| Files.CloseReturns | kernel/core/vfs.c:121-140 | closing returns 0, frees the descriptor and gives one reference back; -1 when closed, and nothing changes |
| Files.NothingOpen | kernel/core/vfs.c:88-106 | at the start no descriptor is open or handed out, and there are at most 64 files |
| Files.ReadsInOrder | kernel/core/vfs.c:153-166 | over any run, the reads of one descriptor concatenate to the part of the file its offset passed over |
| Files.ReadsArePrefix | kernel/core/vfs.c:142-166 | from opening on they concatenate to a prefix of the file, as long as the offset |
| Vfs.FileSystem.ParseFlash | kernel/core/vfs.c:34-76 | the recursion fills the inode table with what the specification parses |
| Vfs.FileSystem.Record | kernel/core/vfs.c:56-69 | one inode more: name, start and size of the image |
| Vfs.FileSystem.Init | kernel/core/vfs.c:88-106 | the start state of the file transition system |
| Vfs.FileSystem.SameName | kernel/lib/strncmp.c:20-34 | true if and only if the names agree up to their NUL or 32 characters |
| Vfs.FileSystem.CreateFd | kernel/core/vfs.c:108-119 | the next number, one reference more; refused exactly when all are used up |
| Vfs.FileSystem.FindInode | kernel/core/vfs.c:144-149 | the first file of that name |
| Vfs.FileSystem.Open | kernel/core/vfs.c:142-151 | is the specified step |
| Vfs.FileSystem.GetDescriptor | kernel/core/vfs.c:121-128 | the descriptor if and only if it is open |
| Vfs.FileSystem.Close | kernel/core/vfs.c:130-178 | is the specified step |
| Vfs.FileSystem.Read | kernel/core/vfs.c:153-166 | is the specified step, and the buffer changes only where data was read |
| ImageReads.InitialFromFlash | kernel/core/vfs.c:34-106 | after boot every file is an image the parser accepted |
| ImageReads.StepFromFlash | kernel/core/vfs.c:108-178 | and stays one |
| ImageReads.HeaderReadExact | kernel/core/task.c:70-78 | the loader's first read returns exactly 64 bytes, with the data length in them |
| ImageReads.DataReadExact | kernel/core/task.c:100-106 | its second read returns exactly the data |
| ImageReads.CloseRestores | kernel/core/task.c:62-119 | closing undoes opening, except that a descriptor number is used up |
| Loader.OpenImage | kernel/core/task.c:64-78 | "Failed to read task header" is unreachable |
| Loader.ReadImage | kernel/core/task.c:100-106 | "Failed to read executable" is unreachable; the blob is the file's data |
| Loader.CloseImage | kernel/core/task.c:117 | the files are as before the load but for one used-up number |
| Elf.FillImage | kernel/lib/elf.c:71-72 | file bytes, then zeros to the end of the last page |
| Elf.LoadSegment | kernel/lib/elf.c:66-73 | one new run of pages of the segment's size holds its contents, or the allocator panics, exactly when its step does |
| Elf.ParseProgramHeader | kernel/lib/elf.c:55-78 | only the first PT_LOAD segment is loaded, with one allocation |
| Elf.LoadElf | kernel/lib/elf.c:120-166 | header checks, then that segment; the page allocator makes exactly the specified steps |
| ElfImages.HeaderReads | kernel/lib/elf.c:55-73 | the fields of a program header are seen as they were written: type at 0, offset at 8, file size at 32, memory size at 40 |
| ElfImages.HeadersRead | kernel/lib/elf.c:55-78 | so is a whole table of them, 56 bytes each |
| ElfImages.RejectsExactly | kernel/lib/elf.c:120-159 | an image is rejected if and only if it is shorter than 64 bytes or its magic, class, byte order, machine or header size bytes are not 7f 45 4c 46, 2, 1, 183 and 56 |
| ElfImages.WantedWritten | kernel/lib/elf.c:55-78 | of an image written with a list of program headers the first one of type 1 is loaded, with offset and sizes as written, or none if there is none |
| ElfImages.LoadedBytes | kernel/lib/elf.c:68-73 | the memory of a segment, byte by byte: the file's bytes, then zeros, up to the end of the last page |
| Loads.LoadGains | kernel/core/task.c:62-122 | a load that goes through adds exactly its two stack pages and the segment's pages to the live ones; the temporary blob is gone |
| Loads.LoadSteps | kernel/core/task.c:88-108 | the page steps of a load, in order: two pages of stack, the least number of pages for the blob, the least number for the segment if there is one, then the blob's back |
| Loads.StackLeaksExactly | kernel/core/task.c:88-112 | it adds a run without a task if and only if the image has no segment |
| Loads.DescriptorLeaksExactly | kernel/core/task.c:100-117 | its descriptor stays open if and only if the image has no segment; no other descriptor and no file changes |
| Loads.ClosedAgainIs | kernel/core/task.c:64-117 | closing behind both reads gives the table before the load back, less one number |
| Loads.BareHeaderWantsNothing | kernel/lib/elf.c:120-166 | an ELF header without program headers passes every check and asks for no segment |
| Loads.LeakingDevice | kernel/core/vfs.c:34-76 | a device holding just that is parsed, and loading from it is a load that leaks |
| Loads.LoadNeverExhausts | kernel/core/task.c:62-122 | with an ample pool a load never ends for lack of descriptors |
| Loads.ExitReturns | kernel/core/task.c:124-130 | an exit that goes through returns exactly the two runs |
| Loads.ExitSucceeds | kernel/core/task.c:124-130 | with an ample pool it always goes through |
| Loads.LoadThenExit | kernel/core/task.c:62-130 | loading a task and exiting it leaves live what was live before, and cannot fail on the way out |
| KernelRuns.StepInv | kernel/core/task.c:62-151 | every step of the kernel keeps pages, heap, files and ownership right |
| KernelRuns.EveryPageOwned | kernel/core/task.c:62-151 | after every run from boot the live pages are exactly the runs the owners hold, and the heap's are its chunks |
| KernelRuns.EveryTaskHoldsTwo | kernel/core/task.c:62-130 | a task not torn down has one stack of two pages and one image, an empty slot nothing |
| KernelRuns.OwnersApart | kernel/core/task.c:62-151 | no two owners share a page |
| KernelRuns.LivePagesByOwner | kernel/core/task.c:62-151 | live pages = heap chunks + idle page + mapped memory + leaked stacks + pages of the tasks |
| KernelRuns.ManagedPagesByOwner | kernel/core/page.c:184-193 | in pages, with the free ones they make up all managed pages, two leaked ones for each open descriptor |
| KernelRuns.LeaksInPairs | kernel/core/task.c:88-119 | leaked stacks and open descriptors are equally many |
| KernelRuns.LeaksExactly | kernel/core/task.c:62-122 | a load leaks if and only if it finds file, descriptor and slot, and the image has no segment |
| KernelRuns.StepNeverExhausts | kernel/core/page.c:55-65 | with an ample pool no step ends for want of a descriptor, and no exit ends at all |
| KernelRuns.BootNeverExhausts | kernel/core/page.c:55-65 | nor does any run from boot |
| Leaks.LeakReached | kernel/core/task.c:62-122 | booted with fifteen pages and the device above, the first load leaks a stack and a descriptor |
| KernelSystem.System.constructor | kernel/core/task.c:153-166 | an empty table next to a heap with all live pages is a state of the whole kernel |
| KernelSystem.System.Request | kernel/lib/kmalloc.c:48-75 | `kmalloc` on the allocator the tasks use is the step of the whole kernel, panics included |
| KernelSystem.System.Mmap | kernel/core/syscalls.c:45-52 | so is `sys_mmap` |
| KernelSystem.System.AddIdle | kernel/core/task.c:137-151 | so is the allocation for the idle task |
| KernelSystem.System.Load | kernel/core/task.c:62-122 | so is `task_load`, in pages, files, owners and slots |
| KernelSystem.System.Exit | kernel/core/task.c:124-130 | so is `task_exit` |
| KernelSystem.System.SysExit | kernel/core/syscalls.c:36-43 | so is `sys_exit`, which takes a step of the scheduler as well |
| Scheduler.NextNearest | kernel/core/task.c:32-48 | the next task is the nearest active one in cyclic order, the current one last; none if and only if none is active |
| Scheduler.SelectedInTime | kernel/core/task.c:32-48 | a task that stays active is selected after as many switches as its cyclic distance, whatever happens in between |
| Scheduler.Fairness | kernel/core/syscalls.c:30-42 | hence within MAX_TASKS switches, under any interleaving of yields, ticks, exits and loads |
| Scheduler.NoPanic | kernel/core/task.c:43-46 | while some task stays active "No more tasks are active" is not reached |
| Scheduler.InactiveNotSelected | kernel/core/task.c:124-130 | an exited task is not selected until its slot is loaded again |
| Tasks.TaskTable.constructor | kernel/core/task.c:153-166 | an empty table; every live page is owned outside it |
| Tasks.TaskTable.TaskNext | kernel/core/task.c:32-48 | the loop over the slots selects what the scheduler specification selects |
| Tasks.TaskTable.FindFreeTask | kernel/core/task.c:50-59 | the first INVALID slot, none if and only if there is none |
| Tasks.TaskTable.FreeRuns | kernel/core/task.c:126-128 | returns the task's two runs and no others; panics exactly when the page steps do |
| Tasks.TaskTable.ClearSlot | kernel/core/task.c:129 | with its runs returned the slot is INVALID and every live page still owned exactly once |
| Tasks.TaskTable.TaskExit | kernel/core/task.c:124-130 | keeps every page owned exactly once; only the task's own pages are freed |
| Tasks.TaskTable.ExitAlwaysFits | kernel/core/task.c:124-130 | with an ample pool no exit of any task panics |
| Tasks.TaskTable.MarkDead | kernel/core/syscalls.c:36-39 | a dead task still owns its pages |
| Tasks.TaskTable.SysExit | kernel/core/syscalls.c:36-43 | the current task is torn down and the scheduler's exit step taken |
| Tasks.TaskTable.Grant | kernel/core/page.c:184-187 | pages for an owner outside the table, granted exactly when the allocator has them |
| Tasks.TaskTable.SysMmap | kernel/core/syscalls.c:45-52 | the length in pages, rounded up, owned outside the table for good |
| Tasks.TaskTable.AddIdle | kernel/core/task.c:137-151 | one page, owned outside the table |
| Tasks.TaskTable.ReleaseBlob | kernel/core/task.c:108 | returns the blob's run and no other |
| Tasks.TaskTable.LoadAndRelease | kernel/core/task.c:107-108 | the blob is returned whether or not a segment was found |
| Tasks.TaskTable.MapImage | kernel/core/task.c:98-112 | of blob and image only the image's pages stay, and they hold the segment of the file |
| Tasks.TaskTable.AllocStack | kernel/core/task.c:88-94 | two stack pages, the slot stays INVALID |
| Tasks.TaskTable.Activate | kernel/core/task.c:113-119 | stack and image become the task's own, owned exactly once |
| Tasks.TaskTable.LeakStack | kernel/core/task.c:109-112 | without a segment the stack has no owner in the table any more |
| Tasks.TaskTable.Settle | kernel/core/task.c:109-119 | with an image the task becomes ACTIVE, without one only its stack stays behind |
| Tasks.TaskTable.FinishLoad | kernel/core/task.c:98-119 | the three ways the second half of a load ends, and the exact page steps |
| Tasks.TaskTable.CloseAndSchedule | kernel/core/task.c:117-121 | the file is closed; the first task loaded becomes current |
| Tasks.TaskTable.LoadInto | kernel/core/task.c:88-122 | a load into the first free slot |
| Tasks.TaskTable.LoadOpened | kernel/core/task.c:81-122 | a load of an open file: "No more free tasks" if and only if no slot is INVALID |
| Tasks.TaskTable.TaskLoad | kernel/core/task.c:62-122 | each outcome with its exact condition, what it leaves in table, files and page allocator, and that every page stays owned exactly once |
| Tasks.TaskTable.LoadedInto | kernel/core/task.c:50-122 | a load that goes through fills the first INVALID of 50 slots, with two pages of stack and the segment rounded up to pages, and makes it current only if there was no current task |
| Tasks.TaskTable.OwnersDisjoint | kernel/core/task.c:62-130 | owners, tasks or not, never share a page |
| Mmu.BlockFields | kernel/core/mm.c:16-48 | type, address and both attribute fields of a block entry read back as given, whatever the arguments |
| Mmu.BlockAddress | kernel/core/mm.c:21-46 | blocks exist at levels 1 and 2 with 4K pages and at level 2 with larger ones; their entry takes the address bits from 30, 21, 25 or 29 up to 47 |
| Mmu.TableFields | kernel/core/mm.c:56-72 | type, flags and address of a table entry read back, the address from the page size up to bit 47, and no other bit is set |
| Mmu.GigEntryDecodes | kernel/core/mm.c:151-180 | the i-th level-1 entry is an accessible block at i GiB, and these very 64 bits |
| Mmu.Tables.Init | kernel/core/mm.c:131-180 | the loops leave two roots with one entry each and two level-1 tables mapping four gigabytes |
| Mmu.Tables.InitMaps | kernel/core/mm.c:131-200 | with the four tables at distinct aligned addresses, a walk over what the loops wrote translates every 64-bit address as intended |
| Mmu.LookupMaps | kernel/core/mm.c:147-180 | a lookup from a root is the identity on the low 4 GiB of its 40 bits and faults elsewhere |
| Mmu.WalkMaps | kernel/core/mm.c:147-200 | every 64-bit address: [0, 4 GiB) maps to itself, 0xFFFF_FF00_0000_0000 + x to x below 4 GiB, all others fault (section D4.3 of ARM DDI 0487) |

## Left out

Deliberately weaker or narrower members:

- Printf.SkipAtoi: a digit run beyond the range of a C int is an unbounded integer; in the kernel it overflows, which C leaves undefined.
- Printf.ParseDirective: for the same reason widths and precisions do not wrap, nor does the most negative `*` width.
- Printf.EmitConversion: `%n` takes its argument but the store through it is not modelled. `%n` is the one conversion whose effect is outside the buffer.
- Printf.FormatInto: has the two limits above, for the format as a whole.
- Printf.VsnprintfInternal: the buffer is assumed not to reach the top of the address space (the `end < buf` repair), and lengths above INT_MAX do not wrap. Arguments are 64-bit slots, strings come from a function of their address.
- PageAllocator.Allocator.PageAlloc: excludes zero pages and counts of 2^31 and more, for which the kernel's shift is not defined. Sizes are unbounded integers; that they stay far below 32 bits is proved (`PageTheorems.StartSucceeds`).
- PageAllocator.Allocator.PageFree: callers free exactly a run they were given, as all callers in the kernel do.
- PageAllocator.Allocator.constructor: needs at least one page and less than 2 GiB of memory; with less than a page the pool does not fit (`PageTheorems.TooLittleMemory`).
- Kmalloc.KernelHeap.Kmalloc: sizes up to 0xFFFF_EFD0, so that header and rounding do not wrap 32 bits.
- KernelSystem.System.Request: the same sizes.
- Vfs.FileSystem.Init: the tables are arrays of their own; in the kernel they are blocks of `kmalloc`.
- Vfs.FileSystem.GetDescriptor: descriptor number 100 is excluded; the kernel's bound lets it through, one behind its table. Negative numbers are answered as in the kernel.
- Vfs.FileSystem.Close: excludes descriptor number 100 likewise.
- Vfs.FileSystem.Read: excludes descriptor number 100, and offset + size stays below 2^32.
- Elf.ParseProgramHeader: the header table lies in the image, and the first PT_LOAD segment, if there is one, has 0 < p_memsz < 0x7FFF_F000, p_filesz <= p_memsz and its contents in the image. Later segments are not looked at.
- Elf.LoadElf: assumes the same of images whose header passes. The final test of `vma_addr` is the caller's view of the result; with pages that never start at address zero it is the same.
- Tasks.TaskTable.TaskLoad: the named image, if there is one, has data, and is one `Elf.LoadElf` accepts. Name, registers, entry point and stack pointer of the task are not modelled.
- Tasks.TaskTable.AllocStack: leaves out the name and the initial registers.
- Tasks.TaskTable.Activate: leaves out the program counter.
- Tasks.TaskTable.LoadInto: leaves out name, registers and entry point, and so does `Tasks.TaskTable.LoadOpened`.
- Tasks.TaskTable.LoadOpened: see the line above.
- Tasks.TaskTable.AddIdle: the idle task gets one page but records two. It is never exited, so only its page is modelled, owned outside the table.
- Tasks.TaskTable.SysMmap: a length of zero, or one whose rounding wraps, is excluded.
- KernelSystem.System.Mmap: the same lengths.
- KernelSystem.System.Load: the same images as `Tasks.TaskTable.TaskLoad`; all files are opened by loads.
- Mmu.Tables.Init: two distinct level-1 addresses are parameters, aligned as the linker aligns them.

Not modelled:

- Contents of page memory, except the file data read into a blob and the image made from it.
- Where the file tables live: the kernel gets them from `kmalloc`, the model has arrays of its own.
- `kzalloc` (a memset behind kmalloc), `kfree`, `vfs_write` (stubs) and `vfs_stat`.
- `strict_strtoul`, `simple_strtoul`, `simple_strtol`, `ustrtoul` and the `snprintf`, `scnprintf`, `vsprintf` and `sprintf` wrappers: they only add easy members.
- `do_syscall`, which also lets through a call number one behind its table, and `task_create`, whose two loads are two calls of `TaskLoad`. `sys_yield` and the timer tick are calls of `TaskNext`.
- ELF section headers, permissions and segments behind the first PT_LOAD, which the loader ignores.
- System registers, barriers, memory attributes, access permissions and TLBs of the MMU; `dump_table` and the other printing.
- `clz` and `ntohl` are mathematical functions, not the inline assembly.
- UART, interrupt controller, timer, exception vectors, context switching, traps and the boot loader.
