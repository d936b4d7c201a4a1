# Verification models for the VeeR EL2 repository

Dafny models of the algorithmic parts of the RISC-V VeeR EL2 repository, and
proofs about them. `dafny verify dfyconfig.toml` checks everything.

| file | models |
|---|---|
| `Basics.dfy` | definitions shared by the others |
| `SortOrder.dfy`, `ListSort.dfy` | the in-place linked-list mergesort of CoreMark (`cmark.c`) and its two side-effecting comparators |
| `ListBench.dfy`, `ListInit.dfy` | the other list operations, the list benchmark and the list built inside one memory block |
| `NumberFormat.dfy`, `StateBench.dfy` | the number-recognising state machine and its benchmark |
| `Crc.dfy` | the CRC-16 functions |
| `Matrix.dfy` | the matrix benchmark on one block of memory |
| `Printf.dfy` | number printing (`printf.c`) and the parser `parseval` that reads it back |
| `JtagTap.dfy`, `JtagRuns.dfy`, `JtagSequences.dfy` | the JTAG predictor, whole runs of it, and the stimulus sequences |
| `RingBuffer.dfy`, `JtagDpi.dfy`, `SocketLoop.dfy` | the two-thread ring buffer, the remote-bitbang server on top, and the loop of its socket thread |
| `TraceLog.dfy`, `TraceFair.dfy` | the correlation of delayed register writes in an execution log |
| `CodeFixup.dfy` | the insertion of NOPs behind delayed writes |
| `AxiBytes.dfy`, `AxiWrite.dfy` | byte packing, the AXI write driver and the bus monitor |

## Main results

- A whole `core_bench_list` run leaves an ascending, regenerated list exactly as
  it was (`ListBench.BenchList`), and for lists with repeated indices there is
  an exact condition (`ListBench.RestoredExactly`).
- The mergesort terminates, is stable and keeps exactly its cells for every
  comparator that is a total preorder, and for the one that rewrites the data it
  compares, whose every value is computed once (`ListSort.Mergesort`).
- The TAP predictor delivers captured and shifted bits through any pauses
  (`JtagRuns.ScanOut`), and the two sequences present the address and data they
  were given (`JtagSequences.SelectThenAccess`).
- Over all interleavings of two threads and two ring buffers the pins and the
  replies are those of the command stream (`JtagDpi.EndToEnd`), and with the loop of
  the socket thread it is decided exactly when the two threads deadlock
  (`SocketLoop.MovesExactly`, `SocketLoop.WindowIsSafe`).
- Every register write of a log is in exactly one trace entry
  (`TraceLog.EveryWriteOnce`), and in the right one under an exact condition on the
  log (`TraceFair.HoldTheirOwnExactly`).
- For every schedule of overlapping AXI writes of any length the monitor reports each
  write once, whole exactly when it fits on the bus
  (`AxiWrite.MonitorSeesEveryWrite`).
- Inserting NOPs preserves every program, jumps included
  (`CodeFixup.FixupPreservesMeaning`).
- The CRC is a polynomial remainder and detects every burst of up to 16 bits
  (`Crc.FeedIsRemainder`, `Crc.ByteBurstDetected`).
- The state machine decides three number formats and nothing else
  (`NumberFormat.Recognises`, `NumberFormat.InvalidIffHopeless`).

## How to read the models

- Where the source updates objects in place the model is a class with methods
  (`ListHead`, `ListData`, `CoreResults`, `JTAGPredictor`, `TcpBuf`,
  `JtagDpiCtx`, `Axi4LiteMonitor`) or a method on an `array`, tied by its
  `ensures` to a function, and the theorems are about that function. Threads and
  clocked processes are state machines over their steps, because what is proved
  about them is about all interleavings.
- `ghost` parameters of the list methods name the cells of the list (`s`), the
  data cell of each (`info`), and the contents (`v`).
- Integers are unbounded in Dafny. 16-bit and 32-bit wrap-around, truncating
  division, signedness and sign extension are written out. Signed overflow, which
  C leaves undefined, is taken to wrap. Seeds are unbounded numbers where only
  their low bits are used.
- Registers of the TAP are bit sequences, lowest bit first.

## Assumptions

- tcp_server.c:66-67 and 77-78 store or load a byte and then publish the wrapped
  index in one step. If the other thread could see `wptr` at 1024 between the
  increment and the modulo, the empty test would be wrong.
- `trst_n` is high. A clock is a falling edge followed by a rising edge.
- The results of the benchmarks that `calc_func` calls are arbitrary: any function
  of the number of the call, the operation, its argument and the running CRC.
- The list is laid out for a 32-bit target, with 8-byte list cells and 4-byte data
  cells. `insize` never exceeds the length of the list, so it does not overflow.
- The AXI subordinate answers each id once, after its data; a write without data has
  been sent with its address.

## What the proofs found

- `core_bench_list` promises to leave the list in its original state
  (cmark.c:505). That holds if no index repeats, but `core_list_init` can give
  equal indices, even that of the dummy head, and one search that finds nothing turns
  every tie round (`ListBench.OneMissedSearch`). `ListInit.BenchLosesOrder` is such a
  run, and `ListBench.RestoredExactly` gives the exact condition.
- `core_list_init` keeps its dummy head in front up to a fifth of the list of 0x8000
  cells; with more, an index wraps around and sorts before it.
- The two CRC loops of the benchmark walk with `finder` but feed the data of the
  head each time (cmark.c:554-557 and 566-569); the comments speak of the list's
  data content. The model follows the code.
- `core_bench_state` with equal seeds loses exactly the stepped bytes that XOR to
  a comma (`StateBench.RestoredIff`, `StateBench.FirstByteLost`).
- One of the four scientific patterns of `core_init_state`, "-87e+832", has no point
  and is classified as invalid (`StateBench.PatternClass`).
- `core_init_matrix` on a block that is not aligned may reach up to 2 bytes past its
  end (`Matrix.BlockOverrun`).
- The socket thread takes all bytes of the client before it sends a reply, so the two
  threads can deadlock. tcp_server.c:25-26 warns of it; 2047 bytes on their way are
  safe, 2048 are not (`SocketLoop.WindowIsSafe`, `SocketLoop.DeadlockIsReachable`).
- `AccessDMIRegSequence` always sends seven address bits, so it is right for a
  port of width 7 and for no other width.
- The trace parser gives a delayed write that arrives before its instruction to an
  earlier instruction of its kind and register if that one is still queued behind an
  open entry, although it already has its value (`TraceFair.EarlyWriteMisfiled`).
  Entries hold their own values if and only if this never happens
  (`TraceFair.HoldTheirOwnExactly`).
- The value captured for dtmcs is one bit shorter than the register; the missing
  top bit is read as 0.
- The bus monitor keeps only the last data beat of a write, so a payload is reported
  as issued if and only if it fits on the bus (`AxiWrite.FirstBeatLost` is a run
  where it does not).

## Model

| member | source | states |
|---|---|---|
| `ListSort.CalcFunc` | RISC-V-Veer-EL2/testbench/asm/cmark.c:438-470 | a cached value comes back unchanged with no other effect; otherwise the value is computed from the operation bits, fed to the checksum, cached in the low byte with the high byte kept, and the first result of each benchmark is remembered |
| `ListSort.Compute` | RISC-V-Veer-EL2/testbench/asm/cmark.c:445-464 | the switch over the operation bits, with the replicated 8-bit argument and its minimum of 0x22 for the state benchmark |
| `ListSort.CompareValue` | RISC-V-Veer-EL2/testbench/asm/cmark.c:476-480 | calc_func as cmp_complex uses it: the seven-bit key of an item that stays settled |
| `ListSort.Compare` | RISC-V-Veer-EL2/testbench/asm/cmark.c:476-493 | both comparators return the difference of the keys, settle the two items and leave everything else alone, also when both are the same cell; any other comparator only reads them |
| `ListSort.CompareHeads` | RISC-V-Veer-EL2/testbench/asm/cmark.c:838-838 | a comparison during a merge settles the two cells at the heads and changes no other item |
| `ListSort.Append` | RISC-V-Veer-EL2/testbench/asm/cmark.c:846-852 | the chosen cell is linked behind the merged list, which stays acyclic, and the waiting cells stay linked |
| `ListSort.Choose` | RISC-V-Veer-EL2/testbench/asm/cmark.c:831-844 | the run that gives the next cell keeps the merged list sorted and stable |
| `ListSort.MergeStep` | RISC-V-Veer-EL2/testbench/asm/cmark.c:829-853 | one round moves exactly one cell and keeps the merge invariant |
| `ListSort.MergeRuns` | RISC-V-Veer-EL2/testbench/asm/cmark.c:825-857 | two adjacent runs become one sorted, stable run of the same cells |
| `ListSort.StepAlong` | RISC-V-Veer-EL2/testbench/asm/cmark.c:816-823 | the second run starts insize cells further on, or nowhere |
| `ListSort.MergePass` | RISC-V-Veer-EL2/testbench/asm/cmark.c:808-859 | one pass turns runs of a size into runs of twice the size; one merge or none means that the whole list is a run |
| `ListSort.PassRound` | RISC-V-Veer-EL2/testbench/asm/cmark.c:814-857 | one round finds the next two runs and merges them, and keeps the invariant of the pass |
| `ListSort.Finish` | RISC-V-Veer-EL2/testbench/asm/cmark.c:859-859 | the merged cells form an acyclic list of exactly the cells of the input |
| `ListSort.Mergesort` | RISC-V-Veer-EL2/testbench/asm/cmark.c:801-871 | for every non-empty acyclic list and every comparator that is a total preorder on items, and for the two side-effecting ones: terminates with an acyclic list of exactly the same cells, sorted, stable, all items settled, high bytes and indices kept; with cmp_complex every value is computed exactly once |
| `ListSort.SortedByCompare` | RISC-V-Veer-EL2/testbench/asm/cmark.c:801-871 | for any comparator: every cell compares at most 0 with every later one, and cells that compare at most 0 both ways keep their order |
| `SortOrder.KeyAgrees` | RISC-V-Veer-EL2/testbench/asm/cmark.c:838-838 | every total preorder on items has a number as key: comparing at most 0 is having at most as many items before |
| `SortOrder.RunIsSort` | RISC-V-Veer-EL2/testbench/asm/cmark.c:801-871 | a single run over all cells is a stable sort of the list the sort started from |
| `SortOrder.TakeP` | RISC-V-Veer-EL2/testbench/asm/cmark.c:835-840 | taking from the first run on a tie keeps sortedness and stability |
| `SortOrder.TakeQ` | RISC-V-Veer-EL2/testbench/asm/cmark.c:832-844 | taking from the second run only on a strictly lower key keeps sortedness and stability |
| `SortOrder.PassStep` | RISC-V-Veer-EL2/testbench/asm/cmark.c:814-857 | merging two more runs extends the part of the list that is cut into double runs |
| `SortOrder.OrderIsUnique` | RISC-V-Veer-EL2/testbench/asm/cmark.c:562-563 | two arrangements of the same cells that follow the same asymmetric order are the same list |
| `ListSort.ComputedTransitive` | RISC-V-Veer-EL2/testbench/asm/cmark.c:438-480 | computing each value at most once is kept from merge to merge, because a settled item is never computed again |
| `ListBench.Find` | RISC-V-Veer-EL2/testbench/asm/cmark.c:745-755 | the first cell that matches by index, or by low data byte for a negative index, or none |
| `ListBench.Reverse` | RISC-V-Veer-EL2/testbench/asm/cmark.c:770-779 | the same cells, acyclic, in reversed order, with the same contents |
| `ListBench.MoveUp` | RISC-V-Veer-EL2/testbench/asm/cmark.c:531-537 | the cell behind the found one moves to the second place and the rest keeps its order |
| `ListBench.Remove` | RISC-V-Veer-EL2/testbench/asm/cmark.c:691-702 | the next cell is unlinked and the two infos are swapped |
| `ListBench.UndoRemove` | RISC-V-Veer-EL2/testbench/asm/cmark.c:720-730 | links and infos are exactly as before the remove |
| `ListBench.Score` | RISC-V-Veer-EL2/testbench/asm/cmark.c:523-530 | bit 9 of an odd found value, or bit 8 of the value that has become second |
| `ListBench.Search` | RISC-V-Veer-EL2/testbench/asm/cmark.c:520-538 | one search finds the first match, reverses the list, moves the successor up, and counts |
| `ListBench.Searches` | RISC-V-Veer-EL2/testbench/asm/cmark.c:517-545 | the whole search loop is the iteration of one search, for any number of searches: the searched index moves on by one each time until it wraps around and stays, the searched byte is the number of the search, and the result is four times the hits less the misses, modulo 2^16 |
| `ListBench.HuntLaws` | RISC-V-Veer-EL2/testbench/asm/cmark.c:519-545 | after n searches: the index in closed form with its wrap-around, hits and misses together n modulo 2^16, and the same cells |
| `ListBench.WalkCrc` | RISC-V-Veer-EL2/testbench/asm/cmark.c:554-557 | the checksum of the head's data, fed once for every cell from the start of the walk to the end of the list |
| `ListBench.RemoveAndUndo` | RISC-V-Veer-EL2/testbench/asm/cmark.c:549-561 | list and contents are as before, and the checksum is that of the list without one item |
| `ListBench.SummedFrom` | RISC-V-Veer-EL2/testbench/asm/cmark.c:549-557 | which items the checksum without one item covers: from the first match on, or all but the head |
| `ListBench.SortBack` | RISC-V-Veer-EL2/testbench/asm/cmark.c:562-569 | the list is stably sorted by index with regenerated data, and its checksum is taken |
| `ListBench.Perform` | RISC-V-Veer-EL2/testbench/asm/cmark.c:507-574 | the result of the benchmark is the composition of its parts: searches, optional sort by value, checksum without one item, sort by index, checksum |
| `ListBench.BenchList` | RISC-V-Veer-EL2/testbench/asm/cmark.c:500-574 | for every list of at least 3 cells, every seed and finder index: same cells and infos, sorted by index, every item regenerated; an ascending list of regenerated items ends exactly as it was, links, infos and data |
| `ListBench.AfterSort` | RISC-V-Veer-EL2/testbench/asm/cmark.c:562-563 | whatever was cached on the way, each item ends as its high byte twice over, with its index |
| `ListBench.Restored` | RISC-V-Veer-EL2/testbench/asm/cmark.c:505-505 | a strictly ascending list of regenerated items is restored |
| `ListBench.SortGivesBack` | RISC-V-Veer-EL2/testbench/asm/cmark.c:563-563 | a stable sort gives a list back exactly when that list is sorted and its ties are still in order |
| `ListBench.AheadIff` | RISC-V-Veer-EL2/testbench/asm/cmark.c:801-871 | after the sort a cell is ahead of another if and only if its key is less, or equal and it was ahead before |
| `ListBench.TiesThroughSort` | RISC-V-Veer-EL2/testbench/asm/cmark.c:547-548 | ties by index survive the sort by value if and only if the earlier cell has the lesser value, or the same value and was ahead |
| `ListBench.RestoredExactly` | RISC-V-Veer-EL2/testbench/asm/cmark.c:500-574 | for any list: the order comes back if and only if the list was sorted by index and its ties come through the searches and, for a positive finder index, the sort by value in order, said from the list, the searches and the computed values; the data comes back if and only if the low bytes equal the high bytes |
| `ListBench.OneMissedSearch` | RISC-V-Veer-EL2/testbench/asm/cmark.c:519-526 | after one search that finds nothing, and no sort by value, the list is restored if and only if no index repeats |
| `ListInit.CellsFit` | RISC-V-Veer-EL2/testbench/asm/cmark.c:588-594 | all list and data cells lie inside the block and no two of them overlap |
| `ListInit.InsertNew` | RISC-V-Veer-EL2/testbench/asm/cmark.c:657-676 | fails exactly when the block is used up, and then changes nothing; otherwise the next cell is linked behind the insertion point, which may be any cell of the list, with its own data cell |
| `ListInit.Populate` | RISC-V-Veer-EL2/testbench/asm/cmark.c:600-617 | exactly size - 1 cells are linked, with the dummies and the seeded items |
| `ListInit.PatternFields` | RISC-V-Veer-EL2/testbench/asm/cmark.c:612-617 | the fields of an item: operation, argument, not cached, and a copy in the high byte |
| `ListInit.Index` | RISC-V-Veer-EL2/testbench/asm/cmark.c:618-629 | every cell between the dummies gets the index of its place in the list |
| `ListInit.IndexBits` | RISC-V-Veer-EL2/testbench/asm/cmark.c:624-627 | the index of a mixed item, bit for bit |
| `ListInit.ListInit` | RISC-V-Veer-EL2/testbench/asm/cmark.c:588-641 | size - 1 pairwise different cells with pairwise different infos; contents cell by cell; sorted by index with the 0x7fff tail last, every item regenerated, and the dummy head first if and only if no index wraps around |
| `ListInit.SortedDummies` | RISC-V-Veer-EL2/testbench/asm/cmark.c:630-630 | the sort keeps the dummy tail last, the dummy head first if and only if no index wraps around, and changes no item |
| `ListInit.HeadFirst` | RISC-V-Veer-EL2/testbench/asm/cmark.c:630-630 | a head with the least index stays first even on ties, because the sort is stable |
| `ListInit.TailLast` | RISC-V-Veer-EL2/testbench/asm/cmark.c:630-630 | a tail with the greatest index stays last even on ties |
| `ListInit.MixedMayTie` | RISC-V-Veer-EL2/testbench/asm/cmark.c:624-627 | a later item can get index 0, the index of the dummy head |
| `ListInit.InitTies` | RISC-V-Veer-EL2/testbench/asm/cmark.c:618-629 | with 840 bytes and seed 15 the initial list has two cells with index 0 |
| `ListInit.BenchLosesOrder` | RISC-V-Veer-EL2/testbench/asm/cmark.c:500-574 | core_list_init on 840 bytes with seed 15 and then core_bench_list with one search and finder index -1: the cells come back in a different order |
| `NumberFormat.RunLeads` | RISC-V-Veer-EL2/testbench/asm/cmark.c:1727-1820 | each state is reached by exactly the words of its format |
| `NumberFormat.Recognises` | RISC-V-Veer-EL2/testbench/asm/cmark.c:1727-1820 | INT, FLOAT and SCIENTIFIC exactly for the words of the three number formats |
| `NumberFormat.InvalidIffHopeless` | RISC-V-Veer-EL2/testbench/asm/cmark.c:1727-1820 | INVALID exactly when no continuation of the word is a number |
| `StateBench.StateTransition` | RISC-V-Veer-EL2/testbench/asm/cmark.c:1727-1820 | the loop over a NUL-terminated block ends at the position, state and counters of the scan |
| `StateBench.Switch` | RISC-V-Veer-EL2/testbench/asm/cmark.c:1737-1816 | the switch is one step of the machine together with its transition counters |
| `StateBench.TokenClassified` | RISC-V-Veer-EL2/testbench/asm/cmark.c:1717-1820 | a call names the format of the token up to the comma or NUL, INVALID exactly when no continuation is a number, and always consumes at least one byte |
| `StateBench.TokenCounted` | RISC-V-Veer-EL2/testbench/asm/cmark.c:1737-1816 | over a token the counter of a state grows by the number of times the token leaves it, that of SCIENTIFIC not at all, and that of INVALID once if the token becomes invalid out of START or SCIENTIFIC |
| `StateBench.TokenLeft` | RISC-V-Veer-EL2/testbench/asm/cmark.c:1731-1736 | the pointer ends behind the comma or at the NUL, and behind the first byte that makes a token invalid |
| `StateBench.NumbersInOrder` | RISC-V-Veer-EL2/testbench/asm/cmark.c:1637-1640 | the order of the states |
| `StateBench.StopsAtNul` | RISC-V-Veer-EL2/testbench/asm/cmark.c:1731-1736 | no scan passes a NUL |
| `StateBench.ScanBlock` | RISC-V-Veer-EL2/testbench/asm/cmark.c:1601-1610 | terminates inside the block with the counts of all tokens |
| `StateBench.FinalsCounted` | RISC-V-Veer-EL2/testbench/asm/cmark.c:1601-1610 | the final counter of a state grows by the number of scans that end in it |
| `StateBench.Corrupt` | RISC-V-Veer-EL2/testbench/asm/cmark.c:1612-1617 | exactly the stepped bytes that are not commas are XORed |
| `StateBench.Undone` | RISC-V-Veer-EL2/testbench/asm/cmark.c:1630-1635 | a second pass with the same seed restores every byte but those that the first one turned into a comma, which stay commas |
| `StateBench.RestoredIff` | RISC-V-Veer-EL2/testbench/asm/cmark.c:1630-1635 | the block comes back if and only if no stepped byte XORs to a comma |
| `StateBench.BenchState` | RISC-V-Veer-EL2/testbench/asm/cmark.c:1586-1642 | with a NUL for each scan to stop at, both scans stay inside the memory; the block after both passes; the checksum of both scans' counters; with equal seeds every byte restored except those turned into commas |
| `StateBench.SumUp` | RISC-V-Veer-EL2/testbench/asm/cmark.c:1637-1640 | the checksum covers both counters of every state, in order |
| `StateBench.TallyBytesAt` | RISC-V-Veer-EL2/testbench/asm/cmark.c:1637-1640 | eight bytes per state, its final counter before its transition counter |
| `StateBench.InitState` | RISC-V-Veer-EL2/testbench/asm/cmark.c:1659-1709 | as many patterns as fit, each with its comma, then NULs up to the size, two of them if there is room |
| `StateBench.PatternText` | RISC-V-Veer-EL2/testbench/asm/cmark.c:1645-1648 | the bytes of the patterns spell the sixteen texts |
| `StateBench.PatternClass` | RISC-V-Veer-EL2/testbench/asm/cmark.c:1644-1648 | integers and floats are recognised as such, error patterns are invalid, and so is one of the four scientific ones |
| `StateBench.FillAndBench` | RISC-V-Veer-EL2/testbench/asm/cmark.c:1586-1709 | on the block that core_init_state fills, of any size from 2 on and for any step from 2 on, exactly the stepped bytes turned into commas are lost |
| `StateBench.FirstByteLost` | RISC-V-Veer-EL2/testbench/asm/cmark.c:1612-1635 | with seed -1 and key 0x19 the first byte, the digit 5, ends as a comma |
| `Crc.Crcu8` | RISC-V-Veer-EL2/testbench/asm/cmark.c:1962-1985 | the register after the eight bits of a byte, lowest first |
| `Crc.Crcu16` | RISC-V-Veer-EL2/testbench/asm/cmark.c:1986-1990 | the register after the two bytes, low byte first |
| `Crc.Crcu32` | RISC-V-Veer-EL2/testbench/asm/cmark.c:1991-1995 | the register after the four bytes, low byte first |
| `Crc.Clocked` | RISC-V-Veer-EL2/testbench/asm/cmark.c:1968-1982 | both arms of the loop body are one clock of the division by x^16 + x^15 + x^2 + 1 |
| `Crc.MessageConcat` | RISC-V-Veer-EL2/testbench/asm/cmark.c:1986-1995 | chained calls are one call on the joined byte stream |
| `Crc.AfterBoth` | RISC-V-Veer-EL2/testbench/asm/cmark.c:1986-1995 | registers chain through a common value in between |
| `Crc.BytesRebuild` | RISC-V-Veer-EL2/testbench/asm/cmark.c:1986-1995 | low byte first: the bytes fed make up the value again |
| `Crc.FeedIsRemainder` | RISC-V-Veer-EL2/testbench/asm/cmark.c:1962-1998 | the register is the remainder of the message polynomial over GF(2), by schoolbook division |
| `Crc.BurstDetected` | RISC-V-Veer-EL2/testbench/asm/cmark.c:1962-1998 | messages of any length that differ only inside a window of 16 bits get different checksums, for every start value |
| `Crc.ByteBurstDetected` | RISC-V-Veer-EL2/testbench/asm/cmark.c:1962-1998 | the same for byte messages |
| `Matrix.AddConst` | RISC-V-Veer-EL2/testbench/asm/cmark.c:1487-1494 | every element of the matrix moves by val modulo 2^16, and nothing else does |
| `Matrix.AddedDifference` | RISC-V-Veer-EL2/testbench/asm/cmark.c:1491-1491 | an element moves by val up to multiples of 2^16 |
| `Matrix.MulConst` | RISC-V-Veer-EL2/testbench/asm/cmark.c:1475-1482 | each element of C is the product, modulo 2^32; nothing outside C is written |
| `Matrix.MulVect` | RISC-V-Veer-EL2/testbench/asm/cmark.c:1500-1508 | the first N elements of C are row times vector; nothing else is written |
| `Matrix.MulMatrix` | RISC-V-Veer-EL2/testbench/asm/cmark.c:1514-1543 | each element of C is row times column, with plain or bit-extracted terms; nothing outside C is written |
| `Matrix.TermIsProduct` | RISC-V-Veer-EL2/testbench/asm/cmark.c:1479-1539 | a term is the signed product modulo 2^32, or the product of its bits 2 to 5 and its bits 5 to 11 |
| `Matrix.DotIsSum` | RISC-V-Veer-EL2/testbench/asm/cmark.c:1518-1522 | a result element is row times column as integers, modulo 2^32 |
| `Matrix.DotIsBitSum` | RISC-V-Veer-EL2/testbench/asm/cmark.c:1535-1540 | with bit extraction it is the sum of the products of the two fields |
| `Matrix.ProductMeans` | RISC-V-Veer-EL2/testbench/asm/cmark.c:1514-1543 | the element in row i and column j of a product of matrices |
| `Matrix.UnitProduct` | RISC-V-Veer-EL2/testbench/asm/cmark.c:1521-1521 | a unit vector picks an element |
| `Matrix.TimesUnit` | RISC-V-Veer-EL2/testbench/asm/cmark.c:1514-1525 | multiplying by the unit matrix gives A sign-extended |
| `Matrix.SignedRange` | RISC-V-Veer-EL2/testbench/asm/cmark.c:322-322 | an element is read as the signed 16-bit number |
| `Matrix.Accumulate` | RISC-V-Veer-EL2/testbench/asm/cmark.c:1518-1522 | one element of C receives the sum over k; no other half word changes |
| `Matrix.AddUndone` | RISC-V-Veer-EL2/testbench/asm/cmark.c:1381-1381 | adding and subtracting the same 16-bit value gives the element back, wrap-around included |
| `Matrix.MatrixTest` | RISC-V-Veer-EL2/testbench/asm/cmark.c:1352-1383 | for every val A and B come back unchanged, nothing outside C changes, C ends as the bit-extract product of A + val and B, and the result is the checksum of the four sums over C after each multiplication |
| `Matrix.ShiftedDifference` | RISC-V-Veer-EL2/testbench/asm/cmark.c:1356-1356 | the memory during the test is the memory with val added to A alone |
| `Matrix.MatrixSum` | RISC-V-Veer-EL2/testbench/asm/cmark.c:1451-1469 | the sum over a result matrix, with its 32-bit accumulator, its clip value and its 16-bit result |
| `Matrix.SumOfLarge` | RISC-V-Veer-EL2/testbench/asm/cmark.c:1456-1466 | where no element is negative the sum is ten per element |
| `Matrix.SumOfSmall` | RISC-V-Veer-EL2/testbench/asm/cmark.c:1456-1466 | where all elements stay below the clip value and the total does not overflow the sum counts the rises |
| `Matrix.ClipRange` | RISC-V-Veer-EL2/testbench/asm/cmark.c:1281-1281 | the clip value is negative and keeps the twelve low bits of val |
| `Matrix.IsVectProduct` | RISC-V-Veer-EL2/testbench/asm/cmark.c:1365-1365 | after the vector product the other elements of C are still those of the product with the constant |
| `Matrix.Dimension` | RISC-V-Veer-EL2/testbench/asm/cmark.c:1409-1413 | the largest N whose 8*N*N bytes are fewer than the block |
| `Matrix.Fill` | RISC-V-Veer-EL2/testbench/asm/cmark.c:1417-1428 | the seeded values of A and B, element by element, and nothing behind them |
| `Matrix.FillElement` | RISC-V-Veer-EL2/testbench/asm/cmark.c:1419-1426 | one element of B and of A from the seed and the running number |
| `Matrix.SeedClosed` | RISC-V-Veer-EL2/testbench/asm/cmark.c:1419-1419 | the k-th seed is the first one times k factorial modulo 2^16 |
| `Matrix.ValuesClosed` | RISC-V-Veer-EL2/testbench/asm/cmark.c:1420-1425 | the elements of B and A in closed form |
| `Matrix.InitMatrix` | RISC-V-Veer-EL2/testbench/asm/cmark.c:1400-1439 | the largest N; A, B and C side by side and aligned, inside an aligned block, and inside any other exactly when the bytes lost to alignment are to spare, never more than 2 bytes past its end; the seeded contents |
| `Matrix.BlockOverrun` | RISC-V-Veer-EL2/testbench/asm/cmark.c:1414-1432 | a block of 9 bytes at address 1 is overrun by 2 bytes |
| `Printf.FillBuffer` | RISC-V-Veer-EL2/testbench/asm/printf.c:46-52 | the digits, lowest first, and never more than the 20 bytes of the buffer |
| `Printf.WordLength` | RISC-V-Veer-EL2/testbench/asm/printf.c:43-52 | a 32-bit number has at most 11 digits in base 8 or more |
| `Printf.Emit` | RISC-V-Veer-EL2/testbench/asm/printf.c:54-59 | the padding, then the buffer from its end |
| `Printf.PrintUnsigned` | RISC-V-Veer-EL2/testbench/asm/printf.c:40-62 | the padded decimal numeral and its length |
| `Printf.PrintDecimal` | RISC-V-Veer-EL2/testbench/asm/printf.c:65-98 | sign, padding and numeral, the sign counted in the width and in the result |
| `Printf.DecimalLength` | RISC-V-Veer-EL2/testbench/asm/printf.c:71-95 | the text is as wide as asked for, or as the number with its sign |
| `Printf.PrintInt` | RISC-V-Veer-EL2/testbench/asm/printf.c:101-141 | decimal as above, bases 8 and 16 the unpadded numeral of the 32-bit pattern, any other base -1 |
| `Printf.ParseVal` | RISC-V-Veer-EL2/testbench/asm/cmark.c:1884-1922 | sign, base, digits and unit, modulo 2^32 |
| `Printf.DigitLetters` | RISC-V-Veer-EL2/testbench/asm/cmark.c:1898-1912 | which characters are read as digits, and their values |
| `Printf.UnitSuffix` | RISC-V-Veer-EL2/testbench/asm/cmark.c:1914-1918 | K stands for 2^10 and M for 2^20 |
| `Printf.NumeralValue` | RISC-V-Veer-EL2/testbench/asm/printf.c:46-52 | reading the digits back gives the number |
| `Printf.DigitText` | RISC-V-Veer-EL2/testbench/asm/printf.c:126-127 | the digits from 0 to f |
| `Printf.NoLeadingZero` | RISC-V-Veer-EL2/testbench/asm/printf.c:46-52 | no number but 0 starts with a zero |
| `Printf.DecimalRoundTrip` | RISC-V-Veer-EL2/testbench/asm/printf.c:65-98 | parseval undoes whisperPrintDecimal for every int above the smallest and every zero-padded width |
| `Printf.HexRoundTrip` | RISC-V-Veer-EL2/testbench/asm/printf.c:122-132 | parseval of "0x" and the hexadecimal text gives back every 32-bit word |
| `JtagTap.Clock` | RISC-V-Veer-EL2/verification/block/dmi/jtag_predictor.py:199-276 | one clock of the registers keeps their widths and the rule that dr is loaded only behind an Update-DR of the dmi register |
| `JtagTap.JTAGPredictor.constructor` | RISC-V-Veer-EL2/verification/block/dmi/jtag_predictor.py:27-51 | the initial state and registers |
| `JtagRuns.InitialNumbers` | RISC-V-Veer-EL2/verification/block/dmi/jtag_predictor.py:43-51 | in reset, instruction 1, all registers 0 |
| `JtagTap.JTAGPredictor.UpdateState` | RISC-V-Veer-EL2/verification/block/dmi/jtag_predictor.py:76-84 | the state moves on |
| `JtagTap.JTAGPredictor.UpdateNstate` | RISC-V-Veer-EL2/verification/block/dmi/jtag_predictor.py:86-189 | the 16-state transition table |
| `JtagRuns.Rests` | RISC-V-Veer-EL2/verification/block/dmi/jtag_predictor.py:96-189 | the states in which the controller rests while TMS stays |
| `JtagRuns.Entries` | RISC-V-Veer-EL2/verification/block/dmi/test_dmi_tap_fsm.py:59-113 | from every state five highs and lows lead to Run-Test/Idle; from there three clocks to Shift-DR, four to Shift-IR, and three highs back to reset |
| `JtagRuns.PausePaths` | RISC-V-Veer-EL2/verification/block/dmi/test_dmi_tap_fsm.py:59-113 | a scan in either column may pause for any time and go on or end |
| `JtagRuns.EndPaths` | RISC-V-Veer-EL2/verification/block/dmi/test_dmi_tap_fsm.py:59-113 | a scan may end at once or be skipped, and what comes behind its update |
| `JtagTap.JTAGPredictor.PredictRegsPosedge` | RISC-V-Veer-EL2/verification/block/dmi/jtag_predictor.py:199-225 | dr, sr, ir and ndr after the rising edge, and the invariant of the registers |
| `JtagTap.JTAGPredictor.PredictNsrReg` | RISC-V-Veer-EL2/verification/block/dmi/jtag_predictor.py:227-276 | the next shift register: shift or capture by state and instruction |
| `JtagRuns.CapturedNumbers` | RISC-V-Veer-EL2/verification/block/dmi/jtag_predictor.py:247-276 | the captured numbers: 0x71 for dtmcs, 1 for the identification and the instruction, the read data above status 0 for dmi, and a bypass bit of 0 |
| `JtagTap.JTAGPredictor.PredictRegsNegedge` | RISC-V-Veer-EL2/verification/block/dmi/jtag_predictor.py:278-285 | tdo shows the lowest bit of the shift register |
| `JtagTap.JTAGPredictor.PredictPorts` | RISC-V-Veer-EL2/verification/block/dmi/jtag_predictor.py:287-308 | the ports show dr, the shift states and the hard reset bit |
| `JtagTap.JTAGPredictor.NegativeEdge` | RISC-V-Veer-EL2/verification/block/dmi/jtag_predictor.py:310-328 | the falling edge changes no register |
| `JtagTap.JTAGPredictor.PositiveEdge` | RISC-V-Veer-EL2/verification/block/dmi/jtag_predictor.py:310-328 | the rising edge is one clock of the registers |
| `JtagTap.JTAGPredictor.ClockCycle` | RISC-V-Veer-EL2/verification/block/dmi/jtag_predictor.py:310-328 | both edges together refine one clock, with tdo taken before it and the ports after it |
| `JtagRuns.ScanShifts` | RISC-V-Veer-EL2/verification/block/dmi/jtag_predictor.py:235-285 | through any mixture of shifting and pausing TDO delivers the register content in order while TDI extends it |
| `JtagRuns.ScanOut` | RISC-V-Veer-EL2/verification/block/dmi/jtag_predictor.py:235-285 | the k-th TDO bit of a scan is bit k of the captured value for k below the register length and after that the TDI bit of that many shifts earlier, however often the scan pauses |
| `JtagRuns.PauseDetour` | RISC-V-Veer-EL2/verification/block/dmi/jtag_predictor.py:235-285 | a pause of any length costs the one shift on the way out and nothing else |
| `JtagRuns.PortsFollowUpdate` | RISC-V-Veer-EL2/verification/block/dmi/jtag_predictor.py:203-223 | in every reachable state the enables are off and address and data unchanged, except for the clock behind an Update-DR of the dmi register |
| `JtagRuns.OperationLastsOneClock` | RISC-V-Veer-EL2/verification/block/dmi/jtag_predictor.py:203-223 | the enables are on for one clock only, and address and data stay |
| `JtagRuns.FiveOnesReset` | RISC-V-Veer-EL2/verification/block/dmi/jtag_predictor.py:86-189 | five clocks with TMS high reach Test-Logic-Reset from every state |
| `JtagSequences.AccessBody` | RISC-V-Veer-EL2/verification/block/dmi/dmi_seq.py:44-71 | the two loops build the item list of the sequence |
| `JtagSequences.ShiftAll` | RISC-V-Veer-EL2/verification/block/dmi/jtag_predictor.py:235-276 | shifting in a word and leaving with its last bit leaves the register with the last bits of what it held followed by the word |
| `JtagSequences.SetIr` | RISC-V-Veer-EL2/verification/block/dmi/jtag_seq.py:29-45 | SetIRSequence(k) leaves ir = k, or 0x1F when k is 0, and returns to Run-Test/Idle |
| `JtagSequences.SetIrNumber` | RISC-V-Veer-EL2/verification/block/dmi/jtag_seq.py:29-45 | the same in numbers |
| `JtagSequences.Access` | RISC-V-Veer-EL2/verification/block/dmi/dmi_seq.py:44-71 | what the port shows after AccessDMIRegSequence, for every width, address, data and flag |
| `JtagSequences.AccessPresents` | RISC-V-Veer-EL2/verification/block/dmi/dmi_seq.py:44-71 | with as many address bits as the port has: exactly that address and data, rd_en on, wr_en the flag, and both enables off afterwards |
| `JtagSequences.SelectThenAccess` | RISC-V-Veer-EL2/verification/block/dmi/dmi_seq.py:44-71 | the same after SetIRSequence(0x11), from any instruction |
| `JtagSequences.FirstAccess` | RISC-V-Veer-EL2/verification/block/dmi/dmi_seq.py:44-71 | the same for a predictor as constructed, after one clock with TMS low |
| `JtagSequences.SevenBitsOnly` | RISC-V-Veer-EL2/verification/block/dmi/dmi_seq.py:35-71 | with seven address bits and any other port width a read never raises rd_en |
| `TraceLog.SearchNb` | RISC-V-Veer-EL2/tools/riscv-dv/veer_log_to_trace_csv.py:83-94 | the last queued delayed write of the right kind and register |
| `TraceLog.SearchInstr` | RISC-V-Veer-EL2/tools/riscv-dv/veer_log_to_trace_csv.py:133-144 | the last queued instruction of the right kind and register, or a failed assertion |
| `TraceLog.Dequeue` | RISC-V-Veer-EL2/tools/riscv-dv/veer_log_to_trace_csv.py:156-165 | exactly the complete entries at the head leave the queue |
| `TraceLog.ParseLog` | RISC-V-Veer-EL2/tools/riscv-dv/veer_log_to_trace_csv.py:48-174 | the loop computes the parser's run over the log, stop at ecall and failures included |
| `TraceLog.LineEdits` | RISC-V-Veer-EL2/tools/riscv-dv/veer_log_to_trace_csv.py:51-172 | a line changes emitted and queued entries by at most one append or one replacement inside the queue |
| `TraceLog.EditWrites` | RISC-V-Veer-EL2/tools/riscv-dv/veer_log_to_trace_csv.py:51-172 | a line adds exactly its own register writes |
| `TraceLog.LineSplits` | RISC-V-Veer-EL2/tools/riscv-dv/veer_log_to_trace_csv.py:154-165 | emitted entries are complete and the head of the queue is not |
| `TraceLog.ParseKeepsInv` | RISC-V-Veer-EL2/tools/riscv-dv/veer_log_to_trace_csv.py:48-174 | every prefix of every log keeps the parser's invariant |
| `TraceLog.EveryWriteOnce` | RISC-V-Veer-EL2/tools/riscv-dv/veer_log_to_trace_csv.py:48-174 | for every log: order of first appearance, every register write in exactly one entry exactly once, no instruction in two entries, entries agree with their lines in address, encoding, text and CSR, emitted entries complete, queue head incomplete, fewer than 1000 entries queued |
| `TraceLog.WritesReported` | RISC-V-Veer-EL2/tools/riscv-dv/veer_log_to_trace_csv.py:59-64 | the writes of a log are exactly what its lines report, at most one per line |
| `TraceLog.Failures` | RISC-V-Veer-EL2/tools/riscv-dv/veer_log_to_trace_csv.py:80-172 | what makes parsing fail, and nothing else |
| `TraceLog.LineOnlyAdds` | RISC-V-Veer-EL2/tools/riscv-dv/veer_log_to_trace_csv.py:104-144 | an address once set stays, and so do writes |
| `TraceFair.LineKeepsFair` | RISC-V-Veer-EL2/tools/riscv-dv/veer_log_to_trace_csv.py:51-165 | a line that keeps the discipline and sends no write astray keeps every write with its instruction |
| `TraceFair.EmittedEntriesHoldTheirOwn` | RISC-V-Veer-EL2/tools/riscv-dv/veer_log_to_trace_csv.py:48-174 | in a log that keeps the discipline and sends no write astray every emitted entry holds exactly one write, its own |
| `TraceFair.HoldTheirOwnExactly` | RISC-V-Veer-EL2/tools/riscv-dv/veer_log_to_trace_csv.py:48-174 | for every log in which each delayed instruction gets its write before the next one of its kind and register, and which does not fail: all entries hold exactly their own writes if and only if no write comes before its instruction while an earlier instruction of its kind and register is behind an open entry, all read off the log |
| `TraceFair.QueuedIsHeldBack` | RISC-V-Veer-EL2/tools/riscv-dv/veer_log_to_trace_csv.py:132-144 | an instruction found in the queue is one that the log says is held back |
| `TraceFair.HeldBackIsQueued` | RISC-V-Veer-EL2/tools/riscv-dv/veer_log_to_trace_csv.py:154-165 | an instruction that the log says is held back is found in the queue |
| `TraceFair.AstrayDoubles` | RISC-V-Veer-EL2/tools/riscv-dv/veer_log_to_trace_csv.py:132-144 | a write that goes astray lands in an entry that has one already |
| `TraceFair.EarlyWriteMisfiled` | RISC-V-Veer-EL2/tools/riscv-dv/veer_log_to_trace_csv.py:132-152 | a log on which a write that comes before its instruction ends up in an earlier entry |
| `TraceFair.MisfiledIsNatural` | RISC-V-Veer-EL2/tools/riscv-dv/veer_log_to_trace_csv.py:132-152 | that log keeps the discipline, and its second write goes astray |
| `CodeFixup.Following` | RISC-V-Veer-EL2/tools/riscv-dv/code_fixup.py:84-90 | the next two instructions, skipping lines without one |
| `CodeFixup.Insertion` | RISC-V-Veer-EL2/tools/riscv-dv/code_fixup.py:75-102 | what is inserted behind a line |
| `CodeFixup.PaddingExactly` | RISC-V-Veer-EL2/tools/riscv-dv/code_fixup.py:79-102 | something is inserted exactly behind a delayed write that clashes with one of the next two instructions: ten NOPs for the first, nine for the second |
| `CodeFixup.DelayedMnemonics` | RISC-V-Veer-EL2/tools/riscv-dv/code_fixup.py:42-43 | which instructions are delayed writes |
| `CodeFixup.Fixup` | RISC-V-Veer-EL2/tools/riscv-dv/code_fixup.py:70-102 | the output is every line followed by its insertion |
| `CodeFixup.FixupKeepsLines` | RISC-V-Veer-EL2/tools/riscv-dv/code_fixup.py:70-102 | removing the inserted lines gives the input back line by line |
| `CodeFixup.FixupPreservesMeaning` | RISC-V-Veer-EL2/tools/riscv-dv/code_fixup.py:70-102 | for every program, jumps to any line included, and any semantics in which NOPs and comments do nothing: the output ends in a state if and only if the input does |
| `CodeFixup.RunSimulated` | RISC-V-Veer-EL2/tools/riscv-dv/code_fixup.py:70-102 | any number of steps of the input is at least as many steps of the output, to the copy of the line reached |
| `CodeFixup.GapInOutput` | RISC-V-Veer-EL2/tools/riscv-dv/code_fixup.py:70-102 | where the lines between two instructions stand in the output |
| `CodeFixup.KeptApart` | RISC-V-Veer-EL2/tools/riscv-dv/code_fixup.py:79-102 | a load or division is at least ten instruction slots away from each of the next two instructions that targets its register |
| `RingBuffer.FullTestIsExact` | RISC-V-Veer-EL2/testbench/tcp_server/tcp_server.c:50-56 | the two-branch test equals (wptr - rptr) mod 1024 = 1023, even when rptr has moved between its two reads |
| `RingBuffer.EmptyTestIsExact` | RISC-V-Veer-EL2/testbench/tcp_server/tcp_server.c:58-60 | equal indices exactly when nothing is in the buffer |
| `RingBuffer.StepKeepsInv` | RISC-V-Veer-EL2/testbench/tcp_server/tcp_server.c:50-80 | every step of either thread keeps the protocol's invariant |
| `RingBuffer.RunKeepsInv` | RISC-V-Veer-EL2/testbench/tcp_server/tcp_server.c:50-80 | so does every interleaving |
| `RingBuffer.FirstInFirstOut` | RISC-V-Veer-EL2/testbench/tcp_server/tcp_server.c:50-80 | for every interleaving the bytes got are a prefix of the bytes put, in order, with at most 1023 on their way, all intact in the buffer |
| `RingBuffer.StepOffers` | RISC-V-Veer-EL2/testbench/tcp_server/tcp_server.c:62-71 | put_byte appends exactly the byte it was given |
| `RingBuffer.TcpBuf.constructor` | RISC-V-Veer-EL2/testbench/tcp_server/tcp_server.c:82-85 | an empty buffer |
| `RingBuffer.TcpBuf.IsFull` | RISC-V-Veer-EL2/testbench/tcp_server/tcp_server.c:50-56 | full exactly when 1023 bytes wait |
| `RingBuffer.TcpBuf.IsEmpty` | RISC-V-Veer-EL2/testbench/tcp_server/tcp_server.c:58-60 | empty exactly when no byte waits |
| `RingBuffer.TcpBuf.PutByte` | RISC-V-Veer-EL2/testbench/tcp_server/tcp_server.c:62-71 | appends the byte |
| `RingBuffer.TcpBuf.GetByte` | RISC-V-Veer-EL2/testbench/tcp_server/tcp_server.c:73-80 | takes the oldest byte, or reports that there is none |
| `JtagDpi.JtagDpiCtx.constructor` | RISC-V-Veer-EL2/testbench/jtagdpi/jtagdpi.c:43-58 | the "dongle unplugged" signals |
| `JtagDpi.JtagDpiCtx.Decode` | RISC-V-Veer-EL2/testbench/jtagdpi/jtagdpi.c:82-120 | the decoder drives the pins as the protocol says and answers only reads |
| `JtagDpi.DriveMeans` | RISC-V-Veer-EL2/testbench/jtagdpi/jtagdpi.c:82-93 | a write command is the number of its three pins, a reset command that of its two lines, and no other touches a pin |
| `JtagDpi.CommandLetters` | RISC-V-Veer-EL2/testbench/jtagdpi/jtagdpi.c:83-115 | the letters of the protocol and of its replies |
| `JtagDpi.MoveKeepsInv` | RISC-V-Veer-EL2/testbench/jtagdpi/jtagdpi.c:63-121 | every step of either thread, through both buffers, keeps pins and replies in line with the commands taken |
| `JtagDpi.EndToEnd` | RISC-V-Veer-EL2/testbench/jtagdpi/jtagdpi.c:186-210 | for every interleaving: commands taken are a prefix of the bytes received from the client during the run, pins are the decoder folded over them, and replies are the TDO levels at the read commands, in order |
| `JtagDpi.RunOffers` | RISC-V-Veer-EL2/testbench/tcp_server/tcp_server.c:359-364 | during any run put_byte is given exactly the bytes received, in order |
| `SocketLoop.LoopIsSchedule` | RISC-V-Veer-EL2/testbench/tcp_server/tcp_server.c:329-371 | every run of the socket loop is one of the interleavings, so their results hold for it |
| `SocketLoop.RunKeepsInv` | RISC-V-Veer-EL2/testbench/tcp_server/tcp_server.c:329-371 | every run of the loop keeps the invariant of both rings and of its own position |
| `SocketLoop.FlightKept` | RISC-V-Veer-EL2/testbench/tcp_server/tcp_server.c:359-370 | only the client adds to the bytes on their way, and nothing moves without one |
| `SocketLoop.DeadlockForEver` | RISC-V-Veer-EL2/testbench/tcp_server/tcp_server.c:359-370 | with both buffers full and both threads in put_byte no byte ever moves again |
| `SocketLoop.WayOn` | RISC-V-Veer-EL2/testbench/tcp_server/tcp_server.c:329-371 | with a byte on its way and no deadlock, some steps of the two threads move one |
| `SocketLoop.MovesExactly` | RISC-V-Veer-EL2/testbench/tcp_server/tcp_server.c:25-26 | in every reachable state before an exit the threads can move a byte on their own if and only if one is on its way and they are not deadlocked |
| `SocketLoop.DeadlockIsReachable` | RISC-V-Veer-EL2/testbench/tcp_server/tcp_server.c:359-370 | 2048 read commands sent at once can lead into the deadlock |
| `SocketLoop.WindowIsSafe` | RISC-V-Veer-EL2/testbench/tcp_server/tcp_server.c:25-26 | a client that keeps at most 2047 bytes on their way never meets the deadlock, and there is always a way on |
| `AxiBytes.CollectBytes` | RISC-V-Veer-EL2/verification/block/common/utils.py:35-51 | the strobed byte lanes, lowest first |
| `AxiBytes.LanesRebuild` | RISC-V-Veer-EL2/verification/block/common/utils.py:46-49 | the byte lanes make up the data word again |
| `AxiBytes.StrobesRebuild` | RISC-V-Veer-EL2/verification/block/common/utils.py:47-47 | the strobe bits make up the strobe word again |
| `AxiBytes.Pack` | RISC-V-Veer-EL2/verification/block/dma/testbench.py:447-455 | the data word and the strobes of a beat |
| `AxiBytes.PackCollect` | RISC-V-Veer-EL2/verification/block/dma/testbench.py:447-455 | collecting what was packed gives the bytes back on every bus that is wide enough |
| `AxiBytes.SendBeats` | RISC-V-Veer-EL2/verification/block/dma/testbench.py:436-461 | the beats of a payload of any length, packed, in order |
| `AxiBytes.BeatsCover` | RISC-V-Veer-EL2/verification/block/dma/testbench.py:440-445 | the beats together are the payload, and the last one is its last beat |
| `AxiBytes.LastBeatIsAll` | RISC-V-Veer-EL2/verification/block/dma/testbench.py:440-445 | the last beat is the whole payload if and only if that fits on the bus |
| `AxiWrite.Axi4LiteMonitor.constructor` | RISC-V-Veer-EL2/verification/block/common/axi.py:88-89 | nothing open and no id seen |
| `AxiWrite.Axi4LiteMonitor.WatchWrite` | RISC-V-Veer-EL2/verification/block/common/axi.py:92-130 | one clock of the monitor, with address, data and response of each reported write |
| `AxiWrite.MonitorComplains` | RISC-V-Veer-EL2/verification/block/common/axi.py:101-124 | exactly what the monitor reports as an error |
| `AxiWrite.FindFree` | RISC-V-Veer-EL2/verification/block/dma/testbench.py:414-419 | the lowest id that is not pending |
| `AxiWrite.ClockKeepsInv` | RISC-V-Veer-EL2/verification/block/dma/testbench.py:405-489 | every clock edge keeps driver, bus, subordinate and monitor consistent, for payloads of any length |
| `AxiWrite.IdsAreNotReused` | RISC-V-Veer-EL2/verification/block/dma/testbench.py:410-426 | no pending id is allocated again, and no pending transfer changes |
| `AxiWrite.RequestIssued` | RISC-V-Veer-EL2/verification/block/dma/testbench.py:410-431 | an idle driver issues a request under the lowest free id, whatever else is pending, and issues nothing if there is none |
| `AxiWrite.DataStarts` | RISC-V-Veer-EL2/verification/block/dma/testbench.py:433-445 | behind its address a write sends its payload from the first byte |
| `AxiWrite.AllBeatsSent` | RISC-V-Veer-EL2/verification/block/dma/testbench.py:437-461 | exactly the beats of the payload are accepted, in order |
| `AxiWrite.TwoPending` | RISC-V-Veer-EL2/verification/block/dma/testbench.py:405-426 | a run with two writes pending at once |
| `AxiWrite.MonitorSeesEveryWrite` | RISC-V-Veer-EL2/verification/block/common/axi.py:84-130 | for every schedule of writes of any length: no monitor error, open ids pending in the driver, every item one issued write with its last beat as data, none twice, none missing; the item is the issued write if and only if its payload fits on the bus |
| `AxiWrite.FirstBeatLost` | RISC-V-Veer-EL2/verification/block/common/axi.py:109-116 | a run with two bytes on a bus with one lane, of which only the second is reported |

## Left out

- JtagTap.JTAGPredictor.UpdateNstate: the `trst_n` arm is not modelled; it is overwritten by the branches below it.
- JtagTap.JTAGPredictor.PredictRegsPosedge: the resets for `trst_n` low are not modelled, because all runs have it high.
- RingBuffer.TcpBuf.PutByte: one thread alone would wait for ever in a full buffer, so the method asks for room; the waiting is part of the interleaved steps.
- Printf.PrintDecimal: the smallest int is left out, because negating it overflows.
- Printf.PrintInt: the smallest int in base 10 is left out for the same reason.
- Printf.DecimalRoundTrip: only padding with '0' can be parsed back.
- ListSort.Mergesort: the loop bodies of the C function are methods of their own, and a comparator is a selector with a function on items, so comparators with other side effects than those two are not covered.
- ListBench.BenchList: the low data byte searched for when no search took place is uninitialised in C; it is the parameter `data0`.
- Matrix.MatrixTest: `core_bench_matrix`, which only feeds its result to the checksum once more, is not modelled.
- Matrix.InitMatrix: 32-bit overflow of i*i*8 for blocks near 4 GiB is not modelled.
- Matrix.MulMatrix: the two multiplications of the source are one method with a mode for the term.
- StateBench.BenchState: asks for a NUL in front of each scan, as the scans do; what they would read behind the memory is not modelled.
- TraceLog.ParseLog: entries are values with the number of the line that made them, not shared objects; the regular expressions, the mode field and the printing are not modelled.
- CodeFixup.Fixup: lines are given parsed; the regular expression and the label and comment stripping are not modelled.
- AxiWrite.ClockKeepsInv: driver and handler are functions of one clock edge rather than coroutines; the busy timeout and awsize are not modelled.
- JtagDpi.EndToEnd: closing the client on 'Q' and the sockets themselves are not modelled.
- SocketLoop.MovesExactly: connecting and disconnecting clients, the timeout of `select` and a socket that refuses a reply are not modelled.
- `watch_read` of the bus monitor and the read side of the driver, which have no ids to allocate.
- `CaptureDRSequence`, whose scan is an instance of `JtagRuns.ScanOut`.
- Sockets, thread creation and shutdown; the cocotb and pyuvm framework; timing, seeds, `main` and inline assembly of CoreMark.
- The scoreboards of the other blocks, the generators and setup scripts, and the simulator-generated C code, which would only add easy members.
