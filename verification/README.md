# OS/161: a verified model of the kernel's arithmetic, heap, synchronisation and tables

This project models the parts of an OS/161 kernel whose correctness rests on an argument rather than on
reading one function, and proves the argument for every input, every run or every reachable state.

- **64-bit arithmetic on 32-bit words** (`Words`, `Digits`, `Nonlinear`, `Qdivrem`, `SignedDivision`,
  `Muldi3`). Division is Knuth's Program D (volume 2, section 4.3.1) run in place on arrays of base-2^16
  digits; multiplication is two levels of Karatsuba. Wrap-around, masks and the bitwise or are written
  out. The specification is a line of integer arithmetic.
- **The kernel heap** (`KmallocState`, `KmallocFacts`, `KmallocSteps`, `KmallocLemmas`, `Kmalloc`). Memory
  is an array of words with the free lists threaded through it; the page descriptors, their bitmap and the
  two linked lists are fields of the class `KHeap`. Every locked section of kmalloc.c is a method. Whenever
  the lock is free, other threads run any sequence of those same sections, page allocator calls and stores
  into their own memory; each is proved to leave alone what a thread that is not running holds.
- **Protocols as step systems** (`Shootdown`, `Semaphores`, `LocksAndCvs`, `ContextSwitch`, `Migration` with
  `MigrationRuns`, `ProcLife` with `ProcRuns`). A state, the steps that are atomic in the source, and
  theorems about every run: what holds in every state, what each step does to the whole system, and that
  whoever is not waiting for somebody else can go on. `LoadBalancing` and `ProcTable` are the corresponding
  imperative code, with its loops, proved to take those steps.
- **Tables and lists** (`LinkedList`, `Chains`, `ThreadList`, `Hashtable`, `IntKeys`, `PidTree`, `Bitmaps`,
  `PageRange`, `BinaryHeap`), each against a simple thing: a sequence, a finite map, a set of bits, a
  multiset. The hash table stands on arrays of real linked lists. `Collections` holds what several modules
  share.
- **printf and atoi** (`Numerals`, `Atoi`, `PrintfText`, `PrintfMeaning`, `Printf`, `PrintThenRead`). The text
  a format calls for, what that is for each kind of directive, the code that produces and stores it, and
  the round trip through atoi.

Where a natural property turned out to be false of the code, the model keeps the code and proves exactly
when the property holds:

- kmalloc rounds a size up to pages in 32-bit arithmetic; above 2^32 - 4096 bytes it asks for no page
  (`KmallocLemmas.PagesHoldRequest`), and gets one that nothing then accounts for (`Kmalloc.KHeap.Kmalloc`).
- freepageref asserts that a root it passes without a page has no descriptor in use. kfree fails that
  assertion exactly when it frees the last block of a page and some root before that page's descriptor has
  no page (`Kmalloc.KHeap.Kfree`). All 256 descriptors of such a root are in use and none has a page
  (`KmallocLemmas.PagelessRootIsFull`), because an allocation that is refused a descriptor page keeps its
  bit; nobody need be waiting. `Kmalloc.ReachTheAssertion` gets there from an empty heap.
- proc_remlist drops the only element of a list even when it is not the one asked for
  (`ProcLife.RemlistKeepsOthers`). Its callers never ask that.
- The test before shrinking a hash table is true of every table that is not empty, not only of sparse
  ones (`Hashtable.ShrinkTestMeaning`); the map is the same either way.
- The eight pids of a block differ exactly when the ends of its range are eight or more apart, which is
  nine ids, not eight (`PidTree.SlotsDifferIff`, `PidTree.NarrowBlockRepeats`). Narrower blocks are still
  good for one process each: the pids of a run are all different exactly when it makes at most 8775
  allocations, and the next one gets a pid that is taken (`PidTree.PidsAreDistinctIff`).
- locate_range's end-of-memory test is exact unless the sum wraps (`PageRange.EndTestExactIff`). A request
  for nearly 2^32 pages then sends the search past the bitmap's bytes exactly when every page from which
  the sum does not wrap is in use, the last page is clear and no padding follows it
  (`PageRange.Coremap.LocateRange`).
- The key of a negative int is also the key of a non-negative one exactly when the int is above -2^28
  (`IntKeys.CollidesIff`): -1 and 127 share a key (`IntKeys.MinusOne`).
- %d with both the `-` and the `0` flag pads zeros on the right, so it reads back only for 0
  (`PrintThenRead.PrintedIntReadsBack`); 7 printed with %-05d is 70000 (`PrintThenRead.ZerosBehindSeven`).

Sizes and constants are the source's: PAGE_SIZE 4096, block sizes 16 to 2048, PID_DIR_SIZE 8, PID_MIN 2,
PID_MAX 32767, NUMBER_BUF_SIZE 23. What the page allocator, the clock, interrupts and the argument list
decide comes in as a parameter or as a choice of step.

## Model

| member | source | states |
|---|---|---|
| Words.OrDisjoint | common/gcc-millicode/qdivrem.c:45-48 | the bitwise or of a number shifted left k bits and one below 2^k is their sum |
| Words.CombineIsPair | common/gcc-millicode/qdivrem.c:45-48 | COMBINE of two half-words is the word they make up |
| Digits.FourDigits | common/gcc-millicode/qdivrem.c:112-122 | the four digits taken from a 64-bit number stand for it |
| Qdivrem.CutDigit | common/gcc-millicode/qdivrem.c:270-279 | what leaves a digit at the top under a shift and what stays, and that the stay has room for the next digit's carry |
| Qdivrem.Shl | common/gcc-millicode/qdivrem.c:270-279 | the in-place shift makes each digit its own low part plus its neighbour's high part, and touches nothing outside |
| Qdivrem.ShiftedValue | common/gcc-millicode/qdivrem.c:270-279 | a digit string shifted that way stands for 2^sh times the number, less what left at the front |
| Qdivrem.TooBig | common/gcc-millicode/qdivrem.c:182-210 | a digit refused by the two-digit test is larger than the true quotient digit |
| Qdivrem.AtMostOneMore | common/gcc-millicode/qdivrem.c:182-210 | with a normalised divisor, a digit that passes the test is at most one more than the true digit |
| Qdivrem.TrialDigitBracket | common/gcc-millicode/qdivrem.c:182-210 | the corrected qhat is the true digit or exactly one more |
| Qdivrem.ProductFits | common/gcc-millicode/qdivrem.c:182-223 | no product of a digit and qhat exceeds an unsigned int |
| Qdivrem.ExceedsIsExact | common/gcc-millicode/qdivrem.c:182-210 | the comparison made on 32-bit words is the comparison of the integers |
| Qdivrem.StopIsSafe | common/gcc-millicode/qdivrem.c:182-210 | once rhat reaches 2^16 the test cannot succeed any more |
| Qdivrem.TrialDigit | common/gcc-millicode/qdivrem.c:182-210 | the estimate-and-correct code returns a digit that meets the bracket's conditions |
| Qdivrem.SubPlace | common/gcc-millicode/qdivrem.c:217-223 | one place of multiply-and-subtract in wrap-around arithmetic leaves the right digit and borrow |
| Qdivrem.MulSub | common/gcc-millicode/qdivrem.c:217-223 | the loop subtracts qhat times the divisor, up to one borrow at the front |
| Qdivrem.SubTop | common/gcc-millicode/qdivrem.c:222-230 | the leading place of the subtraction and its borrow |
| Qdivrem.BorrowIsExact | common/gcc-millicode/qdivrem.c:230-230 | the HHALF test is true exactly when qhat was one too big |
| Qdivrem.AddBack | common/gcc-millicode/qdivrem.c:230-238 | the add-back loop adds the divisor once, up to one carry |
| Qdivrem.CarryIsOne | common/gcc-millicode/qdivrem.c:230-238 | after add-back the carry cancels the borrow, so one add-back is enough |
| Qdivrem.QuotientDigit | common/gcc-millicode/qdivrem.c:182-239 | one turn of the digit loop replaces the window by its remainder, yields its quotient digit and leaves u[j] zero |
| Qdivrem.WindowReplaced | common/gcc-millicode/qdivrem.c:176-240 | changing one window changes the whole number by that digit's share of the divisor |
| Qdivrem.DivideOnce | common/gcc-millicode/qdivrem.c:176-240 | one turn of the loop keeps quotient times divisor plus remainder equal to the dividend |
| Qdivrem.ProgramD | common/gcc-millicode/qdivrem.c:176-240 | the whole loop gives quotient digits and a remainder below the divisor that add up to the dividend |
| Qdivrem.Normaliser | common/gcc-millicode/qdivrem.c:169-171 | the loop finds the shift that brings the leading digit to at least 2^15 and still into a digit |
| Qdivrem.Normalise | common/gcc-millicode/qdivrem.c:169-175 | dividend and divisor are both multiplied by the same power of two and the first window is below the divisor |
| Qdivrem.UnshiftedValue | common/gcc-millicode/qdivrem.c:247-254 | shifting digits right divides the number by 2^d, up to the bits that fall off |
| Qdivrem.ShiftBack | common/gcc-millicode/qdivrem.c:247-254 | the remainder is shifted back to the true remainder |
| Qdivrem.ShortPlace | common/gcc-millicode/qdivrem.c:124-149 | one place of division by a single digit |
| Qdivrem.ShortDivide | common/gcc-millicode/qdivrem.c:124-149 | four places by a single digit: quotient times divisor plus remainder is the dividend, remainder below divisor |
| Qdivrem.Load | common/gcc-millicode/qdivrem.c:112-122 | the digit array holds the number |
| Qdivrem.CountPlaces | common/gcc-millicode/qdivrem.c:157-158 | the loop counts the dividend's places beyond the divisor's and stops at a non-zero digit |
| Qdivrem.ZeroDigits | common/gcc-millicode/qdivrem.c:159-161 | the unused quotient digits are zero |
| Qdivrem.LongDivide | common/gcc-millicode/qdivrem.c:157-262 | the many-digit path from normalisation to the stored remainder |
| Qdivrem.Qdivrem | common/gcc-millicode/qdivrem.c:67-263 | for every u and v: a trap exactly when v is 0; otherwise u == q * v + r with r < v |
| SignedDivision.TruncRemMeaning | common/gcc-millicode/moddi3.c:45-62 | the remainder is smaller than the divisor and never has the sign opposite to the dividend |
| SignedDivision.TruncUnique | common/gcc-millicode/divdi3.c:44-62 | only truncated division meets the conditions of section 6.5.5 of ISO/IEC 9899:1999 |
| SignedDivision.Divdi3 | common/gcc-millicode/divdi3.c:44-62 | the truncated quotient for all inputs, wrapping only for the most negative number over -1 |
| SignedDivision.Moddi3 | common/gcc-millicode/moddi3.c:45-62 | the matching remainder for all inputs |
| Muldi3.HalvesProduct | common/gcc-millicode/muldi3.c:183-241 | a product of two-half numbers as Karatsuba's three products |
| Muldi3.Middle | common/gcc-millicode/muldi3.c:183-241 | the signed middle product is the product of the differences |
| Muldi3.AddShifted | common/gcc-millicode/muldi3.c:183-241 | adding a half-word shifted up, with the carry taken by hand |
| Muldi3.SubShifted | common/gcc-millicode/muldi3.c:183-241 | subtracting a half-word shifted up, with the borrow taken by hand |
| Muldi3.Differences | common/gcc-millicode/muldi3.c:183-241 | the absolute differences of the halves and the sign of their product |
| Muldi3.Lmulq | common/gcc-millicode/muldi3.c:183-241 | the exact 64-bit product of any two 32-bit words; every transient borrow and carry cancels |
| Muldi3.KaratsubaSum | common/gcc-millicode/muldi3.c:183-241 | the shifted terms the code adds and subtracts sum to the product |
| Muldi3.UnsignedProduct | common/gcc-millicode/muldi3.c:99-164 | the product of two magnitudes modulo 2^64, on both the short and the long path |
| Muldi3.Muldi3 | common/gcc-millicode/muldi3.c:99-164 | for every pair of 64-bit numbers, their product modulo 2^64 |
| Kmalloc.Blocktype | kern/vm/kmalloc.c:851-867 | the smallest block size that holds the request, a panic exactly above the largest |
| KmallocFacts.FullFreeList | kern/vm/kmalloc.c:1101-1147 | distinct aligned offsets number at most the page's blocks, and exactly that many only when every block is among them |
| KmallocFacts.BlockInPage | kern/vm/kmalloc.c:873-1018 | a live block is aligned within its page and at least as large as asked |
| KmallocFacts.LiveDisjoint | kern/vm/kmalloc.c:873-1018 | any two live blocks are disjoint over their whole block size; each is 16-byte aligned and holds its request |
| KmallocFacts.AllocationsDisjoint | kern/vm/kmalloc.c:873-1219 | any two live allocations, blocks or runs of pages in any mixture, are disjoint over their whole extent and 16-byte aligned; no address is both |
| KmallocFacts.FreeWordIsNotClients | kern/vm/kmalloc.c:922-953 | no free-list word lies in a live block or a whole-page allocation |
| KmallocFacts.ClientWordFrame | kern/vm/kmalloc.c:873-1219 | no word a client owns lies in a descriptor page |
| KmallocFacts.ClientWriteIsHarmless | kern/vm/kmalloc.c:922-953 | any write inside a live block leaves every free list and the whole invariant as they were |
| KmallocSteps.TakeKeeps | kern/vm/kmalloc.c:922-953 | taking a page's first free block keeps the invariant and hands out a block that was not live |
| KmallocSteps.GiveKeeps | kern/vm/kmalloc.c:1101-1134 | putting a live block back on its page's free list keeps the invariant |
| KmallocSteps.AddKeeps | kern/vm/kmalloc.c:980-1018 | adding a page with a full free list to both lists keeps the invariant |
| KmallocSteps.DropKeeps | kern/vm/kmalloc.c:1137-1144 | removing an all-free page from both lists and releasing its descriptor keeps the invariant |
| KmallocSteps.CountsKept | kern/vm/kmalloc.c:256-337 | numinuse stays the number of set bits of its root when one bit changes |
| KmallocSteps.ReserveKeeps | kern/vm/kmalloc.c:256-298 | reserving a clear descriptor bit with every earlier root full keeps the invariant, including that a root without a page below a used descriptor is full |
| KmallocSteps.FullBelowKept | kern/vm/kmalloc.c:218-337 | no other section undoes that part of the invariant |
| KmallocSteps.InstallKeeps | kern/vm/kmalloc.c:218-252 | installing a descriptor page keeps the invariant |
| KmallocSteps.LinkedUnlink | kern/vm/kmalloc.c:822-845 | unlinking the k-th element leaves a linked list of the others |
| KmallocSteps.FramesKeep | kern/vm/kmalloc.c:1165-1219 | pages in transit come and go without disturbing the heap |
| KmallocSteps.WholeAddKeeps | kern/vm/kmalloc.c:1180-1195 | a whole-page allocation overlaps nothing the heap holds |
| KmallocSteps.WholeFreeKeeps | kern/vm/kmalloc.c:1207-1219 | giving a whole-page allocation back keeps the invariant |
| Kmalloc.UnlinkFrom | kern/vm/kmalloc.c:822-845 | the loop of remove_lists unlinks exactly the descriptor asked for |
| Kmalloc.KHeap.constructor | kern/vm/kmalloc.c:140-215 | an empty heap in order |
| Kmalloc.KHeap.TakeBlock | kern/vm/kmalloc.c:922-953 | the in-band code hands out the head of the free list and stores the rest |
| Kmalloc.KHeap.PageWithRoom | kern/vm/kmalloc.c:905-920 | the walk along the pages of a size finds one with room, or that none has any |
| Kmalloc.KHeap.TrySubpage | kern/vm/kmalloc.c:905-955 | finds room exactly if any page of the size has some, and otherwise changes nothing |
| Kmalloc.KHeap.FirstClear | kern/vm/kmalloc.c:256-298 | the bitmap scan finds the first clear descriptor bit |
| Kmalloc.KHeap.Reserve | kern/vm/kmalloc.c:256-298 | sets exactly the first clear bit and counts it, or reports that all are in use |
| Kmalloc.KHeap.InstallRefPage | kern/vm/kmalloc.c:218-252 | installs the page exactly if no other thread got there first |
| Kmalloc.KHeap.FetchRefPage | kern/vm/kmalloc.c:218-252 | spares what this and every idle thread holds, whoever runs while the lock is dropped; undisturbed, the root gets its page exactly when the page allocator grants one |
| Kmalloc.KHeap.OfferRefPage | kern/vm/kmalloc.c:231-252 | the page is installed, or given back when another thread was first; undisturbed, nothing but that changes |
| Kmalloc.KHeap.AllocPageRef | kern/vm/kmalloc.c:256-298 | fails at once exactly when every descriptor is in use; otherwise reserves the first clear one and grants it exactly when its root ends up with a page, which undisturbed is when it had one or is granted one; a refused call keeps its bit |
| Kmalloc.KHeap.BuildFreeList | kern/vm/kmalloc.c:992-1008 | the loop chains every block of the page, last to first |
| Kmalloc.KHeap.FinishPage | kern/vm/kmalloc.c:980-1018 | the new page joins both lists and its first block is handed out |
| Kmalloc.KHeap.FillDeadbeef | kern/vm/kmalloc.c:43-53 | only words of the block being freed are overwritten |
| Kmalloc.KHeap.FindPage | kern/vm/kmalloc.c:1068-1086 | the walk along all pages finds the heap page that contains the pointer, or finds that none does |
| Kmalloc.KHeap.GiveBlock | kern/vm/kmalloc.c:1101-1134 | the freed block becomes the head of its page's list |
| Kmalloc.KHeap.FreePageRef | kern/vm/kmalloc.c:303-337 | clears exactly the descriptor's bit and counts it off; stops exactly when an earlier root has no page |
| Kmalloc.KHeap.DropPage | kern/vm/kmalloc.c:1137-1144 | takes the page off both lists and frees its descriptor, or stops exactly when an earlier root has no page |
| Kmalloc.KHeap.SubpageKfree | kern/vm/kmalloc.c:1024-1156 | routes a live pointer home; the page it lies in, and no other, is given back exactly when its last live block is freed, and the kernel stops exactly when besides an earlier root has no page; no word outside the block changes for a client |
| Kmalloc.KHeap.ReturnPage | kern/vm/kmalloc.c:1137-1144 | the page of a last block goes back to the page allocator; undisturbed, that and nothing else changes |
| KmallocLemmas.RunIsAll | kern/vm/kmalloc.c:1207-1219 | the frames that name an allocation as theirs are exactly the frames of its run |
| Kmalloc.KHeap.FreeRun | kern/vm/kmalloc.c:1207-1219 | freeing a run of pages gives exactly its frames back to the page allocator |
| KmallocLemmas.RoutedHome | kern/vm/kmalloc.c:1068-1101 | a pointer from kmalloc that is on a heap page is a live block of that very page, never a whole-page allocation |
| KmallocLemmas.NotOnAnyPage | kern/vm/kmalloc.c:1068-1086 | a pointer on no heap page is to no live block, so it goes to the page allocator |
| KmallocLemmas.EmptyPage | kern/vm/kmalloc.c:1137-1147 | nfree reaches the number of blocks exactly when no block of the page is live |
| KmallocLemmas.PagelessRootIsFull | kern/vm/kmalloc.c:256-337 | a root without a page before a descriptor in use counts 256 in use, and all 256 are reserved without a page |
| Kmalloc.ReachTheAssertion | kern/vm/kmalloc.c:303-337 | from an empty heap, 256 allocations refused a descriptor page, one served and that one freed stop the kernel with no other thread about |
| Kmalloc.KHeap.OtherSection | kern/vm/kmalloc.c:218-1156 | every locked section run by another thread spares the descriptors, pages in transit and allocations, with their contents, that this thread holds |
| Kmalloc.KHeap.OutsideSection | kern/vm/kmalloc.c:1165-1219 | so does every page allocator call and every client store of another thread |
| Kmalloc.KHeap.OthersRun | kern/vm/kmalloc.c:218-1219 | so does any sequence of them |
| Kmalloc.KHeap.DescribePage | kern/vm/kmalloc.c:966-1018 | with a page in hand: a fresh block, or the page given back; undisturbed, a block exactly when a descriptor can be had |
| Kmalloc.KHeap.KmallocFromNewPage | kern/vm/kmalloc.c:957-1018 | a fresh block from a new page, or nothing and the page given back, whatever other threads do; undisturbed, a block exactly when both a page and a descriptor can be had, and a refusal leaves only the reserved bit |
| Kmalloc.KHeap.SubpageKmalloc | kern/vm/kmalloc.c:873-1018 | a fresh block whatever other threads do; the head of a free list if any page of the size had room, and otherwise undisturbed a block exactly when a page and a descriptor can be had |
| KmallocLemmas.PagesHoldRequest | kern/vm/kmalloc.c:1180-1195 | the page count holds the request exactly up to 2^32 - 4096 bytes |
| Kmalloc.KHeap.Kmalloc | kern/vm/kmalloc.c:1165-1202 | what it returns, block or run of pages, is new, 16-byte aligned, large enough up to 2^32 - 4096 bytes and disjoint from every other allocation, and the caller's other allocations keep their contents; undisturbed, exactly when it returns nothing and what a refusal leaves behind |
| Kmalloc.KHeap.Kfree | kern/vm/kmalloc.c:1207-1219 | takes exactly the block or run out of the live ones and leaves the caller's others and their contents alone; gives back the whole run, or the page whose last live block this was, or nothing, and undisturbed exactly those pages; stops exactly when the block is the last of its page and an earlier root has no page |
| Kmalloc.KHeap.ClientStore | kern/vm/kmalloc.c:873-1219 | a client's store changes its word and nothing the heap relies on |
| Shootdown.OwedUpdate | kern/thread/thread.c:1364-1382 | the count of signals still owed changes by one CPU's share |
| Shootdown.BalancedKept | kern/thread/thread.c:1239-1382 | signals collected, waiting and owed always add up to the requests sent |
| Shootdown.AnsweredKept | kern/thread/thread.c:1273-1319 | every CPU sent to has worked the address off or still owes it |
| Shootdown.StepKeeps | kern/thread/thread.c:1239-1382 | every step of every interleaving keeps the invariant |
| Shootdown.RunKeepsInv | kern/thread/thread.c:1239-1382 | the invariant holds in every state of every run |
| Shootdown.RoundIsComplete | kern/thread/thread.c:1364-1382 | when vm_tlbshootdown_all returns, every CPU has processed the address since the call began and the semaphore is zero |
| Shootdown.QuietBetweenRounds | kern/thread/thread.c:1364-1382 | between rounds the semaphore is zero and every queue empty |
| Shootdown.SendFindsRoom | kern/thread/thread.c:1239-1267 | no CPU's queue ever holds a request when the next is sent |
| Shootdown.RoundCannotStall | kern/thread/thread.c:1273-1382 | from admission to return a round always has a step its caller or some CPU can take, and each leaves less of it to do |
| Shootdown.SignalsAreOwed | kern/thread/thread.c:1273-1382 | a caller waiting for a signal has one to collect, or a CPU that owes one can take the next step towards it |
| Shootdown.RoundEnds | kern/thread/thread.c:1364-1382 | a stretch of steps of one round is no longer than what was left of it |
| Shootdown.StepsDoTheirWork | kern/thread/thread.c:1239-1382 | on every run each step of a caller or a CPU does one thing to the round and nothing else: a request queued on an empty queue, one address worked off, one V for a pending shootdown and none otherwise, all bits cleared |
| Shootdown.NobodyIsStuck | kern/thread/thread.c:1239-1382 | anybody may ask, is admitted exactly when no round is in progress, and a CPU takes an interrupt exactly when a bit is pending |
| Semaphores.StepKeeps | kern/thread/synch.c:88-135 | every P, V and wake-up keeps count == initial + V's - completed P's and the sleeper bound |
| Semaphores.RunKeepsInv | kern/thread/synch.c:88-135 | that holds in every state of every run |
| Semaphores.NoLostWakeup | kern/thread/synch.c:88-135 | while anybody sleeps the count is at most the number of woken threads on their way, and a positive count can be taken by one of them |
| Semaphores.NeverOverdrawn | kern/thread/synch.c:88-135 | completed P's never exceed the initial count plus V's |
| Semaphores.PTakesOrSleeps | kern/thread/synch.c:88-121 | a P, or a woken one trying again, takes one from a positive count and otherwise goes to the back of the sleepers |
| Semaphores.VWakesTheFirst | kern/thread/synch.c:123-135 | a V adds one and wakes the sleeper that has slept longest, and nobody else |
| Semaphores.NobodyIsStuck | kern/thread/synch.c:88-135 | only a sleeper cannot try, and V is possible unless the count would wrap |
| LocksAndCvs.WakeAllMeaning | kern/thread/thread.c:1154-1181 | wakeall wakes exactly the threads on the channel |
| LocksAndCvs.StepKeeps | kern/thread/synch.c:197-352 | every step of acquire, release, wait, signal and broadcast keeps the invariant |
| LocksAndCvs.RunKeepsInv | kern/thread/synch.c:197-352 | it holds in every state of every run |
| LocksAndCvs.MutualExclusion | kern/thread/synch.c:197-240 | at most one thread is between acquire and release, and it is the recorded holder |
| LocksAndCvs.FreeLockIsTaken | kern/thread/synch.c:197-240 | an unlocked lock with sleepers has a woken thread in transit that takes it on its next step |
| LocksAndCvs.BroadcastMissesNobody | kern/thread/synch.c:301-352 | no thread can be between releasing the lock and sleeping when a broadcast looks; all sleepers are woken and nobody else is touched |
| LocksAndCvs.OnlyAWakeupEndsTheWait | kern/thread/synch.c:301-352 | a cv_wait ends only by a signal or broadcast of the lock's holder |
| LocksAndCvs.SignalWakesTheFirst | kern/thread/synch.c:323-336 | a signal wakes exactly the thread that went to sleep on the cv first; with nobody asleep it does nothing |
| LocksAndCvs.ReleaseWakesTheFirst | kern/thread/synch.c:222-239 | a release, or the one inside cv_wait, frees the lock and wakes exactly the thread that has slept on it longest |
| LocksAndCvs.TryLockTakesOrSleeps | kern/thread/synch.c:197-220 | a try takes a free lock and otherwise sleeps at the back of the queue |
| LocksAndCvs.CallerMovesOn | kern/thread/synch.c:301-321 | the other steps of a caller move that caller to its next place and touch nobody else; the cv lock is held from the start of a wait until the caller is on the queue |
| LocksAndCvs.CvWaitReturnsHolding | kern/thread/synch.c:301-321 | a cv_wait that returns was woken by a signal or broadcast since it began and holds the lock again |
| LocksAndCvs.NobodyIsStuck | kern/thread/synch.c:197-352 | every thread has its next step, but for one asleep on a held lock or on the cv, or waiting for the cv lock, whose owner can go on |
| ContextSwitch.SplxKeeps | kern/thread/spl.c:132-160 | splx leaves the count at level plus spinlocks and interrupts on exactly at zero |
| ContextSwitch.DropKeeps | kern/thread/spinlock.c:121-134 | releasing a spinlock lowers the count by one and gives up exactly that lock |
| ContextSwitch.SwapStep | kern/thread/thread.c:699-721 | the switch keeps the accounting: two raises go out with one thread and two come in with the next, which is what its level and the run-queue lock add up to |
| ContextSwitch.SwitchGivesTheCpuAway | kern/thread/thread.c:699-721 | on every run the CPU goes to the thread taken off the queue, which resumes at the level it was parked with; the one that gave way is parked with its own level and count; no other thread or CPU changes |
| ContextSwitch.ForkTouchesOnlyTheNewThread | kern/thread/thread.c:509-570 | a fork adds one thread, parked with level high and a count of 2, and touches nothing else |
| ContextSwitch.ForkedThreadStartsLow | kern/thread/thread.c:787-823 | however long it waits and wherever it runs, a forked thread reaches its entry point with its level low |
| ContextSwitch.StepsDoTheirWork | kern/thread/thread.c:607-823 | on every run every other step takes the running thread to the place, level and locks the step is for, and changes one CPU only |
| ContextSwitch.NobodyIsStuck | kern/thread/thread.c:607-823 | on every CPU the running thread can go on, except that a spinning one waits for its lock to be free and an idle one for its handlers to give back theirs |
| ContextSwitch.StepKeeps | kern/thread/thread.c:607-817 | every step on every CPU keeps the accounting |
| ContextSwitch.RunKeepsInv | kern/thread/thread.c:607-817 | it holds in every state of every run |
| ContextSwitch.OffCpuThreadsCarryTwo | kern/thread/thread.c:559-570 | every thread off a CPU, forked or switched out, has its level high and a count of exactly 2 |
| ContextSwitch.InterruptsFollowTheCount | kern/thread/spl.c:86-160 | a running thread's count is its level plus its CPU's spinlocks; interrupts are on exactly when both are zero |
| ContextSwitch.QueueLockIsHandedOver | kern/thread/thread.c:755-817 | spinlocks are exclusive, the resumed thread's CPU holds its own run-queue lock, and taking that lock never meets the deadlock panic |
| ContextSwitch.LevelSurvivesTheSwitch | kern/thread/thread.c:607-785 | a thread leaves thread_switch at the interrupt level it entered with, whatever ran in between |
| Migration.TakeTailMeaning | kern/thread/thread.c:980-986 | popping the tail onto a list's head moves the tail in order and never meets an empty queue |
| Migration.DealMeaning | kern/thread/thread.c:993-1038 | dealing to one queue loses and doubles nothing, never moves curthread, never passes the share, never meets an empty list |
| Migration.StepKeeps | kern/thread/thread.c:953-1056 | every step, with all CPUs migrating, waking, forking and switching at once, keeps the invariant |
| Migration.RunKeepsInv | kern/thread/thread.c:953-1056 | it holds in every state of every run |
| Migration.NoThreadLostOrDoubled | kern/thread/thread.c:953-1056 | every thread is in exactly one place in every state and no pop has met an empty list |
| Migration.CurrentThreadsStay | kern/thread/thread.c:996-1025 | a CPU's current thread, idle or not, is never on another CPU's queue or list |
| Migration.NeverPastOneShare | kern/thread/thread.c:988-1039 | handing threads to a CPU never takes its queue past one share, whatever has happened since counting |
| Migration.OneShareMeaning | kern/thread/thread.c:974-974 | one_share is the least length that spreads the threads over the CPUs |
| MigrationRuns.DealInOrder | kern/thread/thread.c:993-1038 | without the sender's own thread on it a list is dealt from its head, in order, for as long as there is room |
| MigrationRuns.StepsDoTheirWork | kern/thread/thread.c:953-1056 | on every run: wake-ups and forks join the back of one queue, dispatch takes its front; counting, the decision by the least even share, taking the tail, dealing up to one share and putting back do exactly that and change nothing else |
| MigrationRuns.MigrationGoesOn | kern/thread/thread.c:953-1056 | a CPU inside has exactly one step, can always take it, and is nearer the end with it, whatever the others do |
| MigrationRuns.NobodyIsStuck | kern/thread/thread.c:607-1056 | a sleeper can always be woken; a CPU outside can start, and sleep, yield, fork or dispatch exactly when it has a running thread or a queued one to do it with |
| LoadBalancing.RunQueues.CountThreads | kern/thread/thread.c:962-972 | the counting loop gives this CPU's count and the total, by one `Count` step of `Migration` for each CPU |
| LoadBalancing.RunQueues.TakeVictims | kern/thread/thread.c:979-986 | the popping loop takes the queue's tail in order |
| LoadBalancing.RunQueues.Serve | kern/thread/thread.c:993-1038 | the dealing loop is `Deal` |
| LoadBalancing.RunQueues.PutBack | kern/thread/thread.c:1046-1052 | the left-overs go back in order |
| LoadBalancing.RunQueues.Distribute | kern/thread/thread.c:988-1039 | the loop over the targets takes one `Give` step of `Migration` for each CPU it gets to, and serves them all while threads remain |
| LoadBalancing.AllServed | kern/thread/thread.c:974-1039 | full queues and a thread left to place would be more threads than were counted |
| LoadBalancing.RunQueues.ConsiderMigration | kern/thread/thread.c:953-1056 | undisturbed, this CPU keeps one share and its own thread, the others gain up to one share, and no thread is lost; the whole is a path of this CPU's steps in `Migration` and ends where that path ends |
| ThreadList.ThreadList.InsertAfter | kern/thread/threadlist.c:105-140 | linking a node in place k gives the chain with the node there |
| ThreadList.ThreadList.Unlink | kern/thread/threadlist.c:145-157 | unlinking gives the chain without the node, whose links are cleared |
| ThreadList.ThreadList.AddHead | kern/thread/threadlist.c:162-170 | the thread comes first |
| ThreadList.ThreadList.AddTail | kern/thread/threadlist.c:172-180 | the thread comes last |
| ThreadList.ThreadList.RemHead | kern/thread/threadlist.c:182-198 | the first thread, nothing exactly from an empty list |
| ThreadList.ThreadList.RemTail | kern/thread/threadlist.c:200-216 | the last thread, nothing exactly from an empty list |
| ProcLife.RemlistRemoves | kern/proc/proc.c:510-535 | a listed child is removed and no other |
| ProcLife.RemlistKeepsOthers | kern/proc/proc.c:510-535 | the others are kept exactly when the child is listed or the list is not a single element |
| ProcLife.OrphanMeaning | kern/proc/proc.c:243-263 | the loop destroys exactly the exited children and orphans the rest |
| ProcLife.ExitMeaning | kern/proc/proc.c:237-306 | the directory after an exit, record by record |
| ProcLife.StepKeeps | kern/syscall/process_syscalls.c:61-170 | every critical section of fork, exit and waitpid keeps the invariant |
| ProcLife.RunKeepsInv | kern/syscall/process_syscalls.c:61-170 | it holds in every state of every run |
| ProcLife.FamiliesAreConsistent | kern/proc/proc.c:237-440 | child lists and parent pointers mirror each other; an exited process still listed has a live unexited parent |
| ProcLife.DestroyedOnce | kern/proc/proc.c:308-315 | no record is destroyed twice or destroyed while listed |
| ProcLife.ExitTouchesALiveCv | kern/proc/proc.c:282-306 | the parent's condition variable is alive when a child signals it |
| ProcLife.SleeperIsSafe | kern/syscall/process_syscalls.c:93-151 | the record a sleeper points to stays, is its own child and has not exited |
| ProcLife.ExitWakesTheSleeper | kern/proc/proc.c:282-306 | the exit a sleeper waits for wakes it |
| ProcLife.WokenCanResume | kern/syscall/process_syscalls.c:93-151 | a woken waiter still points to its own child |
| ProcLife.ExitCodesAreFinal | kern/proc/proc.c:282-306 | a recorded exit code never changes |
| ProcLife.WaitReportsTheExitCode | kern/syscall/process_syscalls.c:93-151 | a completed waitpid reports exactly the code passed to that child's exit |
| ProcLife.WaitErrorMeaning | kern/syscall/process_syscalls.c:93-124 | which of EINVAL, EFAULT, ESRCH and ECHILD a waitpid gets, each exactly when the earlier ones do not apply and its own does; ECHILD exactly for a process the caller does not list as a child, none exactly for one it does |
| ProcRuns.WaitIsRefusedWhen | kern/syscall/process_syscalls.c:93-124 | so on every run, and a refused call changes nothing |
| ProcRuns.WaitTakesOwnChild | kern/syscall/process_syscalls.c:126-151 | waiting for an own child is never refused: an exited child is collected at once, with its own code, out of the directory and off the list, all else as before; otherwise the caller sleeps on that very record |
| ProcRuns.WokenCollects | kern/syscall/process_syscalls.c:129-151 | a woken waiter finds its child exited and collects it; it never sleeps again |
| ProcRuns.ForkAddsAChild | kern/syscall/process_syscalls.c:61-91 | one running process more, with a record never used before, listed by the caller alone |
| ProcRuns.ExitLeavesAZombieOrNothing | kern/proc/proc.c:237-306 | exited children go, others are orphaned, the caller goes too when it has no parent and is else kept with its code; the parent is woken exactly when it sleeps on the caller, and no other thread is touched |
| ProcRuns.NoProcessIsLost | kern/proc/proc.c:237-315 | every process ever made is in the directory under one pid or destroyed once, never both and never neither |
| ProcRuns.ParentsAreElder | kern/proc/proc.c:427-437 | a parent was made before its children, whatever pids they have |
| ProcRuns.SomebodyIsAwake | kern/syscall/process_syscalls.c:93-151 | waitpid cannot deadlock: at every moment of every run some process is not asleep in it |
| ProcRuns.NobodyIsStuck | kern/syscall/process_syscalls.c:61-170 | a process outside waitpid can fork, wait and exit, a woken one can go on, a sleeping one waits for a live child of its own |
| ProcTable.ProcRemlist | kern/proc/proc.c:510-535 | the rotating loop computes `Remlist` |
| ProcTable.Directory.OrphanChildren | kern/proc/proc.c:243-263 | the loop over the child list is `Orphan` |
| ProcTable.Directory.ExitProcess | kern/proc/proc.c:237-306 | proc_exit takes the step `ProcExit` |
| ProcTable.Directory.SysExit | kern/syscall/process_syscalls.c:153-170 | sys__exit takes the step `Exit` |
| ProcTable.Directory.SysFork | kern/syscall/process_syscalls.c:61-91 | sys_fork takes the step `Fork` |
| ProcTable.Directory.SysWaitpid | kern/syscall/process_syscalls.c:93-151 | sys_waitpid up to its first sleep takes the step `Wait` and returns each error exactly when it is due, none exactly for a listed child; for a child that has exited it hands back the code the child gave to exit |
| ProcTable.Directory.ResumeWaitpid | kern/syscall/process_syscalls.c:120-151 | sys_waitpid after cv_wait takes the step `Resume`, and hands back the code the child gave to exit |
| Hashtable.Hash | kern/lib/hashtable.c:58-71 | the loop computes the 32-bit djb2 hash: 5381 and the characters weighed by powers of 33, modulo 2^32 |
| Hashtable.HashIsPolynomial | kern/lib/hashtable.c:58-71 | the recurrence of the hash is that polynomial, for every prefix of every key |
| Hashtable.StrcmpZero | kern/lib/hashtable.c:213-225 | the comparison is zero exactly for equal keys |
| Hashtable.FirstWithKey | kern/lib/hashtable.c:213-225 | with that comparison a list search stops at the first pair with the key |
| Hashtable.RemovePlaced | kern/lib/hashtable.c:334-366 | cutting a pair out of its chain removes its key from the map and nothing else |
| Hashtable.PushPlaced | kern/lib/hashtable.c:227-264 | appending a pair to its chain adds its key to the map and nothing else |
| Hashtable.ShrinkTestMeaning | kern/lib/hashtable.c:357-358 | under the load factor the shrink test is true of every table but the empty one |
| Hashtable.Table.constructor | kern/lib/hashtable.c:115-138 | an empty table of eight chains |
| Hashtable.Table.Find | kern/lib/hashtable.c:266-290 | what the map holds for the key, or nothing |
| Hashtable.Table.TakeOut | kern/lib/hashtable.c:334-356 | the key leaves its chain and the map |
| Hashtable.Table.PutIn | kern/lib/hashtable.c:247-258 | a new pair joins its chain and the map |
| Hashtable.Table.Add | kern/lib/hashtable.c:227-264 | the map with the key added, through any growth; size*2 <= arraysize and arraysize 8*2^k kept |
| Hashtable.Table.Grow | kern/lib/hashtable.c:177-211 | the same map in twice the chains |
| Hashtable.Table.Shrink | kern/lib/hashtable.c:297-332 | the same map, even when rehashing grows the array again |
| Hashtable.Table.MoveFirst | kern/lib/hashtable.c:160-166 | one pair moves from the head of an old list to the table, and the two arrays stay apart |
| Hashtable.Table.Rehash | kern/lib/hashtable.c:145-170 | every pair moves to where its key belongs, the old lists are left empty as the cleanup asserts, and the recursion through add and grow ends |
| Hashtable.Table.Remove | kern/lib/hashtable.c:334-366 | the map without the key, and the value it had |
| IntKeys.EncodeRoundTrip | kern/lib/hashtable.c:431-447 | the key of a non-negative number determines it |
| IntKeys.NegativeKey | kern/lib/hashtable.c:431-447 | a negative number has the key of the number with each seven-bit digit negated |
| IntKeys.SameKeyIff | kern/lib/hashtable.c:431-447 | two numbers share a key exactly when they are equal or one is that mirror image of the other |
| IntKeys.CollidesIff | kern/lib/hashtable.c:431-447 | a negative int shares its key with a non-negative int exactly when it is above -2^28 |
| IntKeys.MinusOne | kern/lib/hashtable.c:431-447 | -1 and 127 have the same key |
| IntKeys.EncodeFits | kern/lib/hashtable.c:431-447 | at most five bytes for every int |
| IntKeys.IntToByteString | kern/lib/hashtable.c:431-447 | for every int the loop writes its NUL-free key and the terminator inside the buffer |
| Chains.ListArray.constructor | kern/lib/hashtable.c:76-99 | n empty lists that share nothing |
| Chains.ListArray.PushBack | kern/lib/hashtable.c:252-256 | a push on one list of the array leaves the values and nodes of all the others alone |
| Chains.ListArray.PopFront | kern/lib/hashtable.c:160-166 | so does a pop |
| Chains.ListArray.Remove | kern/lib/hashtable.c:243-246 | and so does taking out the first pair that compares equal |
| LinkedList.List.PushBack | kern/lib/list.c:63-86 | the value comes last, on one fresh node |
| LinkedList.List.PopFront | kern/lib/list.c:88-108 | the first value goes; an empty list stays empty |
| LinkedList.List.Front | kern/lib/list.c:110-123 | the first value, nothing from an empty list |
| LinkedList.List.Find | kern/lib/list.c:125-140 | the first value the comparator calls equal |
| LinkedList.List.Remove | kern/lib/list.c:142-174 | that value is unlinked, head, tail and size follow, the rest keep their order |
| PidTree.FirstOpenMeaning | kern/proc/pid.c:83-99 | the scan stops at the first vacant slot |
| PidTree.LeastFullMeaning | kern/proc/pid.c:101-109 | the first slot whose subtree no other is smaller than |
| PidTree.SlotsDifferIff | kern/proc/pid.c:88-88 | the eight pids of a range differ exactly when its ends are eight or more apart |
| PidTree.SubRange | kern/proc/pid.c:125-131 | the range handed down lies strictly between the neighbouring slots' pids |
| PidTree.FillIsAllocation | kern/proc/pid.c:82-99 | filling a vacant slot is an allocation: in range, unused before, found afterwards, all else as before |
| PidTree.DescendIsAllocation | kern/proc/pid.c:101-133 | so is handing the request to the least-full subtree |
| PidTree.AllocateIsAllocation | kern/proc/pid.c:80-134 | so is every allocation, at any depth, with exact counts and even siblings |
| PidTree.RunShape | kern/proc/pid.c:36-134 | while a run finds room, subtree counts are exact and siblings differ by at most one, all the way down |
| PidTree.LookupAgreesUpTo | kern/proc/pid.c:136-158 | through the first 8775 allocations every pid finds what a plain map holds for it |
| PidTree.PidsAreDistinctIff | kern/proc/pid.c:68-134 | the pids of a run are all different exactly when it makes at most 8775 allocations, and then all in range |
| PidTree.NextIsTaken | kern/proc/pid.c:68-134 | the 8776th allocation of every run gets a pid handed out before |
| PidTree.RoomIffFew | kern/proc/pid.c:68-134 | a run that has found room so far finds it again exactly when fewer than 8775 were placed |
| PidTree.RoomEnough | kern/proc/pid.c:80-134 | a tree below its levels' capacity has room: a wide block, or a narrow one that is empty |
| PidTree.FirstAllocationsFit | kern/proc/pid.c:68-134 | the first 8775 allocations of every run find room |
| PidTree.TooDeep | kern/proc/pid.c:80-134 | once its levels are full a tree has no room, and the pid it hands out is taken |
| PidTree.NarrowRepeats | kern/proc/pid.c:80-99 | a block too narrow to divide that holds one hands its first pid out again |
| PidTree.NarrowBlockRepeats | kern/proc/pid.c:88-88 | two allocations in a new block get one pid exactly when its ends are less than eight apart |
| PidTree.PidAllocateHelper | kern/proc/pid.c:80-134 | the code with its two loops computes `Allocate` |
| PidTree.PidGetProc | kern/proc/pid.c:136-158 | the code with its loop computes `Lookup` |
| Bitmaps.WriteBits | kern/lib/bitmap.c:134-170 | setting or clearing one bit of a byte changes that bit alone |
| Bitmaps.Bitmap.constructor | kern/lib/bitmap.c:56-90 | all bits clear, all padding bits set |
| Bitmaps.Bitmap.AllocAfter | kern/lib/bitmap.c:104-132 | the least clear bit at or above min, never padding; on failure there is none and nothing changes |
| Bitmaps.Bitmap.Mark | kern/lib/bitmap.c:145-156 | exactly that bit set |
| Bitmaps.Bitmap.Unmark | kern/lib/bitmap.c:158-170 | exactly that bit clear, whether or not it was set |
| Bitmaps.Bitmap.IsSet | kern/lib/bitmap.c:172-181 | the bit; padding reads as set |
| PageRange.SkipPast | kern/vm/coremap.c:37-48 | a page in use rules out every start up to it |
| PageRange.EndTestExactIff | kern/vm/coremap.c:30-30 | the end test on 32-bit words is right exactly when the sum does not wrap |
| PageRange.EndTestFails | kern/vm/coremap.c:30-30 | one page in, 2^32 - 1 pages seem to fit a memory of 100 |
| PageRange.RunsOffExample | kern/vm/coremap.c:30-49 | eight pages, the first in use, and a request for 2^32 - 1 send the search off the end |
| PageRange.Coremap.RollBack | kern/vm/coremap.c:39-42 | the pages marked so far are cleared and the bitmap is as it was |
| PageRange.Coremap.MarkRun | kern/vm/coremap.c:36-49 | the run is marked if all of it is clear, else rolled back with the page or padding in the way; off the end exactly past a clear last page with no padding |
| PageRange.Coremap.Search | kern/vm/coremap.c:20-67 | for any number of pages: the lowest clear run, none exactly on ENOSPC, and off the bitmap's bytes exactly on the requests of `RunsOff` |
| PageRange.Coremap.MarkBoth | kern/vm/coremap.c:51-59 | exactly the run is set in both bitmaps |
| PageRange.Coremap.LocateRange | kern/vm/coremap.c:15-68 | the lowest clear run, set in both bitmaps; on ENOSPC none exists and both are as they were; no answer exactly on the requests of `RunsOff` |
| BinaryHeap.UpStep | kern/lib/heap.c:112-130 | one swap upward moves the only possible violation to the parent |
| BinaryHeap.DownStep | kern/lib/heap.c:132-168 | one swap downward moves the only possible violation to the child |
| BinaryHeap.RootIsFirst | kern/lib/heap.c:61-76 | nothing in a heap comes before its root |
| BinaryHeap.Heap.BubbleUp | kern/lib/heap.c:112-130 | restores heap order and keeps the elements |
| BinaryHeap.Heap.Chosen | kern/lib/heap.c:144-159 | the child chosen precedes the parent and its sibling does not precede it; none chosen means none precedes |
| BinaryHeap.Heap.TrickleDown | kern/lib/heap.c:132-168 | restores heap order and keeps the elements |
| BinaryHeap.Heap.Push | kern/lib/heap.c:42-59 | heap order kept, one element more |
| BinaryHeap.Heap.Pop | kern/lib/heap.c:61-76 | hands out an element none precedes, keeps the rest; nothing from an empty heap |
| BinaryHeap.Heap.PopAll | kern/lib/heap.c:61-76 | popping to empty gives a sorted permutation |
| Numerals.DigitStringValue | common/libc/printf/__printf.c:439-459 | the digits printed stand for the number, in every base |
| Numerals.NoLeadingZero | common/libc/printf/__printf.c:439-459 | and have no leading zero to spare |
| Numerals.DigitCount | common/libc/printf/__printf.c:76-84 | a number below 8^k takes at most k digits in base 8 or more |
| Numerals.SixtyFourBits | common/libc/printf/__printf.c:76-84 | twenty-two octal digits hold any 64-bit number |
| Atoi.Atoi | common/libc/stdlib/atoi.c:49-101 | for every string, the integer its blanks, sign and leading digits denote, reduced to an int |
| Atoi.ReadDigits | common/libc/stdlib/atoi.c:69-91 | the digit loop, with its wrap-around, gives the value of the leading digits modulo 2^32 |
| Atoi.DenotesForm | common/libc/stdlib/atoi.c:49-101 | spaces and tabs, at most one of + and -, digits and a rest: the digits read in base ten, negated after a minus, 0 without digits |
| Atoi.EveryTextHasAForm | common/libc/stdlib/atoi.c:49-101 | every text is of that form |
| PrintfText.OutputOfDirective | common/libc/printf/__printf.c:497-563 | a lone directive prints its conversion in the field its modifiers describe |
| PrintfText.WidthIsNumeral | common/libc/printf/__printf.c:180-233 | any string of digits sets the width it spells, behind what was there; a zero before any other digit also sets the padding |
| PrintfText.FlagsOf | common/libc/printf/__printf.c:180-233 | `-` and `#` are up exactly when they were or are among the modifiers; the padding changes only by a `0` |
| PrintfText.FormatsInARow | common/libc/printf/__printf.c:497-592 | two formats in a row, the first ending outside a directive, print the text of each, the second taking its arguments from where the first left off |
| PrintfText.FillsTheField | common/libc/printf/__printf.c:365-404 | a conversion is as wide as the field or its text, whichever is more |
| PrintfMeaning.TextIsItself | common/libc/printf/__printf.c:503-510 | a format without a percent sign is its own output and takes no argument |
| PrintfMeaning.DirectiveTakes | common/libc/printf/__printf.c:511-562 | a directive ends at the first character that is no modifier, leaves nothing behind, and takes one argument exactly for d, o, u, p, x, s and c |
| PrintfMeaning.FieldPlaces | common/libc/printf/__printf.c:365-404 | the text is padded to the width: behind it under `-`, between prefix and number with zeros, else in front |
| PrintfMeaning.StringDirective | common/libc/printf/__printf.c:535-545 | %s is the string, or (null) |
| PrintfMeaning.StringInField | common/libc/printf/__printf.c:535-545 | the same placed in any field |
| PrintfMeaning.CharDirective | common/libc/printf/__printf.c:546-562 | %c is the character in the argument's low byte, nothing for a zero byte |
| PrintfMeaning.OtherDirective | common/libc/printf/__printf.c:546-562 | any character with no meaning after a percent sign prints itself |
| PrintfMeaning.PercentDirective | common/libc/printf/__printf.c:546-562 | %% is a percent sign |
| PrintfMeaning.SizeOf | common/libc/printf/__printf.c:189-203 | a number is 64 bits wide exactly under an even number of l's not undone by a z |
| PrintfMeaning.NumeralIsUnique | common/libc/printf/__printf.c:439-459 | digits of the base without a spare leading zero that stand for a number are its digit string |
| PrintfMeaning.UnsignedDirective | common/libc/printf/__printf.c:289-343 | %u is the numeral in base 10 of the argument modulo 2^32, or 2^64 under ll, with no prefix |
| PrintfMeaning.HexDirective | common/libc/printf/__printf.c:289-343 | %x is the numeral in base 16, with 0x in front exactly under `#` |
| PrintfMeaning.OctalDirective | common/libc/printf/__printf.c:289-343 | %o is the numeral in base 8, with 0 in front exactly under `#` |
| PrintfMeaning.PointerDirective | common/libc/printf/__printf.c:240-343 | %p is the numeral in base 16 of the argument modulo 2^32, always with 0x in front |
| PrintfMeaning.SignedDirective | common/libc/printf/__printf.c:253-343 | %d is a minus exactly for a negative number and the decimal numeral of the magnitude of the argument as a signed number of 32 bits, or 64 under ll |
| Printf.Snp.Send | common/libc/printf/snprintf.c:73-93 | the buffer holds as much of what was sent as fits and nothing else has changed |
| Printf.Pf.FillOut | common/libc/printf/__printf.c:345-357 | that many fill characters |
| Printf.Pf.PrintStuff | common/libc/printf/__printf.c:365-404 | prefixes, padding and text in the order the flags ask for |
| Printf.Pf.Digits | common/libc/printf/__printf.c:413-463 | the digit loop stays inside its 23 bytes for every 64-bit number in base 8 to 16 and leaves the digits there |
| Printf.Pf.PrintNum | common/libc/printf/__printf.c:413-491 | sign, base prefix and digits, padded |
| Printf.Pf.IntegerDirective | common/libc/printf/__printf.c:240-343 | fetches, prints and resets for the next field |
| Printf.Pf.SendChar | common/libc/printf/__printf.c:496-563 | one format character emits what `Emit` says and moves on as `Next` says, which `PrintfMeaning` says in full |
| Printf.Pf.Vprintf | common/libc/printf/__printf.c:570-592 | the text of the whole format is sent and its length returned |
| Printf.Vsnprintf | common/libc/printf/snprintf.c:98-142 | the longest prefix that fits, a NUL, nothing past it, and the full length returned (section 7.19.6.5 of ISO/IEC 9899:1999) |
| PrintThenRead.PaddedDenotes | common/libc/printf/__printf.c:365-404 | padded text denotes the number, times ten for each zero behind it |
| PrintThenRead.OnlyZeroSurvives | common/libc/stdlib/atoi.c:49-101 | zeros behind a number change what atoi reads unless the number is 0 |
| PrintThenRead.PrintedIntReadsBack | common/libc/printf/__printf.c:365-592 | for every int and every string of modifiers, %d then atoi gives the int back exactly when no zeros are padded behind it or it is 0 |
| PrintThenRead.ZerosBehindSeven | common/libc/printf/__printf.c:365-404 | 7 with %-05d is printed 70000 and read back so |
| PrintThenRead.NoZerosBehind | common/libc/printf/__printf.c:180-233 | without the `-` flag or without a `0` no modifiers pad zeros behind |
| PrintThenRead.StopsAtNul | common/libc/stdlib/atoi.c:49-101 | what lies past the terminator does not matter to atoi |
| PrintThenRead.StoredIntReadsBack | common/libc/printf/snprintf.c:98-142 | the same round trip through any buffer the text fits in |
| PrintThenRead.PrintAndRead | common/libc/printf/snprintf.c:98-142 | vsnprintf then atoi on one buffer: the exact round trip if the text fits, what the stored prefix denotes if not |

## Left out

- Running out of memory inside kmalloc's callers, hashtable, list, heap, pid tree and fork: allocation of
  records is taken to succeed, since several of those paths are deliberately partial.
- Kmalloc.KHeap.FetchRefPage: when the page is had is stated for a thread left undisturbed, because others
  may take the page allocator's last page or supply the root's page in between.
- Kmalloc.KHeap.KmallocFromNewPage: when it returns nothing is stated for a thread left undisturbed, for the
  same reason.
- The descriptor bitmap words of kmalloc are booleans, and its lists are fields of descriptors indexed by
  number rather than pointers; the addresses of blocks and pages are real.
- Two threads of one process in waitpid at once: each process has one waiting thread.
- CPU state inside cpu_idle, where interrupts are let in for a moment with the level high, and the switch
  in assembler: both are single steps. thread_switch called by an interrupt in the idle loop returns at
  once and is no step.
- Destruction of dead threads and the clean-up of joined ones: a zombie stays parked.
- PidTree: blocks are updated by value, not in place; pid_remove_proc and pid_destroy_tree are not
  modelled, because the ancestor scan also matches vacated slots and exact counts do not survive removals.
- PageRange.Coremap.LocateRange: the coremap spinlock is taken as held throughout, memory has at most 2^31
  pages, and what happens after the search leaves the bitmap's bytes is not modelled.
- The rest of coremap.c, pagetable.c, swap.c and addrspace.c: they depend on disk I/O.
- Hashtable: the 32-bit overflow of the array size is not modelled, and pairs are values rather than records
  of their own.
- Shootdown: IPI_PANIC and IPI_OFFLINE, which halt the CPU that takes them, are not steps; all other
  interrupt causes are one.
- ProcLife: fork is given a pid that no listed process has; `PidTree` says when pid_allocate keeps to that.
- Printf.Pf: field widths and the character count are unbounded; missing or ill-typed variable arguments,
  which C leaves undefined, are whatever the argument supply says. Kernel and console output share the
  text but not the sink and are not modelled.
- kern/lib/safelist.c, heap_assertvalid, bswap64 and sys_sbrk: their natural specifications do not hold.
- kmalloc's guard bands and labels, which are compiled out.
- The other millicode, timespecs, queues and string functions: only easy members.
- VFS, drivers, console, ELF loading, execv, file system calls, menu and boot: input and output plumbing.
