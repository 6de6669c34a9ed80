# A verified model of the toolbox's five hard components

This project models five components of the toolbox and proves what each of them promises, or, where it
does not keep a promise, exactly when it does.

**The lock-free queue** (`Bits`, `Widths`, `PowerOfTwo`, `BoundedFifo`, `CasQueue`, `CasFifo`, `CasTickets`,
`CasLinearizable`, `CasRuns`, `CasCalls`, `CasProducers`, `CasInvention`, `CasEmptyAnswers`,
`CasFullAnswers`, `CasProgress`, `CasObject`). The queue is a step machine: every atomic load, every compare-and-swap
(which may fail for no reason), every slot copy and every counter update is one step of one thread, and a
schedule is any sequence of steps. Memory holds 32-bit words only; unbounded tickets live in a history that
the machine never reads. For one producer and any number of consumers, every interleaving is first in, first
out, and the machine refines an atomic bounded queue of capacity `size - 1`. With one producer and one
consumer both failure answers are exact. With several consumers the proofs assume `AbaFreeRun`: between one
dequeue attempt's load of the read index and its swap, the index does not come round 2^32 steps. Every run
of fewer than 2^32 steps meets that, and so does every run of one consumer; with a second consumer it cannot
be left out (`CasProducers.PremiseNeeded`).

What the queue keeps and what it does not is settled exactly, for every size and every set of producers and
consumers, by runs built for all sizes. In all runs:

- the bound and the order hold exactly with at most one producer or no consumer (`CasProducers`);
- everything handed out was put in exactly then, and in one case more (`CasInvention`);
- the answer "empty" was true at some moment of its call exactly when nobody enqueues, or nobody dequeues,
  or there is one producer and besides at most one consumer or size 2 (`CasEmptyAnswers`);
- the answer "full" was true at some moment of its call exactly when there is at most one producer, or no
  consumer, or the size is 2 (`CasFullAnswers`).

With any threads nothing is taken before it is published or published before it is claimed (`CasTickets`),
and the counters balance (`CasCounting`). Nobody waits for another thread: from every state, with everybody
else stopped anywhere, nine steps of a thread bring it out of its call, and a swap that it lost makes it look
again at the memory as it is (`CasProgress`). `CasObject` is the same queue as an object whose two operations
are written as the loops of the source, proved to go where the step machine goes under arbitrary
interference.

**The in-place sorts** (`Sorting`, `BubbleSort`, `InsertSort`, `SelectSort`, `ShellSort`, `QuickSort`,
`MergeSort`), on real arrays of 32-bit integers: sorted permutations, inversion counts, preserved gap
orders, the overlapping half-buffer merge, stability and cost bounds.

**The request peeker** (`Bytes`, `HttpGrammar`, `HttpTheorems`, `HttpBytes`, `HttpPeek`). `HttpGrammar` says what is
accepted twice, as a byte-at-a-time parser and as a grammar of messages with a printer (sections 3.1.1, 3.2,
3.2.6 and 3.5 of RFC 7230); `HttpTheorems` proves the two equal; `HttpBytes` gives the
grammar and its character classes in plain bytes; `HttpPeek` is the program, with its
unrolled scan, proved against the parser.

**The line formatters** (`LineSpacing`, `FormattedText`). `LineSpacing` says what a formatted line is and
proves what formatting keeps; `FormattedText` edits the line while scanning it.

**The ring buffer** (`SnailQueue`), a class over an array, refining `BoundedFifo`.

Where one function of the source holds several loops or stages, the model gives some of them a method of
their own (`CasObject`, `HttpPeek`, `BubbleSort.Compare`, `ShellSort.Insert`, `FormattedText.SkipRun`).

Where documentation and code disagree, the model follows the code:

- `README.md:33` speaks of the characters 32 to 127; the code sets apart 33 to 126 without the parentheses.
- The formatters are meant to leave a file that passes their own check. Each one alone does; both together
  do not when a line ends in a run (`FormattedText.BothFormattersPass`), because the space that the first
  one wants at the end of a line is what the second one removes.
- `common/cas_queue.hpp:6` calls the queue thread-safe; it is first in, first out for one producer only.

## Model

| member | source | states |
|---|---|---|
| PowerOfTwo.PowerOfTwoTest | common/cas_queue.hpp:26-29 | the bit test holds exactly of the powers of two |
| PowerOfTwo.CeilPowerOfTwoMeaning | common/cas_queue.hpp:30-38 | smearing and subtracting leaves the leading bit alone |
| PowerOfTwo.RoundupMeaning | common/cas_queue.hpp:39-42 | rounding up gives the least power of two that is enough, up to 2^31 |
| PowerOfTwo.RoundupTruncates | common/cas_queue.hpp:39-42 | above 2^31 the shift loses the top bit and the result is too small |
| PowerOfTwo.QueueSizeExact | common/cas_queue.hpp:66-72 | the chosen size is the least power of two for the request if and only if 1 <= size <= 2^31 |
| PowerOfTwo.QueueSizeGood | common/cas_queue.hpp:66-72 | the size is a usable power of two if and only if the request is not 2^31 + 1, which gets no slots; it is as large as asked for if and only if the request is at most 2^31 |
| PowerOfTwo.IndexOfTicket | common/cas_queue.hpp:43-46 | the masked slot of a wrapped ticket is the ticket modulo the size: numbering is unbroken across 2^32 |
| BoundedFifo.ReplayConserves | common/snail_queue/snail_queue.go:39-71 | over any run of the bounded queue, what was accepted is what was handed out followed by what is left, in order |
| CasCounting.BalancedExec | common/cas_queue.hpp:92-102 | every step of every thread keeps write - last_write equal to the claims not published, and the counter off by exactly the updates still owed, modulo 2^32 |
| CasCounting.BalancedRun | common/cas_queue.hpp:92-129 | the same over whole runs with any producers and consumers |
| CasCounting.QuiescentSize | common/cas_queue.hpp:143-147 | when nothing is under way, size() is the distance of the indices, and nothing claimed is unpublished |
| CasCounting.SizeAnytime | common/cas_queue.hpp:137-147 | in every state of every run, size() is the distance of the published and the taken index, less the enqueues that have yet to count themselves, plus the dequeues that have yet to, modulo 2^32; empty() says whether that is 0 |
| CasFifo.FullTest | common/cas_queue.hpp:85-90 | the masked full test on a possibly stale read index holds exactly when the tickets are a round apart |
| CasTickets.CountedStep | common/cas_queue.hpp:76-135 | every step of any number of threads keeps taken <= published <= claimed in tickets, with the claims not published counted by the threads between claim and publish |
| CasTickets.ClosedRun | common/cas_queue.hpp:83-90 | with no consumer, any producers claim at most size - 1 slots |
| CasFifo.SoloExec | common/cas_queue.hpp:76-135 | every step of a one-producer run keeps the invariant on tickets, slots and program counters |
| CasFifo.SoloRun | common/cas_queue.hpp:76-135 | so does every run |
| CasFifo.FifoRun | common/cas_queue.hpp:76-135 | with at most one producer: the values taken are the first ones enqueued, in order; read <= last_write <= write <= read + size - 1 and write <= last_write + 1 in tickets; every element still owed is in its slot |
| CasFifo.OneConsumerAbaFree | common/cas_queue.hpp:107-135 | with at most one consumer every run meets the premise on index wrap-around |
| CasFifo.FewTakesAbaFree | common/cas_queue.hpp:124-125 | so does every run that takes fewer than 2^32 elements |
| CasFifo.ShortRunAbaFree | common/cas_queue.hpp:124-125 | and every run of fewer than 2^32 steps |
| CasLinearizable.EmptyTest | common/cas_queue.hpp:114-119 | on any read index, the masked empty test holds exactly when the tickets are whole rounds apart; it is exact on a current index, and right whenever fewer than size elements are published beyond the index loaded |
| CasLinearizable.StepEffect | common/cas_queue.hpp:76-135 | one step either changes nothing abstractly or is exactly one operation of the bounded queue with its answer; only a dequeue whose rule allows it may answer nothing while something is there |
| CasLinearizable.LinearizableRun | common/cas_queue.hpp:76-135 | one producer, any consumers: what callers see is what an atomic queue of capacity size - 1 allows; a full answer is exact; a wrong empty answer needs size elements added beyond those taken out at the call, and with size 2 or one consumer the queue was empty during the call |
| CasLinearizable.LinearizableOneToOne | common/cas_queue.hpp:76-135 | one producer and one consumer: the empty answer is exact too, for all schedules |
| CasLinearizable.QuiescentOccupancy | common/cas_queue.hpp:137-147 | with at most one producer, on runs that meet the premise on index wrap-around, size() and empty() at quiescence tell the true number of elements in the queue |
| CasProducers.TwoProducersOverfill | common/cas_queue.hpp:83-90 | any two producers and a consumer, at every size: a stale read index lets an enqueue into a full queue, and the next enqueue overwrites the oldest element |
| CasProducers.FifoExactly | common/cas_queue.hpp:76-135 | for every size and all threads: the bound holds in all runs if and only if there is at most one producer or no consumer; all of FIFO, with at most one write in flight, if and only if there is at most one producer, or no consumer at size 2 |
| CasProducers.OrderExactly | common/cas_queue.hpp:76-135 | for every size and all threads: what comes out is in the order put in, in all runs, if and only if there is at most one producer or no consumer |
| CasProducers.PremiseNeeded | common/cas_queue.hpp:124-125 | with no premise on index wrap-around, order is kept in all runs if and only if there is one producer and one consumer |
| CasInvention.TwoProducersInvent | common/cas_queue.hpp:97-101 | two producers, at every size: a failed publish goes on with the index it observes, publishes the other's unwritten slot, and what the slot held before comes out |
| CasInvention.InventionExactly | common/cas_queue.hpp:76-135 | for every size and all threads: everything that comes out was put in, in all runs, if and only if there is at most one producer, or no consumer, or size is 2 and one of two producers is the only consumer |
| CasEmptyAnswers.MarkMeans | common/cas_queue.hpp:107-135 | the mark the refinement keeps for a thread says exactly whether the queue was empty in some state inside its call |
| CasEmptyAnswers.TwoConsumersMiss | common/cas_queue.hpp:114-122 | any two consumers, at every size above 2: "empty" is answered although an element was there throughout the call |
| CasEmptyAnswers.TwoProducersMiss | common/cas_queue.hpp:83-119 | any two producers and a consumer, at every size: an overfilled queue is answered to be empty |
| CasEmptyAnswers.EmptyAnswersExactly | common/cas_queue.hpp:112-122 | for every size and all threads: every empty answer was true at some moment of its call, in all runs, if and only if nobody enqueues, or nobody dequeues, or there is one producer and at most one consumer or size 2 |
| CasFullAnswers.TwoProducersRefuse | common/cas_queue.hpp:83-90 | any two producers and a consumer, at every size above 2: "full" is answered although no more than one element was ever there |
| CasFullAnswers.FullAnswersExactly | common/cas_queue.hpp:83-90 | for every size and all threads: every full answer was true at some moment of its call, in all runs, if and only if there is at most one producer, or no consumer, or size is 2 |
| CasProgress.WholeDequeue | common/cas_queue.hpp:107-135 | a dequeue alone ends within six steps: with an element it hands out what the slot of the read index holds, moves that index and the counter and changes nothing else; without one it changes nothing and leaves the caller's variable |
| CasProgress.WholeEnqueue | common/cas_queue.hpp:76-105 | an enqueue alone ends within eight steps: with room it writes the slot of the write index, moves both write indices and the counter and changes nothing else; without room it changes nothing |
| CasProgress.LostTake | common/cas_queue.hpp:112-132 | a dequeue whose swap fails, lost or spurious, loads both indices again: alone it hands out the element at the read index as it is now, or finds none |
| CasProgress.LostClaim | common/cas_queue.hpp:79-93 | an enqueue whose claim fails loads both indices again, and alone ends like one that has just begun |
| CasProgress.LostPublish | common/cas_queue.hpp:97-102 | an enqueue whose publication fails goes on with the index it observes, and alone gets through in three steps |
| CasProgress.AnyoneReturns | common/cas_queue.hpp:76-135 | from every state, with any producers and consumers stopped anywhere, nine steps of one thread bring it out of its call |
| CasObject.CasQueueObject.constructor | common/cas_queue.hpp:62-74 | the fields after construction; the queue is usable if and only if the request is not 2^31 + 1, and as large as asked for if and only if the request is at most 2^31 |
| CasObject.CasQueueObject.Enqueue | common/cas_queue.hpp:76-105 | the loops of the call, under any interference and any spurious failures, go exactly where the step machine goes |
| CasObject.CasQueueObject.Dequeue | common/cas_queue.hpp:107-135 | the same, including what is left in the caller's variable |
| CasObject.ThreadIsCall | common/cas_queue.hpp:76-135 | in every schedule a thread inside a call is where its own accesses drive that call |
| Sorting.XorIntCancels | classic_sort/inc/classic_sort.h:7-8 | exclusive or on 32-bit integers undoes itself, negative values included |
| Sorting.SwapValue | classic_sort/inc/classic_sort.h:7-8 | the three assignments exchange two different cells |
| Sorting.InversionsCountPairs | classic_sort/src/classic_sort.c:8-62 | the recursive inversion count is the number of pairs out of order |
| Sorting.InversionsZero | classic_sort/src/classic_sort.c:8-62 | a sequence has no inversions if and only if it is sorted |
| Sorting.InversionsSwap | classic_sort/src/classic_sort.c:19-22 | exchanging neighbours out of order removes exactly one inversion |
| Sorting.InversionsBound | classic_sort/inc/classic_sort.h:14-21 | there are at most n(n-1)/2 inversions, the documented worst case |
| Sorting.SortedUnique | classic_sort/src/classic_sort.c:8-184 | a multiset has one sorted sequence, so all the sorts agree |
| BubbleSort.FinalPosition | classic_sort/src/classic_sort.c:13-25 | a suffix no smaller than anything before it is already what the sorted array holds there |
| BubbleSort.Pass | classic_sort/src/classic_sort.c:15-24 | everything from the last swap on is in its final position, and each swap removes one inversion |
| BubbleSort.Sort | classic_sort/src/classic_sort.c:8-26 | a sorted permutation; swaps equal the input's inversions; at most n(n-1)/2 comparisons; one pass on sorted input |
| InsertSort.Insert | classic_sort/src/classic_sort.c:55-60 | one more element joins the sorted prefix, each shift removing one inversion |
| InsertSort.Sort | classic_sort/src/classic_sort.c:48-62 | a sorted permutation; shifts equal the input's inversions; comparisons exceed them by at most n - 1 |
| SelectSort.Sort | classic_sort/src/classic_sort.c:28-46 | a sorted permutation |
| ShellSort.GapKept | classic_sort/src/classic_sort.c:72-87 | h-sorting every class of a g-ordered sequence leaves it g-ordered |
| ShellSort.Insert | classic_sort/src/classic_sort.c:76-85 | one element is inserted into its class, and the other classes keep their cells; it is compared at most j / gap times |
| ShellSort.Pass | classic_sort/src/classic_sort.c:72-87 | the result is h-ordered, a permutation, and still g-ordered for every g the input was; at most 2n^2 / h comparisons |
| ShellSort.CostFalls | classic_sort/src/classic_sort.c:69-88 | the cost of all passes so far falls with the gap reached |
| ShellSort.Sort | classic_sort/src/classic_sort.c:64-89 | a sorted permutation, ordered for every gap used; the gaps start at n/3+1 and fall strictly to 1; comparisons are quadratic at worst, as classic_sort.h says |
| QuickSort.Partition | classic_sort/src/classic_sort.c:96-120 | the hole travels and is filled by the pivot: the range is permuted, nothing left of the pivot is larger and nothing right of it smaller |
| QuickSort.Recursion | classic_sort/src/classic_sort.c:91-125 | the range ends sorted, permuted, everything else untouched, within n(n-1)/2 comparisons; it terminates |
| QuickSort.Sort | classic_sort/src/classic_sort.c:127-130 | the same for the whole array |
| MergeSort.MergeStable | classic_sort/src/classic_sort.c:144-154 | merging two stably sorted runs, left before right in the input, gives a stably sorted run |
| MergeSort.MergePermutes | classic_sort/src/classic_sort.c:144-154 | merging neither loses nor duplicates an element |
| MergeSort.SortIsStable | classic_sort/src/classic_sort.c:157-171 | the recursion leaves every element in the strict order by value and then by original position |
| MergeSort.CeilLog2Meaning | classic_sort/inc/classic_sort.h:28-29 | the logarithm of the bound is the least exponent whose power of two reaches n |
| MergeSort.SplitCost | classic_sort/src/classic_sort.c:164-170 | the costs of the two halves and of the merge stay within n * ceil(log2 n) |
| MergeSort.Merger | classic_sort/src/classic_sort.c:132-155 | with only the left half copied out, the range becomes the stable merge, element by element, at most one write per cell; the cell read past the copied half changes nothing |
| MergeSort.Recursion | classic_sort/src/classic_sort.c:157-171 | the range is sorted stably and nothing else touched, in at most n * ceil(log2 n) writes |
| MergeSort.Sort | classic_sort/src/classic_sort.c:173-184 | a stable sorted permutation, or the array unchanged without a buffer |
| HttpTheorems.PrintedIsAccepted | common/http_peek.c:218-260 | every well-formed message, printed, is accepted and its parts are reported |
| HttpTheorems.AcceptedIsPrinted | common/http_peek.c:218-260 | every accepted buffer is the print of a well-formed message |
| HttpTheorems.AcceptsExactly | common/http_peek.c:218-260 | acceptance with given fields is exactly the grammar with those parts |
| HttpTheorems.PartsComeBack | common/http_peek.c:218-260 | the reported slices hold the very method, path, name and value that were printed |
| HttpTheorems.AcceptedIsStable | common/http_peek.c:218-260 | an accepted request is accepted with the same slices on every longer buffer |
| HttpTheorems.SlicesInOrder | common/http_peek.c:164-260 | the slices lie in order and apart, inside the buffer; method, path and name are not empty |
| HttpTheorems.OverReadExactly | common/http_peek.c:223-233 | the byte after the buffer is read if and only if the buffer is a single empty line |
| HttpBytes.TableIs | common/http_peek.c:46-54 | the class of token bytes is the table, entry by entry |
| HttpBytes.TokensAre | common/http_peek.c:46-54 | a token byte is a visible character other than the delimiters of section 3.2.6 |
| HttpBytes.TokensListed | common/http_peek.c:46-54 | it is a letter, a digit or one of the fifteen marks of that section |
| HttpBytes.ControlsAre | common/http_peek.c:60-87 | what ends a value: all but the tab, 32 to 126, and 128 and above |
| HttpBytes.PathsEndAt | common/http_peek.c:28-44 | what ends a path: the space, the controls and 127 |
| HttpBytes.DigitsAre | common/http_peek.c:141-162 | the minor version is one of ten digits, stored as its value |
| HttpBytes.ConstantsAre | common/http_peek.c:141-162 | the version prefix, the line ends, the blanks and the colon in plain characters |
| HttpBytes.WellFormedMeans | common/http_peek.c:218-260 | what a well-formed message is, in byte numbers: the empty line, the line ends, and what the method, the path, the gaps and the digit may hold |
| HttpBytes.HeaderMeans | common/http_peek.c:164-216 | the same for the header line, with a name or folded |
| HttpBytes.PrintMeans | common/http_peek.c:218-260 | a message is its parts written one after the other |
| HttpBytes.PlainRequest | common/http_peek.c:218-260 | every request with a method and a header name of letters, digits and hyphens, a visible path and a visible value is accepted, whatever follows, with these very parts |
| HttpPeek.GetTokenToEol | common/http_peek.c:56-115 | the unrolled scan finds the same line end, length and rejection as the byte-at-a-time scan, inside the buffer |
| HttpPeek.ParseToken | common/http_peek.c:118-138 | the longest token, accepted exactly when the expected byte follows it |
| HttpPeek.AdvanceToken | common/http_peek.c:28-44 | everything up to a space, accepted exactly when no control byte or buffer end comes first |
| HttpPeek.ParseHttpVersion | common/http_peek.c:141-162 | accepted exactly for HTTP/1. and a digit, with a byte to follow |
| HttpPeek.ParseHeader | common/http_peek.c:164-216 | the header line is accepted exactly when the parser accepts it, with its name and trimmed value |
| HttpPeek.PeekHttpRequest | common/http_peek.c:218-260 | the answer and the fields are those of the parser, no length is truncated, and the response fields are untouched |
| LineSpacing.SpacedIdempotent | formatted_text/src/formatted_text.cpp:227-262 | a formatted line has no space missing |
| LineSpacing.SpacedUnchanged | formatted_text/src/formatted_text.cpp:231-259 | formatting leaves a line alone if and only if no position from the third on lies at an open edge of a run |
| LineSpacing.SpacedCount | formatted_text/src/formatted_text.cpp:231-259 | exactly one space is inserted for every position where one is missing |
| LineSpacing.SpacedByPlace | formatted_text/src/formatted_text.cpp:231-259 | the whole result byte by byte: every byte is moved on by the number of spaces missing up to it, and a space stands at every position where one was missing, and nowhere else |
| LineSpacing.MissingMeans | formatted_text/src/formatted_text.cpp:22-22 | in byte numbers: a space is missing from the third position on where exactly one neighbour is in 33 to 126 and no parenthesis and the other is no space, the end of the line counting as 0 |
| LineSpacing.SpacedWhere | formatted_text/src/formatted_text.cpp:231-259 | a line is left alone if and only if there is no such position |
| LineSpacing.Parentheses | formatted_text/src/formatted_text.cpp:22-22 | "f(x)" becomes "f( x )" |
| LineSpacing.SpacedLength | formatted_text/src/formatted_text.cpp:231-259 | a line never loses bytes and never grows to twice its length |
| LineSpacing.SpacedWidens | formatted_text/src/formatted_text.cpp:244-257 | only spaces are added: the original is left when they are taken out again |
| LineSpacing.QuietStaysWhole | formatted_text/src/formatted_text.cpp:22-22 | a chunk without an edge inside comes through in one piece, between its widened surroundings |
| LineSpacing.RunsAreQuiet | formatted_text/src/formatted_text.cpp:22-22 | runs set apart and runs of bytes from 128 on (section 3 of RFC 3629) have no edge inside |
| LineSpacing.TrimmedCuts | formatted_text/src/formatted_text.cpp:264-284 | trimming cuts off exactly the spaces and tabs at the end |
| LineSpacing.TrimmedIdempotent | formatted_text/src/formatted_text.cpp:264-284 | trimming twice is trimming once |
| LineSpacing.TidyIdempotent | formatted_text/src/formatted_text.cpp:286-326 | insertion followed by trimming is idempotent on every line |
| LineSpacing.TidyStillWanting | formatted_text/src/formatted_text.cpp:246-258 | a line formatted both ways is found wanting exactly when its text has two bytes or more and ends in a run |
| LineSpacing.TidyStillWantingWitness | formatted_text/src/formatted_text.cpp:246-258 | "ab" is such a line |
| FormattedText.AddLineSpace | formatted_text/src/formatted_text.cpp:227-262 | editing while scanning terminates and gives the spaced line; the dry run answers true exactly when that would change the line |
| FormattedText.EatTrailingSpace | formatted_text/src/formatted_text.cpp:264-284 | gives the trimmed line; the dry run answers true exactly when that would change the line |
| Bits.AndBit | formatted_text/src/formatted_text.cpp:291-295 | a one-bit mask is nonzero exactly when that bit is set |
| FormattedText.FormatOfficer.GetFormatFuncArray | formatted_text/src/formatted_text.cpp:286-299 | insertion is chosen exactly when bit 1 of the flags is set, trimming exactly when bit 2 is, each at most once and insertion first, whatever the other bits are |
| FormattedText.FormatOfficer.FormatCheckEachLine | formatted_text/src/formatted_text.cpp:301-328 | every line goes through every formatter and the answer is false; the dry run changes nothing and answers true exactly when some formatter would change some line |
| FormattedText.OneFormatterPasses | formatted_text/src/formatted_text.cpp:301-328 | a text formatted one way passes its own check |
| FormattedText.FormattedTwice | formatted_text/src/formatted_text.cpp:301-328 | formatting a text with any choice of formatters is idempotent |
| FormattedText.BothFormattersPass | formatted_text/src/formatted_text.cpp:301-328 | a text formatted both ways fails its own check exactly when some original line ends in a run |
| FormattedText.ByChoice | formatted_text/src/formatted_text.cpp:286-326 | with both formatters, the spaces are inserted first and the line is trimmed then |
| FormattedText.CheckExactly | formatted_text/src/formatted_text.cpp:301-328 | for every choice of formatters: the check speaks if and only if formatting would change the text or, with both formatters, some line ends in a run; in that last case alone it can speak although nothing would change |
| FormattedText.SilentCheck | formatted_text/src/formatted_text.cpp:301-328 | a silent check means that formatting changes nothing |
| SnailQueue.CellsExact | common/snail_queue/snail_queue.go:15-26 | the number of cells is the requested capacity and one more, unless the request is 65535, when it wraps to none |
| SnailQueue.SnailQueue.constructor | common/snail_queue/snail_queue.go:15-26 | an empty queue for every request but 65535 |
| SnailQueue.SnailQueue.EmptyFull | common/snail_queue/snail_queue.go:28-36 | the index tests hold exactly of an empty queue and of one that holds the requested capacity |
| SnailQueue.SnailQueue.SizeIs | common/snail_queue/snail_queue.go:48-67 | size is (tail - head) modulo the number of cells |
| SnailQueue.SnailQueue.Enqueue | common/snail_queue/snail_queue.go:39-52 | one enqueue of the bounded queue of the requested capacity: accepted if and only if fewer are queued than that, and then put last |
| SnailQueue.SnailQueue.Dequeue | common/snail_queue/snail_queue.go:55-71 | one dequeue of it: the oldest element is handed out and the rest stays, unless there is none |
| SnailQueue.SnailQueue.Traversal | common/snail_queue/snail_queue.go:75-91 | visits the first limit elements in order, or all if there are no more; limit 0 means all |
| SnailQueue.SnailQueue.ReverseTraversal | common/snail_queue/snail_queue.go:94-117 | visits the last limit elements, last first, or all if there are no more; limit 0 means all |
| SnailQueue.SnailQueue.Run | common/snail_queue/snail_queue.go:39-71 | every run of operations gives the contents and the answers of the abstract queue |

## Left out

- CasFifo.FifoRun: takes as premise, with several consumers, that no dequeue attempt spans 2^32 others, without which it is false (`CasProducers.PremiseNeeded`); the copy of a slot is one step.
- CasLinearizable.LinearizableRun: does not promise a right "empty" answer with several consumers at sizes above 2, where it is false (`CasEmptyAnswers.EmptyAnswersExactly`).
- CasObject.CasQueueObject.Enqueue: the other threads' actions and the spurious failures come as a parameter; a call that waits for ever is one whose script ends before it returns. A thread alone always returns (`CasProgress.AnyoneReturns`); liveness under contention and `sched_yield` are not modelled.
- The C++ memory model: atomics are taken as sequentially consistent, and element types as copied at once.
- ShellSort.Sort: covers lengths up to len + len / 3 <= 2^31 - 1, beyond which the C loop index overflows.
- QuickSort.Sort: covers len <= 2^31 - 1, where the cast of the length is exact.
- MergeSort.Sort: covers 2 * len <= 2^32, where lo + hi does not wrap.
- Allocation failure in merge sort beyond leaving the array alone, and the random and timing drivers.
- HttpPeek.PeekHttpRequest: what the fields hold after a rejection is left open, as in the source; the read past the buffer ends the call with a distinct reply instead of a value.
- `peek_http_response` (common/http_peek.c:262-310), whose last part works on a message that the function never sets.
- FormattedText.FormatOfficer.FormatCheckEachLine: lines and line counts up to the file size limit of the component, so that the casts to int are exact.
- File loading, saving, backup, path checks and coloured output of the formatter: input and output.
- Null receivers and null callbacks of the ring buffer; the callback is the sequence of values it is given.
- The thread pool, easy_log, the daemon, singleton and dynamic-library helpers, the dictionary and the shell scripts: system calls, network and external tools, or easy members only.
