# Verified models of the trading bot and the libraries it vendors

This project states, in Dafny, what the bot under `src/` and five pieces of its vendored headers
compute, and proves what they are relied on for. `dafny verify dfyconfig.toml` checks everything.

**`absl::call_once`** (`CallOnce`, `CallOnceSafety`, `CallOnceProgress`, `CallOnceTraces`). Any number of callers share
one control word. Every atomic access is one step. The word is its C++ modification order: a
history of values, each with the view that its store released. A relaxed or acquire load may return
any entry not older than what the thread has seen, so stale values are possible; an acquire load joins
the released view. `SpinLockWait` is its real loop: an acquire load, a scan of the transition table, a
compare-exchange of the matched row, or a delay that always may time out. Proved for every interleaving:
one start of `fn`, one owner, no early return, visibility of all of `fn`'s writes, a monotone word, and,
under every schedule, bounds on own steps: until the flag is taken, until Done, and from Done to the return.

**`meta.hpp`** (`MetaFolds`, `MetaSort`, `MetaIndices`, `MetaTables`, `MetaLambda`,
`MetaLambdaScoping`). Packs are sequences and metafunctions are functions; a substitution failure is
`None`. The unrolled folds are compared with the plain ones, the quicksort with the definition of a
stable sorting, the doubling scheme with the plain range, `cartesian_product` with lexicographic
ranking, and the lambda machine (index lookup in concatenated tag and argument lists) with a textbook
environment evaluator.

**Insertion sorts** (`InsertionSort`, over `StableOrder`, `Logarithm` and `Comparing`). The two sorts run in place on
an array together with the parts of range-v3 that they reach: `partition_point` with and without a
distance, and `rotate` of the last element through `rotate_left`, `rotate_right` and `rotate_forward`.
They are proved equal to the pure `meta::sort`, because stable sortings are unique.

**The calendar's cursor** (`Interleave`). The mutable round-robin cursor is a class; walking it and
chunking the result is proved equal to the pure `meta::transpose`.

**The trading stack.** `Wire` is the byte format of orders and `Inbound` that of updates. `Trader` says
what one event does to the trader, as functions; `OrderStream`, `TraderInvariant` and `TraderRuns` prove
what every run of events sends, `TraderSends` exactly what each event adds; `Bot` holds the imperative objects (`MarketLink`, `AutoTrader`,
`FutureMidpoint`, `SimpleExecutor`), each method proved against those functions, down to the bytes.
`ClosedLoop` and `ClosedLoopTight` put the trader in a loop with an exchange that applies its messages in
order, fills a live order by at most what is left of it, may expire it, and reports true positions that
may arrive late and out of order.

## Where the code differs from what is said of it

- `lambda<_a, _a>` is not the identity. The body is the last tag and is found before the parameter, so a
  lambda whose body is a bare placeholder returns the placeholder. `ScopedUnlessBodyIsBare` shows that,
  with tame nested lambdas, this is the only way a call departs from lexical scoping.
- `make_index_sequence` is documented as O(log N) (meta.hpp:469). It takes up to L(L+3)/2 specialization
  steps for L = floor(log2 N), and that many for every N one below a power of two.
- `reverse_fold` is documented to call Fn(A_N, state) (meta.hpp:1656), but calls Fn(state, A_N).
  `ReverseFoldIsNotAsDocumented` is an input on which the results differ; `DocumentedOnlyIfCommuting` shows that
  they agree on every list exactly for functions that commute.
- The position limit of 80 in the executor does not bound the position by 89 just because every fill is
  reported before the next book update. Inserts still on their way to the exchange matter:
  `AccurateReportsBoundNothing` gives runs past any limit in which no report, however fresh, would have told
  the trader more. `WithinLimitExactly` says when the bound holds: in any run, the position stays within 89 toward
  a side, even if whatever rests there fills, if and only if each insert of that side is applied while the true
  position toward it is below 80. `WaitingIsInLimit` gives one way to meet that: the trader knows all fills toward
  a side when it inserts there, and no order fills while an insert of its own side is on its way.
  `PositionBoundIsExact` gives the least bound in the other cases. It is 99 + 10 * ahead if the trader knows all fills
  toward a side when it inserts there and at most `ahead` earlier inserts of that side are then on their way (an old
  order can fill just before the cancel that replaces it). It is 89 + 10 * lag toward a side, for lag at least 1, if
  each insert of that side is at most the lag-th not yet applied when the report it relied on was taken.
- Two transpositions give the input back only if its rows are not empty; `TransposeTwice` says exactly when.

## Model

| member | source | states |
|---|---|---|
| CallOnce.MatchRow | libs/abseil-cpp-master/absl/base/internal/spinlock_wait.cc:45-48 | the chosen row is the first that starts at the loaded value; none if no row does |
| CallOnce.ScanTable | libs/abseil-cpp-master/absl/base/internal/spinlock_wait.cc:45-47 | the scanning loop stops at that row for every table and value |
| CallOnceSafety.Rows | libs/abseil-cpp-master/absl/base/call_once.h:162-165 | which row each of the four words matches: Waiter matches none, so it only waits |
| CallOnceSafety.StepKeepsInv | libs/abseil-cpp-master/absl/base/call_once.h:173-192 | each atomic access of any thread keeps the protocol invariant |
| CallOnceSafety.RunKeepsInv | libs/abseil-cpp-master/absl/base/call_once.h:173-192 | so does every interleaving of any number of callers |
| CallOnceSafety.FnStartsAtMostOnce | libs/abseil-cpp-master/absl/base/call_once.h:173-179 | fn is entered at most once in every run, and it has not been entered exactly when the word is Init or the winner has yet to invoke it |
| CallOnceSafety.OneOwner | libs/abseil-cpp-master/absl/base/call_once.h:174-192 | some thread owns the flag exactly while the word is Running or Waiter, and never two |
| CallOnceSafety.ReturnSeesFn | libs/abseil-cpp-master/absl/base/call_once.h:170-192 | a call that has returned has a view with all of fn's writes, fn has run once and finished, and the debug check never fires |
| CallOnceSafety.WordOnlyAdvances | libs/abseil-cpp-master/absl/base/call_once.h:162-165 | the modification order is Init, Running, at most one Waiter, Done, it only grows, and nothing shared changes after Done |
| CallOnceProgress.FlagIsTakenSoon | libs/abseil-cpp-master/absl/base/call_once.h:173-177 | under every schedule, while the word is Init a pending caller has at most two own steps before the one that takes the flag |
| CallOnceProgress.DoneComesSoon | libs/abseil-cpp-master/absl/base/call_once.h:178-188 | under every schedule, once the flag is taken its owner keeps it and has at most three own steps, besides fn's writes, before the one that stores Done |
| CallOnceProgress.ReturnsSoonAfterDone | libs/abseil-cpp-master/absl/base/call_once.h:180-191 | after Done a caller takes at most three own steps, plus three per load that returned a stale value, until it has returned; no wake is needed |
| CallOnceProgress.EveryStateCanFinish | libs/abseil-cpp-master/absl/base/call_once.h:173-192 | from every reachable state some run lets all calls return with fn finished |
| CallOnceProgress.WakeCanBeSkipped | libs/abseil-cpp-master/absl/base/call_once.h:187-191 | the concrete run in which the wake is skipped while a thread sleeps |
| CallOnceTraces.WakesExactlyIfWaiterWasSeen | libs/abseil-cpp-master/absl/base/call_once.h:187-191 | in every run one thread at most stores Done; having returned, it has made exactly one wake if the entry it loaded after fn was Waiter and none otherwise, and nobody else wakes; so the wake is skipped exactly when Waiter was written after that entry |
| CallOnceTraces.FirstExchangeComesAfter | libs/abseil-cpp-master/absl/base/call_once.h:150-175 | a call comes to its first compare-exchange after one load, or after two in a debug build |
| CallOnceTraces.TableDecides | libs/abseil-cpp-master/absl/base/internal/spinlock_wait.cc:43-56 | from then on a caller that does not run fn does after each load what the table says for the value loaded, sleeps only on Waiter, and loads again after a delay or a failed exchange |
| MetaFolds.FoldIsLeftFold | libs/meta/meta.hpp:1493-1576 | the ten-at-a-time fold is the left fold for every length |
| MetaFolds.ReverseFoldIsRightFold | libs/meta/meta.hpp:1615-1651 | the ten-at-a-time reverse fold is the right fold for every length |
| MetaFolds.DocumentedOnlyIfCommuting | libs/meta/meta.hpp:1615-1662 | reverse_fold is the documented right fold, element first, if and only if the function commutes |
| MetaFolds.ReverseFoldIsNotAsDocumented | libs/meta/meta.hpp:1615-1662 | two elements on which the documented and the computed result differ |
| MetaFolds.FoldRightIsFoldLeftReversed | libs/meta/meta.hpp:1615-1651 | a right fold is the left fold of the mirrored list |
| MetaFolds.ConcatIsFlatten | libs/meta/meta.hpp:1709-1756 | concatenation with its special cases for up to ten lists is flattening |
| MetaFolds.ReverseOntoMirrors | libs/meta/meta.hpp:2976-2996 | reversal onto a state, ten at a time, mirrors the list in front of the state |
| MetaFolds.ReverseMirrorsAndInverts | libs/meta/meta.hpp:2994-2996 | reverse mirrors every list and is its own inverse |
| MetaSort.Partition | libs/meta/meta.hpp:3172-3209 | the fold splits a list into those that satisfy the predicate and those that do not, both in order, none lost |
| MetaSort.SplitIsStable | libs/meta/meta.hpp:3224-3261 | putting the parts around the pivot keeps the order of all elements that tie |
| MetaSort.SortIsStableSort | libs/meta/meta.hpp:3227-3261 | for every strict weak order the result is sorted and a stable rearrangement of the input |
| MetaSort.CallsExactly | libs/meta/meta.hpp:3227-3261 | the calls made along with the sorted list: one per element after the pivot, and those for the elements below it and not below it |
| MetaSort.SortIsQuadratic | libs/meta/meta.hpp:3224-3268 | a list of n elements takes at most n(n-1)/2 calls of the predicate, whatever the predicate |
| MetaSort.SortedTakesAllCalls | libs/meta/meta.hpp:3224-3268 | a list that is sorted already takes all of them |
| StableOrder.StableIsPermutation | libs/meta/meta.hpp:3224-3261 | a stable rearrangement is a permutation |
| StableOrder.StableSortIsUnique | libs/meta/meta.hpp:3224-3261 | two sorted stable rearrangements of the same input are equal |
| Comparing.Comparer.Less | libs/range-v3-master/perf/counted_insertion_sort.cpp:85 | compares two elements and counts it; the order is known to the searches in no other way |
| InsertionSort.UpperBoundN | libs/range-v3-master/perf/counted_insertion_sort.cpp:78-94 | finds the first element that exceeds the value, making no comparison for an empty range and at most floor(log2 d) + 1 otherwise |
| InsertionSort.PartitionPointN | libs/range/v3/algorithm/aux_/partition_point_n.hpp:36-57 | the counted bisection finds the same position, making as few comparisons |
| InsertionSort.RangesUpperBound | libs/range/v3/algorithm/partition_point.hpp:55-80 | so does the search over a range: bisecting when the range is sized, and otherwise after doubling probes, making at most 2 floor(log2(d + 1)) comparisons |
| InsertionSort.RotateLeft | libs/range/v3/algorithm/rotate.hpp:52-58 | the first element of the range moves behind the others, all else stays |
| InsertionSort.RotateRight | libs/range/v3/algorithm/rotate.hpp:61-68 | the last element of the range moves before the others, all else stays |
| InsertionSort.RotatingRotates | libs/range/v3/algorithm/rotate.hpp:71-102 | the swaps from any cursors on complete the rotation that is still to be done |
| InsertionSort.RotateHead | libs/range/v3/algorithm/rotate.hpp:71-82 | the first loop of swaps, in place, is the first part of the recursion of swaps |
| InsertionSort.RotateRest | libs/range/v3/algorithm/rotate.hpp:83-101 | the second loop is the rest of it |
| InsertionSort.RotateForward | libs/range/v3/algorithm/rotate.hpp:71-102 | the two swapping passes exchange [first, middle) and [middle, last), all else stays |
| InsertionSort.RotateLast | libs/range/v3/algorithm/rotate.hpp:148-192 | for every iterator category and element kind, rotating one element to the front of the range has the same result |
| InsertionSort.InsertExtendsSort | libs/range-v3-master/perf/counted_insertion_sort.cpp:100-104 | inserting an element at its upper bound in a stable sorting gives a stable sorting of one element more |
| InsertionSort.InsertNext | libs/range-v3-master/perf/counted_insertion_sort.cpp:102-103 | one round of the sorts on the array |
| InsertionSort.AllSorted | libs/meta/meta.hpp:3224-3261 | an array that holds a stable sorting of the range holds what the pure quicksort returns |
| InsertionSort.InsertionSortN | libs/range-v3-master/perf/counted_insertion_sort.cpp:96-105 | the range becomes exactly what meta::sort makes of it, the rest stays, and at most n (floor(log2 n) + 1) comparisons are made |
| InsertionSort.InsertionSortRange | libs/range-v3-master/perf/counted_insertion_sort.cpp:107-115 | the same array for the other sort, making at most n (floor(log2 n) + 1) comparisons if sized and 2 n floor(log2 n) if not |
| MetaIndices.MakeIndexSequenceIsIota | libs/meta/meta.hpp:471-532 | repeat and recurse yield exactly 0 to N - 1 for every N |
| MetaIndices.StepsRecurrence | libs/meta/meta.hpp:399-532 | a pass takes as many doublings as the logarithm says, then one recursion on the rest |
| MetaIndices.StepsAreBounded | libs/meta/meta.hpp:399-532 | at most L(L+3)/2 repeat and recurse steps |
| MetaIndices.StepsBoundIsTight | libs/meta/meta.hpp:468-532 | all of them for every N one below a power of two |
| MetaIndices.StepsAreBitPositions | libs/meta/meta.hpp:399-532 | for every N above 0 the number of steps is the sum of the positions of its set bits plus their number less one |
| MetaIndices.IntegerRangeIsExact | libs/meta/meta.hpp:404-494 | integer_range is From to To - 1, and is defined exactly when From does not exceed To |
| MetaTables.TransposeSwapsIndices | libs/meta/meta.hpp:2890-2892 | transpose is defined exactly for non-empty rectangular lists and swaps the two indices |
| MetaTables.TransposeTwice | libs/meta/meta.hpp:2890-2892 | it is its own inverse exactly when the rows are not empty |
| MetaTables.ProductListsTuplesInOrder | libs/meta/meta.hpp:3695-3720 | the length is the product of the lengths, and each tuple stands at the lexicographic rank of its positions |
| MetaTables.RankOfUnrank | libs/meta/meta.hpp:3695-3720 | every place of the product is the rank of some positions |
| MetaTables.UnrankOfRank | libs/meta/meta.hpp:3695-3720 | and of no others |
| MetaTables.RankFollowsOrder | libs/meta/meta.hpp:3695-3720 | ranks compare as positions do lexicographically, the first list being the most significant |
| MetaTables.ProductMembers | libs/meta/meta.hpp:3695-3720 | the tuples are exactly those with one element of each list, empty lists included |
| MetaLambda.ReverseFindIndex | libs/meta/meta.hpp:2331-2360 | the index found is the last occurrence, and none is found exactly if there is none |
| MetaLambdaScoping.LastIndexIsInnermostBinding | libs/meta/meta.hpp:3402-3405 | last-index lookup in aligned tag and argument lists is lookup of the innermost binding |
| MetaLambdaScoping.ConcatenationExtends | libs/meta/meta.hpp:3445-3450 | concatenated tag and argument lists spell the captured environment extended by the parameters |
| MetaLambdaScoping.ImplAgrees | libs/meta/meta.hpp:3371-3450 | evaluating a tame body on lists agrees with evaluating it in the environment they spell, failures included |
| MetaLambdaScoping.RunAgrees | libs/meta/meta.hpp:3458-3466 | so does invoking a closure with its remembered arguments |
| MetaLambdaScoping.LambdasAreLexicallyScoped | libs/meta/meta.hpp:3364-3466 | invoking any tame value is textbook application: inner names shadow outer ones, arguments are not evaluated again |
| MetaLambdaScoping.OuterThenInner | libs/meta/meta.hpp:3445-3466 | outer call then inner call evaluates the inner body with both sets of arguments in scope |
| MetaLambdaScoping.ScopedUnlessBodyIsBare | libs/meta/meta.hpp:3369-3466 | a call of a closure is textbook application if and only if its body is not a bare bound placeholder, and is that placeholder otherwise |
| MetaLambdaScoping.IdentityLambdaReturnsItsPlaceholder | libs/meta/meta.hpp:3369-3466 | the concrete failing instance |
| Interleave.Cursor.constructor | libs/range-v3-master/example/calendar.cpp:197-200 | the cursor starts at the first range, all iterators at their begin |
| Interleave.Cursor.AtEnd | libs/range-v3-master/example/calendar.cpp:224-231 | the end is only seen between rounds, exactly when the shortest range is used up; never with no ranges |
| Interleave.Cursor.Read | libs/range-v3-master/example/calendar.cpp:215-218 | reads the current column of the current range |
| Interleave.Cursor.Next | libs/range-v3-master/example/calendar.cpp:219-223 | goes round-robin and moves all iterators together after the last range |
| Interleave.Walk | libs/range-v3-master/example/calendar.cpp:191-251 | walking yields the first columns in column-major order up to the shortest range, then stops |
| Interleave.ChunksAreColumns | libs/range-v3-master/example/calendar.cpp:261-263 | cutting the walk by the number of ranges gives the columns |
| Interleave.TransposeRanges | libs/range-v3-master/example/calendar.cpp:255-265 | equals meta::transpose of the rows, cut to the shortest if they differ |
| Interleave.GroupsFlatten | libs/range-v3-master/example/calendar.cpp:132-146 | the groups put together are the input |
| Interleave.GroupsHaveKeys | libs/range-v3-master/example/calendar.cpp:132-146 | all of a group has one key, and neighbouring groups differ in it |
| Interleave.GroupCount | libs/range-v3-master/example/calendar.cpp:139-146 | grouping days whose keys rise by at most one makes one group per key touched |
| Interleave.NumbersGroupWeeks | libs/range-v3-master/example/calendar.cpp:139-146 | grouping days by the number of their week is grouping them by week, for every numbering that tells consecutive weeks apart |
| Interleave.WeeksFitSixLines | libs/range-v3-master/example/calendar.cpp:139-185 | by_week makes one group per week touched, four to six in a month, so the padding count is not negative |
| Interleave.LayoutMonth | libs/range-v3-master/example/calendar.cpp:176-187 | every month is laid out on seven lines |
| Interleave.LinesInOrder | libs/range-v3-master/example/calendar.cpp:182-185 | they are the title, the weeks in order, and blank lines of 22 characters |
| Interleave.MonthsSideBySide | libs/range-v3-master/example/calendar.cpp:269-274 | so months side by side transpose without losing a line |
| Wire.CancelRoundTrip | src/market_link/market_link.cpp:125-132 | a cancel is 7 bytes whose size header says so and which decode to it |
| Wire.InsertRoundTrip | src/market_link/market_link.cpp:134-145 | an insert is 17 bytes whose size header says so and which decode to it, negative prices included |
| Wire.EncodedBytes | src/constants/messages.h:48-67 | the bytes of each message place by place: size and type, id, side, price, volume and lifespan, numbers most significant byte first |
| Wire.EncodingSpells | src/market_link/market_link.cpp:125-145 | a stream of messages is those bytes one after the other |
| Wire.DecodeIsExact | src/constants/messages.h:48-74 | whatever decodes was encoded that way |
| Wire.ParseEncoded | src/market_link/market_link.cpp:125-145 | the bytes of any sequence of orders cut back to exactly that sequence |
| Wire.StreamsAreUnambiguous | src/market_link/market_link.cpp:125-145 | a byte stream parses to a sequence of orders if and only if it is their encoding |
| Inbound.LoadThenNtohl | src/market_link/market_link.cpp:93 | loading a packed word on a little-endian host and converting it gives its big-endian value |
| Inbound.BookRecordIsReceived | src/constants/messages.h:30-34 | a packed order book record, with any field values, is received as an update of the FUTURE exactly for instrument 0, asks the non-zero ones of words 0 to 4, bids those of words 10 to 14 |
| Inbound.PositionRecordIsReceived | src/constants/messages.h:36-39 | a packed position record is received as the future's position and then the ETF's |
| Inbound.OtherTypesBringNothing | src/market_link/market_link.cpp:40-59 | types other than 6 and 8 bring no event, and events come in the order of their messages |
| Inbound.KeptAreTheNonZero | src/market_link/market_link.cpp:95-98 | the places kept are those of the non-zero words, in order |
| Inbound.NonZeroIsKept | src/market_link/market_link.cpp:95-98 | each list is its five words at those places |
| Inbound.ListsAlignWhenZerosCoincide | src/market_link/market_link.cpp:87-102 | price and volume lists keep the same levels if and only if their zeros coincide |
| Bot.ReadBook | src/market_link/market_link.cpp:87-99 | the loop converts all twenty words in place and leaves four lists of five words without their zeros |
| Bot.MarketLink.HandleOrderBookUpdate | src/market_link/market_link.cpp:83-103 | the whole stack moves as the event that the message decodes to says |
| Bot.MarketLink.HandlePositionUpdate | src/market_link/market_link.cpp:105-111 | the same for a position message |
| Bot.MarketLink.RunLoop | src/market_link/market_link.cpp:40-59 | the loop over any messages has the effect of all their events in order; unknown types and status updates have none |
| Bot.MarketLink.CancelOrder | src/market_link/market_link.cpp:125-132 | appends the seven bytes of a cancel to the wire |
| Bot.MarketLink.InsertOrder | src/market_link/market_link.cpp:134-145 | appends the seventeen bytes of an insert to the wire, every one of them set |
| Bot.FutureMidpoint.OnOrderBookUpdate | src/pricing/future_midpoint.cpp:10-19 | the price changes only on a FUTURE update with both sides present |
| Bot.SimpleExecutor.constructor | src/main.cpp:28-29 | all zeros except the order id |
| Bot.SimpleExecutor.ExecuteTrades | src/execution/simple_executor.cpp:6-28 | the fields and the stream sent become what the functional trader says, in that order of messages |
| Bot.AutoTrader.OnOrderBookUpdate | src/autotrader/autotrader.cpp:25-36 | reprice, then trade 100 to either side |
| Bot.Session | src/main.cpp:26-39 | from start-up, whatever messages arrive, the bytes sent are place by place those of exactly the orders that their events call for, and parse to them |
| OrderStream.IdsGrow | src/execution/simple_executor.cpp:17-27 | insert ids strictly grow along an orderly stream |
| OrderStream.LiveAreRemembered | src/execution/simple_executor.cpp:6-28 | one order per side is enough to know which inserts are live |
| OrderStream.LiveIsConserved | src/execution/simple_executor.cpp:6-28 | inserts minus cancels is the number of live orders |
| TraderInvariant.ExecuteOk | src/execution/simple_executor.cpp:6-28 | executeTrades keeps the stream orderly at each of its sends and leaves only wanted quotes |
| TraderRuns.HandleOk | src/autotrader/autotrader.cpp:25-45 | every event keeps the trader's invariant |
| TraderRuns.SentOrdersAreTracked | src/execution/simple_executor.cpp:6-28 | over every run: ids grow, each cancel names an insert live just before it, the live inserts are exactly the non-zero ids of the executor, inserts minus cancels is their number |
| TraderSends.BookSendsExactly | src/execution/simple_executor.cpp:6-28 | over every run, a book update sends cancels of the live orders exactly if the price moves, and then inserts at the new price on each side that is without an order and within the limit, in that order and nothing else |
| TraderSends.ReportSendsNothing | src/execution/simple_executor.cpp:30-32 | a position report sends nothing and sets the known position to the ETF's |
| TraderSends.IdsAreConsecutive | src/execution/simple_executor.cpp:18-24 | insert ids are 2, 3, 4 and so on |
| TraderRuns.QuotesNeverCross | src/execution/simple_executor.cpp:7-27 | at every prefix of the stream at most one order per side is live and a live bid is 200 below a live ask |
| TraderRuns.QuotesBracketMidpoint | src/pricing/future_midpoint.cpp:14-18 | after a FUTURE update the price is a multiple of 100, tracked quotes are 100 to either side of it and strictly enclose the exact midpoint |
| TraderRuns.SidesAreQuoted | src/execution/simple_executor.cpp:17-27 | after any book update each side that the position allows has a live quote at the current price |
| TraderRuns.PriceIsOfLastFuture | src/pricing/future_midpoint.cpp:10-19 | over every run the price is half the sum of the best prices of the last usable FUTURE update, cut toward zero to a multiple of 100, and zero before the first |
| ClosedLoop.StepKeepsOk | src/execution/simple_executor.cpp:17-32 | at every step of the loop the exchange holds at most the order that the applied messages leave live on each side |
| ClosedLoop.InsertsPerEvent | src/execution/simple_executor.cpp:17-27 | an event sends at most one insert per side, and only while the known position is within the limit of 80 |
| ClosedLoop.StepKeepsReports | src/execution/simple_executor.cpp:30-32 | a report, however late, limits the position by the inserts applied after it |
| ClosedLoop.StepKeepsInv | src/execution/simple_executor.cpp:17-32 | every allowed step of trader or exchange keeps the position invariant of its discipline |
| ClosedLoop.PositionIsBounded | src/execution/simple_executor.cpp:17-32 | the position stays within the bound of its discipline in every reachable state |
| ClosedLoop.WithinLimitExactly | src/execution/simple_executor.cpp:17-27 | in any run the position stays within 89 toward a side, and would if what rests there filled, if and only if each insert of the side is applied while the true position is below 80 |
| ClosedLoop.WaitingIsInLimit | src/execution/simple_executor.cpp:17-32 | knowing all fills toward a side when inserting, with fills waiting for inserts of their side, is enough for that |
| ClosedLoopTight.BoundIsReached | src/execution/simple_executor.cpp:17-32 | some run reaches that bound, on either side |
| ClosedLoopTight.PositionBoundIsExact | src/execution/simple_executor.cpp:17-32 | a limit holds in all reachable states if and only if it is at least the bound of the discipline: 89, 99 + 10 * ahead, or 89 + 10 * lag for lag at least 1 |
| ClosedLoopTight.AccurateReportsBoundNothing | src/execution/simple_executor.cpp:17-32 | if only the reports are up to date at each book update, and not the orders applied, the position passes any limit |

## Left out

- Sockets, polling, connection set-up and the login message: input and output. One complete message per read is assumed, and each is given as the whole 88-byte message record.
- `AutoTrader::onOrderStatusUpdate` and the decoding in front of it: the handler is empty.
- The sequence number of a book update and the two volume lists: the trader does not use them; the future position of a position update is decoded and ignored, as in the code.
- Signed overflow, which C++ leaves undefined, is excluded: the sum of the two best prices and the order id must stay in range (`Inbound.Adds`, and the bounds on `orderId` in `Bot`).
- Bot.SimpleExecutor.ExecuteTrades: the one C++ function is a cancelling method and two inserting ones here, called in that order.
- Bot.ReadBook: the host's byte-order conversion is a parameter, which `HandleOrderBookUpdate` sets to `ntohl` of a little-endian host.
- Exceptions thrown by `fn`, the scheduling helper and debug logging of `call_once`: no effect on the control word. New stores join the end of the modification order, and a compare-exchange that fails may see any entry not older than the last one seen.
- The inside of the kernel wait in `SpinLockDelay` and `SpinLockWake`: a delay may end at any time, a wake changes nothing that a step reads.
- `rotate_gcd` of range-v3: it is not reached when the rotated part is one element.
- Boost's dates and text formatting. Of its week numbers only this is used: consecutive weeks, Sunday to Saturday after the shift by a day, never share one.
- Interleave.Walk: a view over no ranges at all is excluded, since its cursor never reports the end and has nothing to read.
- Variadic lambdas, `let`, the short-circuiting `if_`, `and_`, `or_`, `is_valid` and deferred integral templates inside lambdas; deferred aliases other than `invoke`.
- `find_index`, `find`, `unique` and `substitutions_` of `meta.hpp`: only easy members.
- MetaLambdaScoping.LambdasAreLexicallyScoped: the depth of nested invocations is bounded by a parameter, as a compiler bounds template instantiation; the statement holds for every bound.
- Abseil's containers, the traits and concepts headers, tests, benchmarks and build scripts: wrappers or no behaviour of their own.
