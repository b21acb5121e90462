# Verified model of a cryptonote wallet and its helpers

This project models, in Dafny, the parts of the wallet in which the order of events, the cutting
of a byte stream or the pairing of a printer with a parser decides whether the result is right,
and proves what those parts are for. Every theorem is a for-all statement over all inputs or over
all runs; none has a bound of its own.

`dafny verify dfyconfig.toml` checks everything.

## What is modelled

**Pool and block tracking of the blockchain explorer** (`PoolUpdates.dfy`, `BlockUpdates.dfy`).
`poolChanged` is a state machine: every load, compare-and-swap (which may fail spuriously), lock,
request and completion is one step, threads interleave arbitrarily, and the node answers on
threads of its own. The main results are that one end-of-update duty travels through scope guards
and callbacks and is never lost or doubled, that no pool change goes unrequested, and that the
known set, and the set an observer rebuilds from its notices, converge to the pool of the node.
`localBlockchainUpdated` folds overlapping ranges of heights into reports; it is proved exactly
when every main-chain block is reported once and in order, and what is reported after the chain was
reorganised.

**The closable bounded queue** (`BlockingQueues.dfy`): locked steps, sets of sleeping and awakened
threads for both condition variables, spurious wake-ups. No wake-up is lost, values come out in
order, and each method returns only what it promises.

**Mining** (`Mining.dfy`, `StratumRequests.dfy`): workers that patch nonces into a local copy of
the shared job, an atomic counter that the client resets, and the request bookkeeping of the
Stratum client. The hash is an arbitrary function.

**The incremental HTTP reader** (`HttpHeaders.dfy`, `HttpBodies.dfy`, `HttpResponses.dfy`,
`HttpReader.dfy`, `ChunkedEncoder.dfy`): `getHTTPResponse` on arrays, with the receive buffer of
2048 bytes and buffers that are reallocated, is proved to compute a function of the received
segments; that function is proved to return the content for every plain and every chunked response
and every segmentation (sections 3.3.2 and 4.1 of RFC 7230). The encoder of the test server is
proved to print what the reader reads back.

**Parsers and printers**: minixml with the name/value collector and the SOAP printer
(`MiniXml.dfy`, `XmlDocuments.dfy`, `XmlTokens.dfy`, `UnquotedAttributes.dfy`, `NameValues.dfy`,
`SoapRequests.dfy`, the last on the buffer it writes to), amounts
(`Amounts.dfy`), messages with headers (`Messages.dfy`), the 7-bit length code
(`CodeLength.dfy`). Each has its round trip; amounts and length codes also have the other
direction.

**The incremental row index of the transaction table** (`TransactionRows.dfy`), proved equal to a
rebuild from scratch.

`Basics.dfy` and `Text.dfy` hold shared values: options, machine widths, hexadecimal digits, and
`QString` trimming, searching and number parsing.

## What the proofs found

Where a promise does not hold of the code, the code is modelled as it is; a lemma shows the
failure and another says exactly when the promise does hold.

- Answers to block requests in the opposite order report a block twice and move the recorded top
  back (`OutOfOrderReportsTwice`). A run in which every request is answered reports exactly the
  blocks above the start, once and in order, if and only if every answer went to the oldest pending
  request or to one for the same heights (`ReportedOnceIff`).
- A failed request, or an update while nobody observes, loses a range of heights. The next request
  starts at the last of them, so what is missed are the heights strictly inside the range
  (`LostRangeMisses`), for good (`MissedForGood`); a range with two new heights shows it
  (`InnerHeightLost`). A block is never reported if and only if the recorded height has passed it and
  neither a pending nor an answered request asked for it (`NeverReportedIff`).
- A reorganisation that reaches below the known top is reported only from the known height on
  (`ReorganisationReported`). All blocks from the fork on are told if and only if the chain forks at
  the known top (`ForkToldIff`).
- An answer to a block request whose heights are out of order can make a lower block the top although
  all blocks of the greatest height are orphaned (`LowerTopTold`). For any answer, `ToldIff` says when
  it is told and which block becomes the top.
- A failed request for transaction details leaves observers with an old picture of the pool
  (`LostDetailsHideHash`). What they rebuild differs from the known pool in exactly the hashes that
  lost notices have changed an odd number of times since the last told notice that names them
  (`RebuiltDiffersBy`).
- A job id that the pool uses again can make a worker send, under the new job, a share that does not
  solve it (`ReusedIdMislabels`). For every set of jobs a pool may issue, shares always solve the
  current job if and only if of any two jobs with one id the first cannot be solved, or they differ
  at most in the nonce bytes and the second is no harder (`SharesSolveCurrentIff`).
- A reused job id can also make the same pair of job id and nonce go out twice (`ReusedIdRepeats`), and
  so can a counter that goes round (`WrappedCounterRepeats`). If anything is drawn, no pair is sent twice if and
  only if no solvable job is followed by another with its id, and at most 2^32 nonces are drawn per
  period or no job is solvable (`SentTwiceIff`).
- A header block whose last `Content-Length` has a blank value, with nothing but white space after
  it, makes `atoi` read on into the body, so the result depends on how the response was cut. It is
  independent of that if and only if the block is not open-ended in this way
  (`SegmentationFreeIff`).
- A header key that contains a place marker `%0`, `%1` or `%2` is filled in when it is printed.
  Exactly the other keys read back with every value (`ReadsBackIff`).
- A transaction that cannot be found makes a later notification add rows twice. The index agrees
  with a reload if and only if no found transaction comes after such a gap (`AgreesIffNoGap`).
- Header names are compared over the length of the received name, so `C: 5` sets the content length
  (`AbbreviatedLength`). A line is read as its whole name says if and only if its name is no proper
  prefix of `content-length`, nor of `transfer-encoding` with a value that starts with `chunked`
  (`ReadByWholeNameIff`).
- A stray carriage return in front of a blank line hides it (`StrayReturnHidesBlank`). The first
  blank line is found if and only if the number of line-end characters directly before it is even
  (`FirstBlankFoundIff`).
- In minixml an unquoted attribute value directly before `>` makes the attribute list run on past the
  tag (`UnquotedRunsOn`). A tag is read as printed if and only if its last value is quoted or followed
  by white space (`TagReadIff`).
- The margin of 100 bytes does not keep a long SOAP argument inside the buffer (`LongValueLeaves`). It
  covers exactly the arguments that print as at most 101 bytes (`MarginCoversIff`), and `WithinIff`
  says for every request when all its writes stay inside.
- A chunk size of 2^31 or more, in 32 bits, is copied past the end of the segment
  (`EightDigitsLeave`). The copy stays inside if and only if the size line has fewer than eight digits
  or the eighth from the end is below 8 (`CopyStaysInsideIff`).
- A segment that ends inside a chunk extension can change the size of the chunk (`CutMisread`). It
  never does if and only if the hexadecimal digits the next segment starts with leave the size as it
  is, or both sizes are too large (`CutHarmlessIff`).
- A `Content-Length` beside chunking can cut the content short, depending on how the response was cut.
  The whole content is returned for every segmentation if and only if the announced length is not
  positive or not less than the content (`AlwaysWholeIff`).
- minixml drops a CDATA section with which the text ends; one that is not empty is data if and only if
  something follows it (`CdataFound`).
- The buffer of the chunked test response suffices for every draw of chunk sizes if and only if the
  content has at most 36 bytes (`AlwaysFitsIff`).
- Empty groups in front of a length code are swallowed without limit (`EmptyGroupsSkipped`); behind
  them any input takes at most 5 bytes (`AtMostFiveBytes`).

## How to read the specifications

A protocol module has a `State`, a `Step`, `Enabled` and `Apply`; `IsRun` says what a run is. A
module for imperative code has recursive functions that say what one pass of a loop does, and
methods or a class with the loops themselves, proved against those functions. Lemmas that take a
function parameter such as `rest` or `lines` use it as a name for the value of a recursive
function at every position.

## Model

| member | source | states |
|---|---|---|
| `PoolUpdates.AtMostOneChain` | cryptonote/src/BlockchainExplorer/BlockchainExplorer.cpp:526-647 | In every state of every run: the guard is off `NONE` exactly while one thread or one request owes an `endUpdate`, never two; the assertion in `endUpdate` cannot fail; the set sent with an outstanding request is still `knownPoolState` |
| `PoolUpdates.RunKeepsInv` | cryptonote/src/BlockchainExplorer/BlockchainExplorer.cpp:74-131 | Every reachable state has one owner of the end-of-update duty, a consistent mutex, and unchanged sent sets |
| `PoolUpdates.StepKeepsInv` | cryptonote/src/BlockchainExplorer/BlockchainExplorer.cpp:526-647 | Every step of every thread, of the node and of the environment keeps those invariants and moves the duty to the stated owner |
| `PoolUpdates.CasKeepsOwned` | cryptonote/src/BlockchainExplorer/BlockchainExplorer.cpp:74-109 | Both compare-and-swap loops, spurious failures included, take on, give up or leave the duty exactly as the new guard value says |
| `PoolUpdates.ThreadKeepsOwned` | cryptonote/src/BlockchainExplorer/BlockchainExplorer.cpp:526-641 | Calls, flag reads, loads, locking, leaving, a failed first request and a delivery leave the duty where it is |
| `PoolUpdates.HandoverKeepsOwned` | cryptonote/src/BlockchainExplorer/BlockchainExplorer.cpp:539-640 | Issuing a request hands the duty over to it, and its completion takes it back, also when the completion runs before the caller has reset its scope guard |
| `PoolUpdates.StepKeepsOwned` | cryptonote/src/BlockchainExplorer/BlockchainExplorer.cpp:526-647 | The duty has exactly one owner after every step |
| `PoolUpdates.StepKeepsLock` | cryptonote/src/BlockchainExplorer/BlockchainExplorer.cpp:541-583 | The mutex is held exactly by the thread that is inside a locked region |
| `PoolUpdates.StepKeepsEndAssertions` | cryptonote/src/BlockchainExplorer/BlockchainExplorer.cpp:100-109 | No thread in `endUpdate` has seen `NONE` |
| `PoolUpdates.StepKeepsSent` | cryptonote/src/BlockchainExplorer/BlockchainExplorer.cpp:549-596 | No step changes `knownPoolState` while a difference against it is outstanding |
| `PoolUpdates.NoPoolChangeLost` | cryptonote/src/BlockchainExplorer/BlockchainExplorer.cpp:526-537 | While observers are present and the node is synchronized, after a `poolChanged` call either a pool request has been issued since or the guard says `UPDATE_REQUIRED` or some thread is still going to issue one |
| `PoolUpdates.StepKeepsCovered` | cryptonote/src/BlockchainExplorer/BlockchainExplorer.cpp:74-109 | No step other than issuing a request drops that cover |
| `PoolUpdates.SettledMeansRequested` | cryptonote/src/BlockchainExplorer/BlockchainExplorer.cpp:643-647 | Once no thread and no request is left, every such call was followed by a request issued after it |
| `PoolUpdates.PoolView.FoldDifference` | cryptonote/src/BlockchainExplorer/BlockchainExplorer.cpp:577-597 | The two loops leave the known set with the answer folded in, and collect exactly the hashes really inserted and really erased |
| `PoolUpdates.FreshIsNew` | cryptonote/src/BlockchainExplorer/BlockchainExplorer.cpp:577-585 | A hash is reported as new exactly when it was answered as added and was not known |
| `PoolUpdates.GoneWasKnown` | cryptonote/src/BlockchainExplorer/BlockchainExplorer.cpp:587-597 | A hash is reported as gone exactly when it was answered as removed and was known then |
| `PoolUpdates.NoticeReplaysFold` | cryptonote/src/BlockchainExplorer/BlockchainExplorer.cpp:577-597 | Whatever the node answers, applying the notice to the old known set gives the new one |
| `PoolUpdates.NoticesRebuildKnownPool` | cryptonote/src/BlockchainExplorer/BlockchainExplorer.cpp:616-635 | If detail requests succeed with the requested details, replaying all delivered notices gives `knownPoolState` whenever none is on its way |
| `PoolUpdates.RunKeepsReplayable` | cryptonote/src/BlockchainExplorer/BlockchainExplorer.cpp:577-635 | At every moment the delivered notices and the one on its way add up to `knownPoolState` |
| `PoolUpdates.StepKeepsReplayable` | cryptonote/src/BlockchainExplorer/BlockchainExplorer.cpp:577-635 | Every step keeps that sum |
| `PoolUpdates.FoldReachesNodePool` | cryptonote/src/BlockchainExplorer/BlockchainExplorer.cpp:564-596 | Folding in an exact answer makes `knownPoolState` the pool the node had when it answered, in any run |
| `PoolUpdates.AnswerFits` | cryptonote/src/BlockchainExplorer/BlockchainExplorer.cpp:564-577 | An answer waiting for the mutex is still the exact difference to the pool of the moment it was given |
| `PoolUpdates.ObserversSeeNodePool` | cryptonote/src/BlockchainExplorer/BlockchainExplorer.cpp:526-647 | If the last pool change is announced while watched and the node answers exactly, then once everything has settled the known set and the set rebuilt from the notices are the pool of the node |
| `PoolUpdates.RunKeepsUpdateDue` | cryptonote/src/BlockchainExplorer/BlockchainExplorer.cpp:535-596 | From a request on, until the pool changes again, the known set is the pool or a difference is still to come |
| `PoolUpdates.HashReachesObservers` | cryptonote/src/BlockchainExplorer/BlockchainExplorer.cpp:526-647 | There is a run that meets every condition of the end-to-end theorem, settles, and tells the observers one hash |
| `PoolUpdates.RebuiltDiffersBy` | cryptonote/src/BlockchainExplorer/BlockchainExplorer.cpp:616-634 | If detail requests may fail: whenever no notice is on its way, the set observers rebuild differs from `knownPoolState` in exactly the hashes that lost notices have changed an odd number of times since the last told notice that names them |
| `PoolUpdates.StepKeepsDrifted` | cryptonote/src/BlockchainExplorer/BlockchainExplorer.cpp:526-647 | Every step keeps this account of the difference, with the notice on its way counted in |
| `PoolUpdates.LastNoticeLost` | cryptonote/src/BlockchainExplorer/BlockchainExplorer.cpp:620-625 | Of a hash in that difference the last notice that names it was lost |
| `PoolUpdates.TwoLossesCancel` | cryptonote/src/BlockchainExplorer/BlockchainExplorer.cpp:620-625 | A lost arrival and a lost removal of one hash cancel |
| `PoolUpdates.ObserversOffBy` | cryptonote/src/BlockchainExplorer/BlockchainExplorer.cpp:526-647 | End to end with failing detail requests: once everything has settled the explorer knows the pool of the node, and the rebuilt set differs from it in exactly those hashes |
| `PoolUpdates.LostDetailsHideHash` | cryptonote/src/BlockchainExplorer/BlockchainExplorer.cpp:620-625 | There is a run that settles with a known hash of which no observer was told |
| `PoolUpdates.UnwatchedDoesNothing` | cryptonote/src/BlockchainExplorer/BlockchainExplorer.cpp:531-533 | In every run without observers, or while the node is not synchronized, no pool request is issued, the guard stays `NONE`, nothing becomes known and nothing is told |
| `PoolUpdates.RequestWasWatched` | cryptonote/src/BlockchainExplorer/BlockchainExplorer.cpp:531-562 | Before every pool request, its thread has, since it last entered `poolChanged`, read that the node is synchronized and after that read that there are observers |
| `PoolUpdates.EveryNoticeTells` | cryptonote/src/BlockchainExplorer/BlockchainExplorer.cpp:627-632 | No notice ever delivered in any run is empty |
| `PoolUpdates.FreshInOrder` | cryptonote/src/BlockchainExplorer/BlockchainExplorer.cpp:577-585 | New hashes are reported without repetition, in the order of their first places in the answer |
| `PoolUpdates.GoneInOrder` | cryptonote/src/BlockchainExplorer/BlockchainExplorer.cpp:587-597 | So are the hashes gone |
| `PoolUpdates.LoopsAgainIff` | cryptonote/src/BlockchainExplorer/BlockchainExplorer.cpp:74-109 | A compare-and-swap loop goes round again if and only if the guard has changed since it was read or the exchange failed spuriously; a call that read `UPDATE_REQUIRED` leaves in any case |
| `PoolUpdates.LoopEnds` | cryptonote/src/BlockchainExplorer/BlockchainExplorer.cpp:74-109 | A failed exchange leaves the thread with the present guard, so the next one ends the loop unless it is disturbed or fails spuriously |
| `BlockUpdates.BlockTracker.constructor` | cryptonote/src/BlockchainExplorer/BlockchainExplorer.cpp:178-179 | After `init` the known height is the height of the known top |
| `BlockUpdates.BlockTracker.LocalBlockchainUpdated` | cryptonote/src/BlockchainExplorer/BlockchainExplorer.cpp:716-737 | Without observers only the height moves; otherwise the heights from the last requested one up to the new one are requested |
| `BlockUpdates.BlockTracker.BlocksArrived` | cryptonote/src/BlockchainExplorer/BlockchainExplorer.cpp:756-802 | The nested loops compute the scan of the answer against the known top; a failed request or an answer without a main-chain top changes nothing |
| `BlockUpdates.MainchainBlock` | cryptonote/src/BlockchainExplorer/BlockchainExplorer.cpp:332-346 | Finds the first block that is not orphaned, and fails exactly when all are |
| `BlockUpdates.ScanAnswer` | cryptonote/src/BlockchainExplorer/BlockchainExplorer.cpp:767-791 | On a truthful answer the scan ends with the main-chain block of the last height as top, and reports exactly the main-chain blocks that pass the test |
| `BlockUpdates.OrphansReported` | cryptonote/src/BlockchainExplorer/BlockchainExplorer.cpp:773-780 | Whatever the answer, exactly its orphaned blocks are reported as orphaned, in order |
| `BlockUpdates.ReportsExactlyAbove` | cryptonote/src/BlockchainExplorer/BlockchainExplorer.cpp:782-784 | A request reports exactly the main-chain blocks above the known top if and only if it starts at the height of the known top or one above |
| `BlockUpdates.AnswerReportsAbove` | cryptonote/src/BlockchainExplorer/BlockchainExplorer.cpp:767-800 | A request that starts at the known top reports exactly the blocks above it although it asks for the top again |
| `BlockUpdates.RunKeepsTracking` | cryptonote/src/BlockchainExplorer/BlockchainExplorer.cpp:716-802 | With every answer going to the oldest pending request, pending requests always join up from the known top to the last requested height and the reports so far are a gapless run |
| `BlockUpdates.OldestIsFirst` | cryptonote/src/BlockchainExplorer/BlockchainExplorer.cpp:733-737 | Among pending requests, one for the same heights as the oldest can be answered in its place: what stays pending is the same |
| `BlockUpdates.EveryBlockReportedOnce` | cryptonote/src/BlockchainExplorer/BlockchainExplorer.cpp:716-802 | On an append-only chain, with every answer going to the oldest request: what was reported is exactly the run of main-chain blocks above the start, each once and in order, and when nothing is pending the top is the block at the last requested height |
| `BlockUpdates.OtherAnswerDooms` | cryptonote/src/BlockchainExplorer/BlockchainExplorer.cpp:782-800 | An answer to another request than the oldest reports a higher block first and leaves the top elsewhere, so the start of the oldest range is owed too late |
| `BlockUpdates.StepStaysLost` | cryptonote/src/BlockchainExplorer/BlockchainExplorer.cpp:716-802 | From then on no step repairs it: a lower block is reported after a higher one, or will be |
| `BlockUpdates.ReportedOnceIff` | cryptonote/src/BlockchainExplorer/BlockchainExplorer.cpp:716-802 | A run in which every request gets its answer reports exactly the main-chain blocks above the start, once and in order, if and only if every answer went to the oldest pending request or one for the same heights |
| `BlockUpdates.RunKeepsAdvancing` | cryptonote/src/BlockchainExplorer/BlockchainExplorer.cpp:716-802 | With failed requests and heights that pass unobserved as well: pending ranges follow each other from the known top on, and reports ascend |
| `BlockUpdates.ReportedIffCovered` | cryptonote/src/BlockchainExplorer/BlockchainExplorer.cpp:721-761 | In such runs a block is reported if and only if an answered request asked for its height, always in ascending order, and nothing is missing if and only if answered requests cover every height above the start |
| `BlockUpdates.RunKeepsTold` | cryptonote/src/BlockchainExplorer/BlockchainExplorer.cpp:716-802 | With answers in any order, failures and unobserved heights: a block above the start has been reported if and only if an answered request asked for its height |
| `BlockUpdates.MissedForGood` | cryptonote/src/BlockchainExplorer/BlockchainExplorer.cpp:716-802 | A block that the recorded height has passed, that no pending request asks for and that was not reported, is in no later report, whatever happens |
| `BlockUpdates.NeverReportedIff` | cryptonote/src/BlockchainExplorer/BlockchainExplorer.cpp:716-802 | After any run a block above the start is never reported by any continuation, if and only if the recorded height has passed it and neither a pending nor an answered request asked for it |
| `BlockUpdates.LostRangeMisses` | cryptonote/src/BlockchainExplorer/BlockchainExplorer.cpp:721-761 | From a settled tracker: if the request up to some height fails, or that height passes unobserved, the next request leaves out exactly the heights strictly between the known top and that height |
| `BlockUpdates.InnerHeightLost` | cryptonote/src/BlockchainExplorer/BlockchainExplorer.cpp:721-761 | With a lost range of two new heights the lower one is missed, for good |
| `BlockUpdates.OutOfOrderReportsTwice` | cryptonote/src/BlockchainExplorer/BlockchainExplorer.cpp:755-802 | With two answers in the opposite order a block is reported twice and the recorded top goes back |
| `BlockUpdates.AllReportedIff` | cryptonote/src/BlockchainExplorer/BlockchainExplorer.cpp:782-784 | Whatever top is known, from whatever chain: all blocks of a truthful answer are reported if and only if none of them up to the known height carries the known hash |
| `BlockUpdates.KnownIsLeftOut` | cryptonote/src/BlockchainExplorer/BlockchainExplorer.cpp:782-784 | If exactly one of them does, it alone is left out |
| `BlockUpdates.ReorganisationReported` | cryptonote/src/BlockchainExplorer/BlockchainExplorer.cpp:733-800 | After the chain was reorganised below or at the known top, a request from the known height reports exactly the new blocks from that height on, and the new top is recorded |
| `BlockUpdates.ForkToldIff` | cryptonote/src/BlockchainExplorer/BlockchainExplorer.cpp:733-784 | All blocks from the fork on are reported if and only if the chain forks at the known top itself |
| `BlockUpdates.ToldIff` | cryptonote/src/BlockchainExplorer/BlockchainExplorer.cpp:768-800 | For any answer at all: it is told if and only if a main-chain block comes with or behind the first of its highest blocks, and the first such block becomes the top |
| `BlockUpdates.OrderedToldIff` | cryptonote/src/BlockchainExplorer/BlockchainExplorer.cpp:768-800 | With heights in order that is: if and only if one of its highest blocks is on the main chain, so an answer with only orphans at its greatest height is not told |
| `BlockUpdates.LowerTopTold` | cryptonote/src/BlockchainExplorer/BlockchainExplorer.cpp:775-789 | Out of order, a lower block is told as the top although all blocks of the greatest height are orphaned |
| `BlockUpdates.NothingTold` | cryptonote/src/BlockchainExplorer/BlockchainExplorer.cpp:768-800 | An answer without blocks is not told |
| `BlockingQueues.RunKeepsInv` | cryptonote/src/Common/BlockingQueue.h:24-74 | Every reachable state keeps order, capacity, the wake-up counts and the rules for closing |
| `BlockingQueues.StepKeepsInv` | cryptonote/src/Common/BlockingQueue.h:24-74 | Every locked step, every resumption and every spurious wake-up keeps them |
| `BlockingQueues.PushKeepsInv` | cryptonote/src/Common/BlockingQueue.h:24-38 | A push keeps them although the producer that resumed no longer counts as awake |
| `BlockingQueues.PopKeepsInv` | cryptonote/src/Common/BlockingQueue.h:40-61 | A pop keeps them although the consumer that resumed no longer counts as awake, whichever sleeper `notify_one` picks |
| `BlockingQueues.CloseKeepsInv` | cryptonote/src/Common/BlockingQueue.h:63-74 | Closing wakes every producer and consumer |
| `BlockingQueues.SpuriousKeepsInv` | cryptonote/src/Common/BlockingQueue.h:28-72 | A spurious wake-up keeps them |
| `BlockingQueues.FirstInFirstOut` | cryptonote/src/Common/BlockingQueue.h:24-61 | In every run the values popped followed by the values queued are the values pushed, in order, and the length never exceeds the capacity |
| `BlockingQueues.NoLostWakeUp` | cryptonote/src/Common/BlockingQueue.h:24-74 | A sleeping consumer means at most as much data as awakened consumers; a sleeping producer on an open queue at most as much space as awakened producers; after a close only closers sleep, and only on a nonempty queue |
| `BlockingQueues.SleepIsJustified` | cryptonote/src/Common/BlockingQueue.h:24-74 | If everybody inside sleeps, producers face a full open queue and consumers an empty open one, never both unless the capacity is 0; closers face a nonempty closed queue |
| `BlockingQueues.ClosedForGood` | cryptonote/src/Common/BlockingQueue.h:63-65 | A closed queue stays closed and accepts nothing |
| `BlockingQueues.PushReturns` | cryptonote/src/Common/BlockingQueue.h:24-38 | `push` returns true exactly when its own value joined the queue, never after a `close`, and returns false only when closed |
| `BlockingQueues.PopReturns` | cryptonote/src/Common/BlockingQueue.h:40-61 | `pop` returns the oldest value not yet taken, and false only when the queue is closed and everything pushed has been taken |
| `BlockingQueues.CloseReturns` | cryptonote/src/Common/BlockingQueue.h:63-74 | `close(true)` returns only when everything pushed has been popped |
| `BlockingQueues.BlockingQueue.constructor` | cryptonote/src/Common/BlockingQueue.h:20-21 | A new queue is empty, open, and has nobody waiting |
| `BlockingQueues.BlockingQueue.PushStep` | cryptonote/src/Common/BlockingQueue.h:24-38 | The code under the lock, called or resumed, is the push step of the protocol and keeps its invariant |
| `BlockingQueues.BlockingQueue.PopStep` | cryptonote/src/Common/BlockingQueue.h:40-61 | The code under the lock, called or resumed, is the pop step of the protocol and keeps its invariant |
| `BlockingQueues.BlockingQueue.NotifySpace` | cryptonote/src/Common/BlockingQueue.h:55-58 | `notify_all` empties both wait sets of the space condition, `notify_one` moves one sleeper |
| `BlockingQueues.BlockingQueue.CloseStep` | cryptonote/src/Common/BlockingQueue.h:63-74 | The code under the lock is the close step of the protocol and keeps its invariant |
| `BlockingQueues.BlockingQueue.CloseResumesStep` | cryptonote/src/Common/BlockingQueue.h:69-73 | A resumed `close(true)` goes back to sleep while the queue holds data, and keeps the invariant |
| `BlockingQueues.ValuePassesThrough` | cryptonote/src/Common/BlockingQueue.h:24-74 | There is a run in which a sleeping consumer is woken by a value, a closer waits until the value is taken, and everybody leaves |
| `BlockingQueues.ClosedIff` | cryptonote/src/Common/BlockingQueue.h:63-65 | In every run the queue is closed exactly if `close` was called before |
| `BlockingQueues.EveryStepIsDue` | cryptonote/src/Common/BlockingQueue.h:24-74 | How every step of every run ends is told by the history alone: a push is refused after a `close`, waits with `maxSize` values not yet taken, and is accepted otherwise; a pop gets the oldest value not taken, or else ends after a `close` and waits before; `close(false)` returns at once and `close(true)` as soon as everything is taken |
| `BlockingQueues.CallLeaves` | cryptonote/src/Common/BlockingQueue.h:24-74 | A thread is left inside the queue by its call exactly if that call waits, and never by `close(false)` |
| `Mining.Patch` | src/Worker.cpp:51 | Bytes 39 to 42 become the little-endian nonce and, in a blob long enough, no other byte and not the length change |
| `Mining.PatchOverwrites` | src/Worker.cpp:51 | Patching a patched blob is patching the original, whatever its length |
| `Mining.StepKeepsSound` | src/Worker.cpp:36-57 | Under every worker and client step, local blobs stay patched copies of an issued job and posted shares stay solutions of it |
| `Mining.RunKeepsSound` | src/Worker.cpp:36-57 | That holds in every reachable state |
| `Mining.SharesSolveIssuedJobs` | src/StratumClient.cpp:267-286 | Every share sent names the job current at submission by its id, and solves some job issued under that id: its result is the hash of the patched blob, and hash word 7 is below the target |
| `Mining.SharesSolveCurrentJob` | src/StratumClient.cpp:267-286 | If jobs under one id are solved by the same shares, every share sent solves the very job that was current when it was sent |
| `Mining.SharesSolveCurrentIff` | src/Worker.cpp:45-57 | For every set of jobs the pool may issue: in all runs with all hashes every share solves the job it is sent under, if and only if of two jobs with one id the first cannot be solved, or they differ at most in the nonce bytes and the second is no harder |
| `Mining.ReusedIdMislabels` | src/Worker.cpp:45-47 | For any two other jobs with one id there are a hash and a run that sends under the second a share that does not solve it |
| `Mining.StepKeepsFresh` | src/StratumClient.cpp:248-286 | With ids reused only after jobs that cannot be solved and at most 2^32 draws per period, no step makes two shares or workers carry the same draw |
| `Mining.AcceptedDrawIsCurrent` | src/StratumClient.cpp:267-271 | A share accepted under the current id was drawn in the period in which its job was copied, so draws of stale workers after a counter reset are never sent |
| `Mining.NoShareSentTwice` | src/StratumClient.cpp:248-286 | If the pool reuses an id only after jobs that cannot be solved, and at most 2^32 nonces are drawn per period, no pair of job id and nonce is sent twice |
| `Mining.SentTwiceIff` | src/StratumClient.cpp:248-286 | For every list of jobs and every bound on the draws per period: in all runs that issue the jobs in order, with all hashes, no pair is sent twice, if and only if the bound is 0, or no solvable job is followed by another with its id and the bound is at most 2^32 or no job is solvable |
| `Mining.ReusedIdRepeats` | src/Worker.cpp:45-56 | A solvable job followed by another with its id lets a run send the pair of that id and nonce 1 twice, with one draw per period |
| `Mining.WrappedCounterRepeats` | src/Worker.cpp:50-56 | With more than 2^32 draws in a period a pair is sent again under a single solvable job |
| `Mining.ShareIsSent` | src/Worker.cpp:31-58 | For every job that some nonce 1 hash solves there is a run that meets these conditions, sends that share and comes to rest |
| `Mining.WorkerTakesOver` | src/Worker.cpp:38-48 | In every run: after a look at a job the worker holds that id; a job it did not have is copied whole, and one it has keeps its patched copy |
| `Mining.WorkerWaits` | src/Worker.cpp:39-43 | Without a current job a look changes nothing |
| `Mining.SubmitsAll` | src/StratumClient.cpp:267-286 | From any reachable state, submitting all posted shares sends exactly those that name the current job, in order |
| `Mining.NextRoundSends` | src/Worker.cpp:36-58 | From any reachable state, one round of an idle worker and the submissions of all posts send, last, the share for the next nonce under the current job, if its hash is below the target |
| `Mining.PatchOfShort` | src/Worker.cpp:51 | A blob too short for the nonce is filled up with blanks in front of it and ends with it |
| `Mining.StoppedSendsNothing` | src/StratumClient.cpp:94-97 | From a stop of the client to the next job no share is sent, whatever the workers still report |
| `Mining.StoppedWorkerRests` | src/Worker.cpp:27-36 | A stopped worker takes no step until a worker is started in its place |
| `StratumRequests.StratumClient.constructor` | src/StratumClient.cpp:47-56 | A new client has sent nothing, has no session and no job |
| `StratumRequests.StratumClient.SendRequest` | src/StratumClient.cpp:198-216 | The request is written under the next id and entered in the map of active requests under that id |
| `StratumRequests.StratumClient.StopClient` | src/StratumClient.cpp:94-97 | The map, the session and the job are cleared and the id counter is kept |
| `StratumRequests.StratumClient.UpdateJob` | src/StratumClient.cpp:248-265 | An empty job id changes nothing; any other replaces the job and resets the nonce |
| `StratumRequests.StratumClient.ProcessLoginResponse` | src/StratumClient.cpp:227-242 | An error or a status other than OK stops the client; otherwise session and job are taken over |
| `StratumRequests.StratumClient.ProcessData` | src/StratumClient.cpp:168-190 | A message without id can only change the job; an unknown id changes nothing; a known id is taken out of the map, and only a login response does more |
| `StratumRequests.StratumClient.SubmitShare` | src/StratumClient.cpp:267-286 | A share is sent exactly when it names the current job, with session, job id, little-endian nonce and result |
| `StratumRequests.SubmittedShareIsReadable` | src/StratumClient.cpp:276-285 | Session, job id, nonce and result can be read back from the parameters |
| `StratumRequests.CounterCountsSends` | src/StratumClient.cpp:200 | While it does not wrap, the counter is the number of requests ever sent, across any number of stops |
| `StratumRequests.IdsIncrease` | src/StratumClient.cpp:198-211 | Ids strictly increase from 1, across reconnects |
| `StratumRequests.ActiveMeansOutstanding` | src/StratumClient.cpp:168-184 | An id is in the active map if and only if its request was sent after the last stop and has not been answered, and it leads to that request |
| `StratumRequests.AnsweredAtMostOnce` | src/StratumClient.cpp:168-184 | No id is ever answered twice |
| `StratumRequests.UnknownIdChangesNothing` | src/StratumClient.cpp:174-177 | A response whose id is late, unknown or zero leaves the books as they are |
| `StratumRequests.ResponseFindsIff` | src/StratumClient.cpp:173-179 | A response finds a request if and only if its id is a string that spells, up to white space, a plus sign and leading zeros, the number of a request still outstanding; any other id, malformed ones included, finds none |
| `StratumRequests.EchoedIdIsTheId` | src/StratumClient.cpp:173-200 | The printed id, echoed, reads as the id |
| `StratumRequests.HexIsLower` | src/StratumClient.cpp:283-284 | Nonce and result are printed as two lower-case digits for each byte |
| `HttpHeaders.HeaderEndIsBlank` | cryptonote/external/miniupnpc/miniwget.c:101-123 | A header block that is found ends with LF LF or CR LF CR LF |
| `HttpHeaders.FirstBlankFoundIff` | cryptonote/external/miniupnpc/miniwget.c:101-123 | The first blank line in the buffer, of either kind, is the one that is found if and only if the number of CR and LF characters directly before it is even |
| `HttpHeaders.StrayReturnHidesBlank` | cryptonote/external/miniupnpc/miniwget.c:101-123 | A stray CR in front hides a blank line from the search |
| `HttpHeaders.HeaderEndStable` | cryptonote/external/miniupnpc/miniwget.c:101-123 | Bytes received later do not move the end of the headers, and an end within a prefix is found in that prefix |
| `HttpHeaders.FieldsLocal` | cryptonote/external/miniupnpc/miniwget.c:126-168 | Unless the header block is open-ended, bytes behind it do not change what it says |
| `HttpHeaders.OpenEndedReadsOn` | cryptonote/external/miniupnpc/miniwget.c:147-149 | The content length of an open-ended block is the number that whatever follows it starts with |
| `HttpHeaders.PrintedEnd` | cryptonote/external/miniupnpc/miniwget.c:101-123 | The end of a printed header is found where it is |
| `HttpHeaders.PrintedLinesSay` | cryptonote/external/miniupnpc/miniwget.c:126-168 | The loop reads every printed line as its name and its value |
| `HttpHeaders.PrintedHeader` | cryptonote/external/miniupnpc/miniwget.c:101-168 | A printed header is found whole, says what its lines say, and is not open-ended |
| `HttpHeaders.ReadByWholeNameIff` | cryptonote/external/miniupnpc/miniwget.c:145-157 | A named line is read as its whole name says if and only if its name is no proper prefix, up to case, of content-length, nor of transfer-encoding with a value that starts with chunked |
| `HttpHeaders.AbbreviatedLength` | cryptonote/external/miniupnpc/miniwget.c:145-149 | The header line `C: 5` sets the content length |
| `HttpHeaders.AtoiReads` | cryptonote/external/miniupnpc/miniwget.c:148 | White space, a sign, leading zeros, a printed number and anything that is no digit are read as that number |
| `HttpHeaders.AtoiOther` | cryptonote/external/miniupnpc/miniwget.c:148 | A value with no number behind white space and sign is read as 0 |
| `HttpHeaders.LastLengthDecides` | cryptonote/external/miniupnpc/miniwget.c:146-149 | Of several length lines in a header that is not chunked the last one decides |
| `HttpHeaders.NameMatchesIff` | cryptonote/external/miniupnpc/miniwget.c:146-153 | A header name is compared without regard to letter case, over the length of the name received |
| `HttpHeaders.StartsWithIff` | cryptonote/external/miniupnpc/miniwget.c:154 | A value is chunked if it starts with `chunked` in any letter case |
| `HttpBodies.HexValueOfHex` | cryptonote/external/miniupnpc/miniwget.c:201-208 | The size loop reads back what `%x` prints |
| `HttpBodies.DataByte` | cryptonote/external/miniupnpc/miniwget.c:228-242 | Copying the bytes of a chunk in one go is copying them one at a time |
| `HttpBodies.SizeLf` | cryptonote/external/miniupnpc/miniwget.c:200-226 | A line feed turns the collected digits into the chunk size, ends the body when it is 0, and otherwise goes on with the data |
| `HttpBodies.DecodesByteByByte` | cryptonote/external/miniupnpc/miniwget.c:180-243 | Anywhere in an encoded stream, decoding a segment is decoding its first byte and then the others |
| `HttpBodies.SegmentDecodes` | cryptonote/external/miniupnpc/miniwget.c:180-243 | Any segment of an encoded stream leaves the decoder at the right place further on with nothing lost, or completes the content |
| `HttpBodies.CopyFitsIff` | cryptonote/external/miniupnpc/miniwget.c:228 | The count handed to `memcpy` stays within the segment if and only if the size is below 2^31, and is then the lesser of both |
| `HttpBodies.CopyStaysInsideIff` | cryptonote/external/miniupnpc/miniwget.c:186-239 | In terms of the size line: the copy stays inside if and only if the line has fewer than eight digits or its eighth digit from the end is below 8 |
| `HttpBodies.EightDigitsLeave` | cryptonote/external/miniupnpc/miniwget.c:228-239 | After the size line `80000000` the copy leaves every segment |
| `HttpBodies.TooLargeIff` | cryptonote/external/miniupnpc/miniwget.c:186-239 | The decoder stops as too large exactly at a complete size line that is not of this kind |
| `HttpBodies.HexValueIgnoresCase` | cryptonote/external/miniupnpc/miniwget.c:203-208 | Capital digits of a chunk size count like small ones |
| `HttpBodies.ExtensionIgnored` | cryptonote/external/miniupnpc/miniwget.c:190-199 | A chunk extension that arrives together with its size changes nothing |
| `HttpBodies.SplitExtension` | cryptonote/external/miniupnpc/miniwget.c:184-199 | If the segment ends inside the extension, the hexadecimal digits the next segment starts with are taken for further digits of the size |
| `HttpBodies.CutHarmlessIff` | cryptonote/external/miniupnpc/miniwget.c:184-214 | Such a cut never changes what is decoded if and only if those digits leave the size as it is, or both sizes are too large |
| `HttpBodies.CutMisread` | cryptonote/external/miniupnpc/miniwget.c:184-214 | `5;a` and its line end, cut behind the semicolon, are misread |
| `HttpResponses.PlainResponse` | cryptonote/external/miniupnpc/miniwget.c:87-275 | A plain response gives the first min(L, body) bytes with Content-Length L > 0 and the whole body without, however it was cut into segments |
| `HttpResponses.NoHeaderNoContent` | cryptonote/external/miniupnpc/miniwget.c:124-125 | Without a complete header block nothing is returned, and what arrived is kept |
| `HttpResponses.OpenEndedMatters` | cryptonote/external/miniupnpc/miniwget.c:147-149 | For every open-ended plain header block there are two ways to receive the same bytes with different results |
| `HttpResponses.SegmentationFreeIff` | cryptonote/external/miniupnpc/miniwget.c:87-275 | For plain responses the result is independent of the segmentation if and only if the header block is not open-ended |
| `HttpResponses.ChunkedRead` | cryptonote/external/miniupnpc/miniwget.c:177-243 | From anywhere in an encoded stream, any segments of the rest of it complete exactly the content still owed, or stop within it at the end of a segment with at least the announced length |
| `HttpResponses.ChunkedResponse` | cryptonote/external/miniupnpc/miniwget.c:87-243 | Chunked round trip: any content, any nonempty chunks below 2^31 bytes, any segmentation gives the content, also beside a length that it does not exceed (section 4.1 of RFC 7230) |
| `HttpResponses.AnnouncedResponse` | cryptonote/external/miniupnpc/miniwget.c:87-276 | For every printed header that is not chunked and whose last length line carries a printed number n, and every segmentation: the first n bytes of the body are returned, or all of them if there are no more or n is 0 |
| `HttpResponses.UnannouncedResponse` | cryptonote/external/miniupnpc/miniwget.c:87-276 | Without a length line the whole body is returned |
| `HttpResponses.AlwaysWholeIff` | cryptonote/external/miniupnpc/miniwget.c:177-276 | With a header that is chunked and may announce a length as well, the whole content is returned for every segmentation if and only if the length is not positive or not less than the content |
| `HttpReader.LeftAtEol` | cryptonote/external/miniupnpc/miniwget.c:137-166 | At a line end the loop recognises the line it has seen and goes on behind all line ends |
| `HttpReader.Reallocate` | cryptonote/external/miniupnpc/miniwget.c:96-237 | `realloc` keeps the bytes in use |
| `HttpReader.CopyBytes` | cryptonote/external/miniupnpc/miniwget.c:99-263 | `memcpy` appends within the buffer |
| `HttpReader.DigitValue` | cryptonote/external/miniupnpc/miniwget.c:203-207 | The digit arithmetic is the value of a hexadecimal digit |
| `HttpReader.ResponseReader.constructor` | cryptonote/external/miniupnpc/miniwget.c:66-85 | The initial buffers are the initial reader state |
| `HttpReader.ResponseReader.AppendHeader` | cryptonote/external/miniupnpc/miniwget.c:95-100 | The received bytes are appended, within a buffer that grows when needed |
| `HttpReader.ResponseReader.AppendContent` | cryptonote/external/miniupnpc/miniwget.c:229-240 | The bytes are appended, within a buffer that grows to the announced length or to what is needed |
| `HttpReader.ResponseReader.FindEnd` | cryptonote/external/miniupnpc/miniwget.c:103-123 | The loop computes the end of the headers |
| `HttpReader.ResponseReader.PassBlanks` | cryptonote/external/miniupnpc/miniwget.c:131-134 | The loop stops at the last blank behind the colon |
| `HttpReader.ResponseReader.PassEols` | cryptonote/external/miniupnpc/miniwget.c:162-163 | The loop passes all line ends |
| `HttpReader.ResponseReader.RecogniseLine` | cryptonote/external/miniupnpc/miniwget.c:145-160 | The two name tests are those of the specification |
| `HttpReader.ResponseReader.EndLine` | cryptonote/external/miniupnpc/miniwget.c:139-161 | Only a line with a name and a value is tested |
| `HttpReader.ResponseReader.ParseFields` | cryptonote/external/miniupnpc/miniwget.c:127-168 | The loop computes what the header lines say |
| `HttpReader.ResponseReader.CollectDigits` | cryptonote/external/miniupnpc/miniwget.c:190-196 | At most 31 hexadecimal digits are collected, across segments |
| `HttpReader.ResponseReader.PassExtension` | cryptonote/external/miniupnpc/miniwget.c:197-198 | Everything up to the line end is passed |
| `HttpReader.ResponseReader.PassOne` | cryptonote/external/miniupnpc/miniwget.c:199 | At most one such byte is passed |
| `HttpReader.ResponseReader.ReadSizeLine` | cryptonote/external/miniupnpc/miniwget.c:186-199 | A size line, or what the segment holds of it, is read |
| `HttpReader.ResponseReader.SizeValue` | cryptonote/external/miniupnpc/miniwget.c:201-208 | The loop computes the size in 32 bits |
| `HttpReader.ResponseReader.CopyChunk` | cryptonote/external/miniupnpc/miniwget.c:228-242 | What the segment holds of the chunk is appended |
| `HttpReader.ResponseReader.BeginChunk` | cryptonote/external/miniupnpc/miniwget.c:200-211 | The collected digits become the chunk size |
| `HttpReader.ResponseReader.ChunkPass` | cryptonote/external/miniupnpc/miniwget.c:180-243 | One pass through the loop is one pass of the specification |
| `HttpReader.ResponseReader.ReadChunks` | cryptonote/external/miniupnpc/miniwget.c:177-244 | The loop over a segment is the chunked decoder |
| `HttpReader.ResponseReader.ReadPlain` | cryptonote/external/miniupnpc/miniwget.c:247-265 | Bytes beyond the announced length are dropped |
| `HttpReader.ResponseReader.ReadBody` | cryptonote/external/miniupnpc/miniwget.c:174-275 | A segment is read as the specification reads it, the length check included |
| `HttpReader.ResponseReader.ReadHeader` | cryptonote/external/miniupnpc/miniwget.c:89-168 | The header block is searched in everything received and parsed once it is complete |
| `HttpReader.ResponseReader.MoveBody` | cryptonote/external/miniupnpc/miniwget.c:169-172 | What followed the headers goes back to the receive buffer |
| `HttpReader.ResponseReader.ReceiveSegment` | cryptonote/external/miniupnpc/miniwget.c:87-275 | One pass through the receive loop is one step of the specification |
| `HttpReader.ReceiveData` | cryptonote/external/miniupnpc/miniwget.c:87 | A segment arrives at the front of the receive buffer |
| `HttpReader.GetHttpResponse` | cryptonote/external/miniupnpc/miniwget.c:62-285 | For segments of 1 to 2048 bytes the buffers end up holding exactly the specified response, and every array write on the way is in bounds |
| `ChunkedEncoder.PrintChunks` | cryptonote/external/miniupnpc/minihttptestserver.c:116-136 | The loop prints the chunked encoding of chunks of 1 to 199 bytes that make up the content |
| `ChunkedEncoder.BuildChunkedResponse` | cryptonote/external/miniupnpc/minihttptestserver.c:97-142 | The response is the fixed header followed by that encoding |
| `ChunkedEncoder.ResponseLinesMean` | cryptonote/external/miniupnpc/minihttptestserver.c:106-110 | The fixed header is well formed and says chunked, without a length |
| `ChunkedEncoder.EncodedIsReadBack` | cryptonote/external/miniupnpc/minihttptestserver.c:97-142 | Whatever the encoder printed, received in any segments, is read back as the content |
| `ChunkedEncoder.AlwaysFitsIff` | cryptonote/external/miniupnpc/minihttptestserver.c:103-136 | The response fits the buffer allocated for it, whatever sizes are drawn, if and only if the content has at most 36 bytes |
| `MiniXml.XmlParser.constructor` | cryptonote/external/miniupnpc/minixml.c:222-226 | The cursor starts at the front |
| `MiniXml.XmlParser.ScanTo` | cryptonote/external/miniupnpc/minixml.c:54-59 | The scanning loop stops at the next such place or gives up at the limit |
| `MiniXml.XmlParser.ParseOneAtt` | cryptonote/external/miniupnpc/minixml.c:49-103 | One attribute is reported with its name and value, quoted or not |
| `MiniXml.XmlParser.ParseAtt` | cryptonote/external/miniupnpc/minixml.c:39-106 | The attribute list is reported in order up to the end of the tag |
| `MiniXml.XmlParser.ScanNameTo` | cryptonote/external/miniupnpc/minixml.c:131-145 | The name is what follows the last namespace colon |
| `MiniXml.XmlParser.ParseCharacterData` | cryptonote/external/miniupnpc/minixml.c:166-183 | A CDATA section is reported without its brackets |
| `MiniXml.XmlParser.ParsePlainData` | cryptonote/external/miniupnpc/minixml.c:187-194 | Text is reported exactly when it is nonempty and an end tag follows |
| `MiniXml.XmlParser.ParseElementData` | cryptonote/external/miniupnpc/minixml.c:154-195 | White space in front decides nothing but where CDATA is looked for |
| `MiniXml.XmlParser.ParseRestOfStartTag` | cryptonote/external/miniupnpc/minixml.c:150-196 | Attributes, then data unless the tag closes itself |
| `MiniXml.XmlParser.ParseEndTag` | cryptonote/external/miniupnpc/minixml.c:198-212 | The end tag is reported with its whole name |
| `MiniXml.XmlParser.ParseTag` | cryptonote/external/miniupnpc/minixml.c:129-213 | A start tag, an end tag or neither |
| `MiniXml.XmlParser.ParsePass` | cryptonote/external/miniupnpc/minixml.c:116-217 | One pass through the loop is one pass of the specification |
| `MiniXml.XmlParser.ParseXml` | cryptonote/external/miniupnpc/minixml.c:222-227 | All events of the buffer are reported, in order |
| `XmlDocuments.AttsFound` | cryptonote/external/miniupnpc/minixml.c:39-106 | A printed attribute list is reported in order |
| `XmlDocuments.DataFound` | cryptonote/external/miniupnpc/minixml.c:154-195 | Text between tags is reported exactly when it is nonempty and stands before an end tag |
| `XmlDocuments.OpenFound` | cryptonote/external/miniupnpc/minixml.c:129-152 | A printed start tag is reported without its prefix, with all its attributes |
| `XmlDocuments.CloseFound` | cryptonote/external/miniupnpc/minixml.c:198-212 | A printed end tag is reported |
| `XmlDocuments.DocFound` | cryptonote/external/miniupnpc/minixml.c:110-219 | From the start of a printed document, what is reported is its events followed by those of the rest |
| `XmlDocuments.PrintedDocumentParses` | cryptonote/external/miniupnpc/minixml.c:110-227 | For every document tree, parsing the printed document, with any declaration before and any text after it, reports its start tags, attributes, leaf texts and end tags in document order |
| `XmlTokens.CommentPassed` | cryptonote/external/miniupnpc/minixml.c:116-128 | A comment is passed over, wherever it stands, also at the very end |
| `XmlTokens.EmptyPassed` | cryptonote/external/miniupnpc/minixml.c:129-152 | A self-closing tag is reported with its attributes and without an end |
| `XmlTokens.CdataFound` | cryptonote/external/miniupnpc/minixml.c:164-184 | A CDATA section behind a start tag is reported as data if and only if it is not empty and something follows it |
| `XmlTokens.TextParses` | cryptonote/external/miniupnpc/minixml.c:110-227 | For every text made of start tags, end tags, self-closing tags, comments, CDATA sections, processing instructions, stray `<` and characters, in any order and with tags that need not match, exactly its events are reported, in order |
| `UnquotedAttributes.TagReadIff` | cryptonote/external/miniupnpc/minixml.c:39-106 | With quoted and unquoted values in any mixture, the attributes of a start tag are read as printed and up to its own `>`, if and only if the last value is quoted or white space follows it |
| `UnquotedAttributes.UnquotedRunsOn` | cryptonote/external/miniupnpc/minixml.c:86-103 | In `<a b=c>text</a>` the attribute list runs on past the tag, and text and end tag are lost |
| `UnquotedAttributes.SpacedAttributeRead` | cryptonote/external/miniupnpc/minixml.c:51-101 | An attribute with white space around its `=` and its value in quotes of either kind is read whole |
| `NameValues.NameValueData.StartElement` | cryptonote/external/miniupnpc/upnpreplyparse.c:15-26 | The name is kept up to 63 characters and pending data is dropped |
| `NameValues.NameValueData.EndElement` | cryptonote/external/miniupnpc/upnpreplyparse.c:28-61 | Only the first end after a start records, at the head of the list, with the value cut to 127 characters, and never for NewPortListing |
| `NameValues.NameValueData.GetData` | cryptonote/external/miniupnpc/upnpreplyparse.c:63-86 | Data goes to the port listing for NewPortListing and is pending otherwise |
| `NameValues.NameValueData.ParseNameValue` | cryptonote/external/miniupnpc/upnpreplyparse.c:88-105 | The data ends up as the handlers leave it after all events of the buffer |
| `NameValues.NameValueData.GetValueFromNameValueList` | cryptonote/external/miniupnpc/upnpreplyparse.c:124-138 | The loop returns the first value in the list under that name |
| `NameValues.DocCollected` | cryptonote/external/miniupnpc/upnpreplyparse.c:15-86 | A document leaves exactly its leaf elements in the list, the last one first, from any state of the collector |
| `NameValues.LookupFindsLast` | cryptonote/external/miniupnpc/upnpreplyparse.c:124-138 | The lookup answers with the last leaf of that name, cut to 127 characters, or with nothing if there is none |
| `NameValues.ListingIsLast` | cryptonote/external/miniupnpc/upnpreplyparse.c:67-79 | The port listing is the whole text of the last nonempty leaf called NewPortListing |
| `NameValues.PrintedReplyLookup` | cryptonote/external/miniupnpc/upnpreplyparse.c:88-138 | Reading any printed reply, the lookup answers with the last leaf of that name, NewPortListing excepted |
| `NameValues.CStringIs` | cryptonote/external/miniupnpc/upnpreplyparse.c:20-23 | A buffer for n characters holds the longest start of the text that fits and has no NUL |
| `NameValues.LookupWhole` | cryptonote/external/miniupnpc/upnpreplyparse.c:15-138 | If names have at most 63 and texts at most 127 characters and no NUL, a lookup gives the whole text of the last leaf of that name, or nothing if there is no such leaf |
| `NameValues.ListingNotLookedUp` | cryptonote/external/miniupnpc/upnpreplyparse.c:37-57 | NewPortListing itself is never found in the list |
| `SoapRequests.AppendArguments` | cryptonote/external/miniupnpc/miniupnpc.c:171-197 | The loop puts the printed arguments behind the opening in the buffer of 2048 bytes, or gives up exactly when the margin of 100 bytes is used up before one of them; it is called only when every write stays inside |
| `SoapRequests.BuildSoapBody` | cryptonote/external/miniupnpc/miniupnpc.c:145-207 | The buffer holds the envelope around the printed arguments, cut at its end and ended by NUL where there is room; without a list of arguments it is cut one byte earlier |
| `SoapRequests.WithinIff` | cryptonote/external/miniupnpc/miniupnpc.c:171-207 | For every list of arguments, also one that the loop gives up on: every write stays inside the buffer if and only if nothing is written behind the opening, or the printed arguments, with the start of the end tag if these are all, end inside |
| `SoapRequests.PrintedHasMargin` | cryptonote/external/miniupnpc/miniupnpc.c:171-178 | In front of exactly the arguments that are printed there is a margin of more than 100 bytes |
| `SoapRequests.MarginCoversIff` | cryptonote/external/miniupnpc/miniupnpc.c:174-178 | The margin keeps an argument inside wherever it is written if and only if the argument prints as at most 101 bytes |
| `SoapRequests.ShortArgumentsStay` | cryptonote/external/miniupnpc/miniupnpc.c:171-207 | Arguments of at most 101 bytes, the last together with the start of the end tag, always stay inside |
| `SoapRequests.LongValueLeaves` | cryptonote/external/miniupnpc/miniupnpc.c:183-187 | One value of 2048 bytes passes the check of the margin and does not stay inside; with a further argument the loop then gives up, too late |
| `SoapRequests.BodyIsDocument` | cryptonote/external/miniupnpc/miniupnpc.c:145-207 | The printed body is a printed document behind its declaration |
| `SoapRequests.ArgumentsReadBack` | cryptonote/external/miniupnpc/miniupnpc.c:145-207 | Read by the parser and the collector, the body gives for every name the value of the last argument of that name |
| `Amounts.PadAmount` | src/CurrencyAdapter.cpp:73-76 | The digits are padded to one more than the number of decimals |
| `Amounts.DropTrailingZeros` | src/CurrencyAdapter.cpp:79-85 | The loop drops trailing zeros but keeps two decimals |
| `Amounts.InsertCommas` | src/CurrencyAdapter.cpp:88-92 | The loop groups the digits before the point |
| `Amounts.PlacePoint` | src/CurrencyAdapter.cpp:78-92 | Digits with a point at a given place |
| `Amounts.FormatAmount` | src/CurrencyAdapter.cpp:72-95 | The text is that of the specification |
| `Amounts.DropSpareZeros` | src/CurrencyAdapter.cpp:105-108 | The loop drops zeros beyond the last decimal place |
| `Amounts.ParseDigits` | src/CurrencyAdapter.cpp:119-127 | Empty text gives 0, anything else is scaled and read |
| `Amounts.RemovePoint` | src/CurrencyAdapter.cpp:102-118 | Too many decimals give 0 |
| `Amounts.ParseAmount` | src/CurrencyAdapter.cpp:97-128 | The number is that of the specification |
| `Amounts.ParseIsExact` | src/CurrencyAdapter.cpp:97-128 | For digits with a point, the result is the exact decimal value in units of 10^-d when that is a natural number below 2^64, and 0 otherwise |
| `Amounts.WholeParseIsExact` | src/CurrencyAdapter.cpp:97-128 | The same for a text without a point, the empty one included |
| `Amounts.CommasEveryThree` | src/CurrencyAdapter.cpp:88-92 | Counted from the right every fourth character is a comma and all others are digits: groups of exactly three after the first |
| `Amounts.FractionKeeps` | src/CurrencyAdapter.cpp:79-85 | Only zeros are dropped, at least two decimals are kept where there are two, and a longer fraction ends in a nonzero digit |
| `Amounts.FormatParses` | src/CurrencyAdapter.cpp:72-128 | For every amount below 2^64 and every number of decimals, parsing the printed amount gives the amount |
| `Text.ParsesIffSpelled` | src/StratumClient.cpp:173 | A positive number is read from exactly the strings that spell it in this way |
| `Text.DigitsParse` | src/CurrencyAdapter.cpp:127 | Digits with any number of leading zeros are read as their value |
| `Text.TrimDrops` | src/gui/Message.cpp:42 | Trimming takes away all white space at both ends and nothing else |
| `Messages.MakeHeaderText` | src/gui/Message.cpp:90-93 | The loop prints the header lines in order |
| `Messages.MakeTextMessage` | src/gui/Message.cpp:89-102 | Header lines, an empty line if there are any, and the body |
| `Messages.ParseMessage` | src/gui/Message.cpp:18-46 | The loops compute header and remaining text: an empty line ends the header, a line without colon voids it, and without an empty line the text stays |
| `Messages.GetHeaderValue` | src/gui/Message.cpp:73-81 | The value of the first entry whose key matches up to case, or nothing |
| `Messages.HeaderLineIs` | src/gui/Message.cpp:92 | For keys without the markers `%0` to `%2`, `arg` prints key, colon, blank and value |
| `Messages.PrintedMessageParses` | src/gui/Message.cpp:18-102 | For a nonempty list of one-line trimmed headers and any body, parsing the printed message gives back list and body |
| `Messages.MarkedKeyLost` | src/gui/Message.cpp:92 | A key with such a marker, printed with an empty value, never reads back |
| `Messages.ReadsBackIff` | src/gui/Message.cpp:18-102 | A one-line key survives printing and parsing with every value and body if and only if it has none of the markers `%0` to `%2` |
| `Messages.NoPercentInert` | src/gui/Message.cpp:92 | Keys free of `%` have no such marker |
| `Messages.SplitsIntoLines` | src/gui/Message.cpp:29-31 | Every text is made of lines that end in LF or CR LF, the last perhaps in nothing or CR |
| `Messages.ParsedByLines` | src/gui/Message.cpp:18-46 | For every text, from its first character that is not white: every line before the first empty line is a header and the message is what follows that line, or the whole text if there is none; but if one of those lines has no colon there is no header and the text stays |
| `Messages.NoHeaderIff` | src/gui/Message.cpp:25-40 | There is no header if and only if the text is all white or a line before the first empty line has no colon |
| `Messages.NoHeaderKeepsText` | src/gui/Message.cpp:18-46 | A message without headers keeps its text, for every text |
| `Messages.NoHeaderPrintsText` | src/gui/Message.cpp:69-71 | Its full message is that text again |
| `Messages.HeaderOfParts` | src/gui/Message.cpp:37-42 | A header is what stands before the first colon and what stands behind it up to the next colon, both trimmed |
| `Messages.TokensOfShown` | src/gui/Message.cpp:92 | For every text written as characters and place markers, `arg` finds exactly those markers |
| `Messages.ArgFills` | src/gui/Message.cpp:92 | `arg` puts the value for every marker with the lowest number and leaves everything else |
| `Messages.ArgWithoutMarkers` | src/gui/Message.cpp:92 | Without markers the text stays |
| `TransactionRows.TransactionsModel.constructor` | src/gui/TransactionsModel.cpp:515-521 | A new table is empty |
| `TransactionRows.TransactionsModel.AppendTransactionRows` | src/gui/TransactionsModel.cpp:453-477 | A transaction that is found gets one row per transfer, or one row without transfer, and its index entry; the count moves by the rows added |
| `TransactionRows.TransactionsModel.AppendTransaction` | src/gui/TransactionsModel.cpp:479-498 | A known id changes nothing; otherwise all ids from the number of index entries to the given one are appended, and the announced rows are the added ones |
| `TransactionRows.TransactionsModel.ReloadWalletTransactions` | src/gui/TransactionsModel.cpp:434-451 | The table is rebuilt from all transactions |
| `TransactionRows.TransactionsModel.ResetModel` | src/gui/TransactionsModel.cpp:515-521 | The table is emptied |
| `TransactionRows.NotifyKeeps` | src/gui/TransactionsModel.cpp:479-498 | Without a gap in the lookups a notification takes a reloaded table to the reloaded table of the larger extent |
| `TransactionRows.AgreesIffNoGap` | src/gui/TransactionsModel.cpp:434-498 | Every sequence of notifications, reloads and resets leaves what a reload leaves, if and only if below the last id no transaction that is found comes after one that is not |
| `TransactionRows.GapRepeatsRows` | src/gui/TransactionsModel.cpp:488-491 | After any gap two notifications already add rows twice |
| `TransactionRows.RowsInOrder` | src/gui/TransactionsModel.cpp:461-476 | In a reloaded table each transaction has its own rows, right behind those of the transactions before it, and the index says where |
| `TransactionRows.RowHasOneOwner` | src/gui/TransactionsModel.cpp:461-476 | Every row belongs to exactly one transaction |
| `TransactionRows.FoundAgrees` | src/gui/TransactionsModel.cpp:434-498 | With all lookups successful, any notifications, out of order or repeated, leave the reloaded rows and index, whose ranges follow one another in id order and end with the rows |
| `TransactionRows.RowShows` | src/gui/TransactionsModel.cpp:461-476 | In a reloaded table row k of a transaction stands right behind the rows of those before it, counted from the wallet alone, and shows its k-th transfer, or none if it has no transfers |
| `TransactionRows.NoOtherRows` | src/gui/TransactionsModel.cpp:434-476 | The table has no other rows |
| `CodeLength.EncodeLength` | cryptonote/external/miniupnpc/codelength.h:24-28 | The bytes written are the code of n, and no other byte of the buffer changes |
| `CodeLength.DecodeLengthCheckLimit` | cryptonote/external/miniupnpc/codelength.h:17-22 | The loop computes the decoding up to the limit, with an accumulator below 2^32 throughout |
| `CodeLength.DecodeLength` | cryptonote/external/miniupnpc/codelength.h:13-15 | The same without a limit, for codes that end inside the buffer |
| `CodeLength.EncodeIsCode` | cryptonote/external/miniupnpc/codelength.h:24-28 | The five cases are the general 7-bit code, of 1 to 5 bytes |
| `CodeLength.EncodedDecodes` | cryptonote/external/miniupnpc/codelength.h:13-28 | For every n below 2^32, whatever stands before and after its code, decoding gives n and stops right behind the 1 to 5 bytes |
| `CodeLength.PrefixFree` | cryptonote/external/miniupnpc/codelength.h:24-28 | No code is the beginning of another |
| `CodeLength.ValueFits` | cryptonote/external/miniupnpc/codelength.h:13-22 | On arbitrary input the accumulator stays below 2^32, because another shift happens only below 2^25 |
| `CodeLength.DecodedReencodes` | cryptonote/external/miniupnpc/codelength.h:13-28 | A code that starts with a nonzero group and ends plainly is the code of what it decodes to |
| `CodeLength.EmptyGroupsSkipped` | cryptonote/external/miniupnpc/codelength.h:13-15 | Any number of empty groups in front is swallowed, so arbitrary input can take more than 5 bytes |
| `CodeLength.AtMostFiveBytes` | cryptonote/external/miniupnpc/codelength.h:13-22 | Behind its empty groups any input takes at most 5 bytes, also when it ends at the limit or is cut off at 2^25 |
| `CodeLength.CutShort` | cryptonote/external/miniupnpc/codelength.h:17-22 | If the data end before the last byte of a code, the number without its last seven bits is read and the loop has not ended by itself |

## Left out

- User interface, icons, filters, CSV export, block paging: no state worth proving anything about.
- `src/NodeAdapter.cpp`, `src/WalletAdapter.cpp`, `src/CryptoNoteWrapper.cpp`: wrappers over code that is not shown; node and wallet answers are environment steps or parameters.
- `cn_slow_hash`: an arbitrary function from blobs to eight words.
- C++ exceptions and completions that run on the calling thread: every request completes once, on another thread.
- `observersCounter` bookkeeping and `GroupClose`: the number of observers is an environment value.
- Delivery to several observers and their own threads: one list of notices stands for it.
- PoolUpdates.NoPoolChangeLost: a safety statement; that a waiting thread is eventually scheduled is not modelled.
- BlockingQueues.NoLostWakeUp: condition variables are sets of waiting threads and a notification wakes any one of them; fairness is not modelled.
- BlockUpdates.EveryBlockReportedOnce: heights are unbounded, so the wrap-around of the 32-bit height loop at its last value is not modelled; blocks are height, hash and orphan flag; the main chain only grows, so an unobserved update to a lower height is not part of a run.
- Mining: hexadecimal and target decoding of a received job is not modelled, a job arrives decoded; bytes of the nonce are little-endian, as on the supported hosts; reads and writes of the job are atomic under its lock.
- StratumRequests: sockets, timers, JSON syntax and the event loop inside `stop` are not modelled; a message is the fields the client looks at.
- HttpResponses.ChunkedResponse: chunk sizes of 2^31 and more end in a status of their own (`TooLarge`) because the source mixes signed and unsigned there; chunk extensions are outside the round trip and have laws of their own.
- HttpHeaders: `atoi` is modelled without overflow, and reading past the received bytes meets a terminator; NUL bytes inside header values are ordinary characters.
- HttpReader: allocation failure, the five-second timeout and a failing `recv` (which ends the input) are not modelled.
- ChunkedEncoder.BuildChunkedResponse: `rand` is an arbitrary function, and what the C code does with a response that does not fit its buffer is not modelled.
- MiniXml: bytes past the end of the buffer read as NUL.
- XmlTokens.TextParses: markup that is broken off, and a CDATA section that does not stand directly behind a start tag, are parsed by the model but are not part of the printed texts.
- NameValues.NameValueData.ParseNameValue: the handlers run on the recorded events after the parse instead of during it; they share no state with the parser. Allocation failure is not modelled.
- SoapRequests.BuildSoapBody: a request that does not stay inside its buffer is outside its contract, as what the C code does then is undefined; `soapact` and the posting of the text are not modelled.
- Amounts.FormatAmount: string lengths are unbounded, so wrap-around of the 32-bit positions is not modelled.
- Messages.GetHeaderValue: case folding is a parameter; Unicode digits in place markers are not modelled.
- TransactionRows: row numbers and transfer ids are unbounded, the model-view signals are reduced to the announced row counts, and the lookups do not change between operations.
- CodeLength.DecodeLength: a code that runs past the end of its buffer is outside its contract, as it is for the macro.
