# A verified model of libdfk's containers, fibers and codecs

libdfk is a C framework for network services built on cooperative fibers. This project models
its hardest parts in Dafny and proves what they promise.

- **AVL tree** (`AvlShape`, `AvlRotate`, `AvlPath`, `AvlTree`, `AvlErase`, `AvlIterate`). Hooks are
  heap objects with `left`, `right`, `parent` and `bal` fields that the methods rewrite in place. A
  ghost tree and a ghost zipper (`Ctx`, the path from the root with its side subtrees) say what the
  hooks form; balances are exact height differences. Insertion, erasure and iteration are proved
  against the in-order sequence of hooks.
- **String map** (`StrMap`, `StrMapHistory`, `HeaderWriter`, `HeaderText`). The byte-wise comparator, the exact
  condition under which it orders keys, the map that a history of calls leaves behind and what a
  lookup then finds, and the buffer vector the HTTP header
  writer fills by iterating, whose bytes are read back as the map.
- **Fibers** (`FiberState`, `FiberInvariant`, `FiberOrder`, `FiberTheorems`, `FiberWakeups`,
  `FiberDeadlock`, `FiberPlaces`, `FiberSections`, `Runtime`). The
  scheduler, mutexes, condition variables and the select loop as a transition system; a step is the
  code between two points at which control or a queue changes hands. `History` records what has
  happened and never influences a step. An inductive invariant and statements about every reachable
  state, every step and every run follow; among them the life of a single fiber, told without the
  transition system, and mutual exclusion, told by the calls of a run. `Runtime` is the code itself, over its mutable fields: each
  method makes exactly its step, and appends a hook only where it is in no list.
- **Linked lists** (`ListSpec`, `XorList`, `LinkedList`, `ListRefinement`). Both layouts of the
  intrusive list, over 64-bit addresses and a memory of link words, refine one sequence.
- **Percent-encoding** (`UrlEncoding`, `UrlSpelling`), **query scan** (`Query`), **byte stream** (`Sponge`).
- **Scheduling profiler** (`Simulator`, `SimulationLaws`). When a simulation ends, and where its CPU
  time goes.
- `Common` holds the types and functions the others share.

Where the code and its comments differ, the model follows the code. `dfk_urldecode` is documented to
decode in place when `out` is null, but asserts that it is not; in place means `out == buf` here.
`dfk_urldecode_hint` is documented as the size of the buffer needed; on input that is not decoded to
its end it may be less.
`dfk_mutex_lock` is documented as recursive; there is no count, so one unlock releases it. The two
forms of the string map's comparator return 0 when the left key is a proper prefix of the right one.

## Model

| member | source | states |
|---|---|---|
| AvlTrees.AvlTree.Insert | src/avltree.c:334-419 | The tree stays ordered, linked both ways and exactly balanced. Null is returned if and only if an equal hook exists, and then no field of any hook changes; otherwise the in-order sequence is the old one with the new hook put in its place. |
| AvlTrees.AvlTree.Descend | src/avltree.c:350-386 | The descent finds the insertion point and the deepest leaning hook on the path, or an equal hook, with at most as many comparisons as the tree is high. |
| AvlTrees.AvlTree.Retrace | src/avltree.c:388-399 | Shifting balances only from that hook down makes every stored balance below it exact again. |
| AvlPath.GrowBalances | src/avltree.c:388-413 | Why that is enough: if the hooks below the top of the path are even, the shifted balances are exact; an even top then leans and the subtree grows by one, a leaning top either evens out at the same height or is off by two with a leaning tall child, which one rotation repairs. |
| AvlTrees.AvlTree.PromotePrime | src/avltree.c:315-331 | The rotated subtree takes the place of the old one under the same parent, or becomes the root. |
| AvlRotate.SingleRot | src/avltree.c:152-211 | The rewritten links and balances form the single rotation of the subtree, and all others are unchanged. |
| AvlRotate.DoubleRot | src/avltree.c:214-312 | The same for the double rotation, whichever way the middle hook leans. |
| AvlRotate.RebalancedIsAvl | src/avltree.c:401-409 | Rotating a subtree that is off by two gives a balanced one with exact balances, and says by how much its height shrinks. |
| AvlRotate.RebalancedInOrder | src/avltree.c:152-312 | Rotations do not change the in-order sequence. |
| AvlErase.Erase | src/avltree.c:422-607 | Erasing any hook of a valid tree leaves a valid tree whose in-order sequence is the old one without just that hook, whose own fields are left as they are. |
| AvlErase.Climb | src/avltree.c:538-601 | The climbing loop: with one side of the current hook one shorter than its balance says, it ends with every balance exact, rotating where needed, and terminates at the root. |
| AvlErase.Shortened | src/avltree.c:539-600 | With one side one shorter than the balance says, the corrected balance tells the case: odd, the height is kept and the climb ends; zero, the height has shrunk and it goes on; two, a rotation is due. |
| AvlErase.Splice | src/avltree.c:441-536 | The three splice cases dereference no null pointer and leave the tree without the hook, off by one at a known place. |
| AvlErase.SpliceSwap | src/avltree.c:481-536 | The case in which the in-order successor, deep in the right subtree, takes the erased hook's place. |
| AvlErase.RemovedSorted | src/avltree.c:422-607 | What is left stays ordered by the comparator. |
| AvlIterate.Find | src/avltree.c:610-628 | Agrees with linear search of the in-order sequence for any lookup comparator that fits the order; at most as many comparisons as the tree is high. |
| AvlIterate.FibBound | src/avltree.c:75-90 | A valid tree of height h has at least Fib(h+2)-1 hooks. |
| AvlIterate.LogarithmicHeight | src/avltree.c:610-628 | Hence 2^(h/2) is at most the number of hooks plus one: searches are logarithmic. |
| AvlIterate.Begin | src/avltree.c:656-669 | Iteration starts at the first hook in order, or at the end of an empty tree. |
| AvlIterate.Next | src/avltree.c:683-698 | From the k-th hook in order to the next one, or past the last. |
| AvlIterate.NoDuplicates | src/avltree.c:683-698 | No hook is visited twice. |
| AvlIterate.Count | src/avltree.c:631-647 | Counting by iteration terminates and gives the number of hooks, which is also the stored size. |
| StrMaps.LookupCmpMeans | src/strmap.c:15-29 | On NUL-free keys the comparator is zero exactly when the left key is a prefix of the right one, negative or positive exactly by dictionary order otherwise. |
| StrMaps.ConsistentIff | src/strmap.c:15-36 | The comparator is a strict total order on a set of NUL-free keys if and only if no key is a proper prefix of another. |
| StrMaps.LookupFits | src/strmap.c:190-199 | Any NUL-free key may be looked up among sorted prefix-free ones. |
| StrMaps.ExactLookupIff | src/strmap.c:190-199 | What a lookup returns is the entry of exactly the sought key if and only if no stored key is a proper prefix of it. |
| StrMaps.ProperPrefixCollides | src/strmap.c:21-27 | The keys "a" and "ab" show that it fails otherwise. |
| StrMaps.StrMap.Get | src/strmap.c:190-199 | The value of the stored key that is a prefix of the sought one, and nothing exactly when there is none. |
| StrMaps.StrMap.Insert | src/strmap.c:201-206 | The map gains the item unless its key is present, in which case nothing changes. |
| StrMaps.StrMap.Erase | src/strmap.c:208-213 | The map loses exactly the erased item's key. |
| StrMaps.StrMap.Size | src/strmap.c:184-188 | The number of keys. |
| StrMaps.DescendingKeys | src/strmap.c:215-238 | Iteration is in strictly descending dictionary order. |
| StrMaps.FirstInsertWins | src/strmap.c:201-213 | After any history of inserts and erases, a key is in the map of that history exactly when some insert of it is the first since it was last erased, and that insert's value is held. |
| StrMapHistories.Replay | src/strmap.c:201-213 | Any history, carried out by the calls on a new map, leaves exactly the map of that history. |
| StrMapHistories.ReplayAndGet | src/strmap.c:190-213 | A lookup after any history returns the value of the insert that wins, and nothing if none does, if and only if no key then present is a proper prefix of the sought one. |
| HeaderWriter.Fill | src/http/response.c:95-125 | The 4*size+2 slots allocated for the headers are exactly the slots filled: the status line; for the k-th entry in map order its key, ": ", its value and a line end; and a last line end. When keys have no colon and no field a carriage return, the bytes behind the status line read as the entries of the map. |
| HeaderWriter.HeadersReadBack | src/http/response.c:115-123 | The round trip on its own: splitting at line ends and at the first ": " gives back the headers, in order. |
| HeaderText.ReadsBack | src/http/response.c:115-123 | The same for any fields, from any of them on. |
| FiberInvariant.StepInv | src/scheduler.c:50-191 | Every action of the scheduler, of a fiber and of the event loop keeps the invariant: placement, mutexes, first-in first-out order, accounting. |
| FiberInvariant.ReachableInv | src/scheduler.c:193-226 | The invariant holds in every state that any run reaches. |
| FiberTheorems.ExactlyOnePlace | include/dfk/mutex.h:40-45 | In every reachable state a spawned fiber is running, or in one list at one position, or freed: exactly one of these. |
| FiberTheorems.FreedForGood | src/scheduler.c:68-75 | A freed fiber never runs and is never linked again. |
| FiberPlaces.PlaceAfter | src/scheduler.c:50-191 | The life of a fiber: from where it is and what happens next, and nothing else, follows where it is afterwards; every action moves every fiber that way, and only spawning makes a new one. |
| FiberTheorems.TerminatedFreedOnce | src/scheduler.c:68-75 | One scheduler turn frees all terminated fibers in order, and over a whole run no fiber is freed twice. |
| FiberTheorems.DispatchedInTurn | src/scheduler.c:80-97 | The batch followed by the pending list is one first-in first-out queue: in any run a fiber behind k others is dispatched after exactly those k. |
| FiberTheorems.MutexSafety | src/mutex.c:36-84 | A nonempty wait queue has an owner, who is not in it; nobody is in it twice; everybody in it is blocked in lock on this mutex. |
| FiberTheorems.ReturnsOwning | src/mutex.c:54-58 | A fiber that comes back out of lock or out of a condition wait owns the mutex: the assertion cannot fail. |
| FiberTheorems.NoOvertaking | src/mutex.c:36-108 | A fiber becomes owner only of a free mutex nobody waits for, or as head of the queue when the owner gives it up. |
| FiberPlaces.OwnerAfter | src/mutex.c:36-108 | Who owns a mutex after any action: giving it up hands it to the longest waiter or to nobody; only a free one is acquired, by the caller or by a woken waiter that is given control. |
| FiberPlaces.LockMeans | src/mutex.c:36-61 | The caller of lock goes on as the owner if and only if nobody else owned the mutex; otherwise it is the last in the wait queue, has lost control, and the owner stays. |
| FiberPlaces.TryLockMeans | src/mutex.c:86-108 | Trylock never gives up control, and makes the caller the owner if and only if nobody else was. |
| FiberPlaces.UnlockMeans | src/mutex.c:63-84 | The caller goes on without the mutex; the longest waiter owns it and is runnable, or nobody owns it. |
| FiberSections.OwnsWhatItLocked | src/mutex.c:36-108 | In every run, a fiber owns a mutex or is inside lock or wait for it exactly if it has locked it and not unlocked it since. |
| FiberSections.MutualExclusion | src/mutex.c:36-108 | Of the fibers that have locked a mutex and not unlocked it since, at most one is not inside lock or wait. |
| FiberWakeups.NoLostWakeup | src/cond.c:31-88 | From the step in which a fiber gives up the mutex to wait, in any run: it has been woken if and only if a broadcast came or more signals than there were waiters before it; otherwise it is still queued. No window between unlocking and queueing, no lost and no spurious wakeup. |
| FiberWakeups.WokenExactlyWhen | src/cond.c:59-88 | The same for every fiber in the queue of any condition variable. |
| FiberWakeups.WokenInTurn | src/cond.c:59-88 | In any run the waiter with k others before it is woken after exactly those k. |
| FiberTheorems.CondQueueStep | src/cond.c:31-88 | Step by step: waiting adds at the tail; signal resumes exactly the longest waiter; broadcast exactly those in the queue at that moment, in order; nothing else touches the queue. |
| FiberOrder.StepOrder | src/cond.c:31-88 | For every condition variable and mutex, who began waiting is who owns the mutex again followed by who is in flight, in one order; every action keeps that. |
| FiberOrder.ReacquiredInWaitOrder | include/dfk/cond.h:22 | In every run, under any interleaving, the fibers that waited on a condition variable with a mutex own it again in the order in which they began waiting. |
| FiberTheorems.IoAccounting | src/scheduler.c:99-108 | The counter equals the length of the descriptor list and the number of fibers suspended for I/O; the event loop has control only with a nonempty list and no runnable fiber. |
| FiberTheorems.SelectResumesReady | src/select.c:104-147 | The ready scan resumes exactly the ready fibers, in list order, keeps the others, and goes back to the scheduler exactly if one was ready. |
| FiberPlaces.LoopReturns | src/select.c:104-147 | The event loop gives control back if and only if somebody was resumed, or nothing was reported ready. |
| FiberPlaces.CallerRuns | src/scheduler.c:135-191 | A fiber keeps control exactly through the calls that take it nowhere else; otherwise the scheduler goes on with its batch. |
| FiberPlaces.HeadRuns | src/scheduler.c:85-97 | The head of the batch gets control, unless it is a woken waiter whose mutex another fiber owns. |
| FiberPlaces.BatchEnds | src/scheduler.c:99-108 | After the batch the event loop gets control if and only if nobody is pending and somebody waits for input or output. |
| FiberPlaces.TurnMeans | src/scheduler.c:59-87 | The scheduler stops if and only if nobody is pending, terminated or waiting for input or output; otherwise the new batch is exactly the pending list, in order. |
| FiberPlaces.StopsIff | src/scheduler.c:59-64 | Progress: its next turn stops it if and only if every fiber is freed, on a mutex, on a condition variable, or suspended directly. |
| FiberTheorems.StoppedFibers | src/scheduler.c:59-64 | When the scheduler stops, every unfreed fiber is queued on a mutex or a condition variable or suspended directly. |
| FiberTheorems.StoppedDeadlock | src/scheduler.c:59-64 | If in addition nobody waits on a condition variable or is suspended directly, and no freed fiber owns a mutex, then any remainder contains a circle of at least two fibers each waiting for the next. |
| FiberDeadlock.DeadlockIsForever | src/mutex.c:46-84 | Once fibers wait for each other in a circle, in whatever state, no run ever dissolves it: none of them runs again. |
| Runtimes.Runtime.Iterate | src/scheduler.c:50-87 | The top of the scheduler loop, with the loop that frees terminated fibers, makes the step of that name, which `TurnMeans` and `StopsIff` pin down; true is returned when it stops. |
| Runtimes.Runtime.Resumed | src/scheduler.c:112-123 | A fiber is linked into the pending list only when it is in no other: every caller proves that its hook is free. |
| Runtimes.Runtime.Dispatch | src/scheduler.c:88-96 | Handing control to the next fiber of the batch, which goes on where it was suspended. |
| Runtimes.Runtime.Spawn | src/fiber.c:111-120 | A spawned fiber is pending. |
| Runtimes.Runtime.Return | src/fiber.c:35-44 | A fiber whose entry point returns is linked into the terminated list. |
| Runtimes.Runtime.Postpone | src/scheduler.c:183-191 | The running fiber goes behind all pending ones. |
| Runtimes.Runtime.Lock | src/mutex.c:36-61 | The code makes the step that `LockMeans` and `MutualExclusion` are about. |
| Runtimes.Runtime.TryLock | src/mutex.c:86-108 | Succeeds exactly when nobody else owned the mutex, and then the caller owns it. |
| Runtimes.Runtime.Unlock | src/mutex.c:63-84 | Hand-over to the head of the queue, or release. |
| Runtimes.Runtime.Wait | src/cond.c:31-57 | The same hand-over, and the queue of the condition variable. |
| Runtimes.Runtime.Signal | src/cond.c:59-71 | One waiter becomes pending. |
| Runtimes.Runtime.Broadcast | src/cond.c:73-88 | The loop over the moved list resumes all waiters. |
| Runtimes.Runtime.Io | src/select.c:152-173 | Descriptor list and counter grow together. |
| Runtimes.Runtime.ResumeAt | src/scheduler.c:174-181 | Each resumed fiber is one the counter counts: the unsigned counter does not underflow. |
| Runtimes.Runtime.Select | src/select.c:104-147 | The scan erases and resumes while it iterates. |
| Runtimes.Runtime.Perform | src/scheduler.c:193-226 | Whichever action comes next, the fields afterwards are the successor state, and the invariant holds again. |
| XorLists.SplicedLinked | src/list.c:393-427 | Changing three XOR words links a hook in at any position. |
| XorLists.CutLinked | src/list.c:578-583 | Changing two XOR words takes any element out. |
| XorLists.List.Append | src/list.c:324-352 | The sequence gains the hook at the end; no word outside the list's hooks changes. |
| XorLists.List.Prepend | src/list.c:355-383 | The same at the front. |
| XorLists.List.Insert | src/list.c:386-435 | In front of the iterator's element, or at the end. |
| XorLists.List.Rinsert | src/list.c:438-487 | Behind the reverse iterator's element, or at the front. |
| XorLists.List.Erase | src/list.c:530-609 | The sequence loses the iterator's element, in all four cases. |
| XorLists.ReraseMiddleIff | src/list.c:612-631 | Erasing a middle element through a reverse iterator works if and only if the XOR of the three addresses around it is zero: the code XORs the hook's address where it needs its link word. |
| XorLists.ReraseMiddleFails | src/list.c:617-624 | A list of three hooks for which it fails, whatever memory holds elsewhere. |
| XorLists.List.Rerase | src/list.c:612-631 | At both ends, and where that condition holds, the element is erased. |
| XorLists.List.PopFront | src/list.c:634-642 | The sequence loses its first element. |
| XorLists.List.PopBack | src/list.c:645-653 | The sequence loses its last element. |
| XorLists.List.MoveFrom | src/list.c:710-719 | The destination holds the source's sequence, the source is empty. |
| XorLists.List.Swap | src/list.c:721-733 | The sequences are exchanged. |
| XorLists.List.Forward | src/list.c:796-807 | Iterating forwards gives the sequence and ends. |
| XorLists.List.Backward | src/list.c:880-891 | Iterating backwards gives its reversal. |
| XorLists.List.Count | src/list.c:656-672 | The counted size is the stored size and the length. |
| XorLists.OtherListUntouched | src/list.c:324-631 | A list none of whose hooks an operation touches stays as it is. |
| LinkedLists.List.Insert | src/list.c:386-435 | The two-pointer layout: the same sequence operation. |
| LinkedLists.List.Rinsert | src/list.c:438-487 | The same for the reverse iterator. |
| LinkedLists.List.Erase | src/list.c:530-609 | The same for erasing. |
| LinkedLists.List.Rerase | src/list.c:612-631 | In this layout every element can be erased through a reverse iterator. |
| ListRefinement.RunBoth | src/list.c:324-891 | After any series of allowed operations on two lists, moving and swapping them included, both layouts hold the same two sequences, namely those the series says, and give the first forwards, its reversal backwards, and its length as size. |
| UrlEncoding.LongestPrefix | src/urlencoding.c:141-167 | Decoding consumes exactly the longest prefix made of bytes other than `%` and `%HH` triplets, and gives its meaning. |
| UrlEncoding.Decode | src/urlencoding.c:141-167 | The loop computes the meaning of the longest legal prefix, in place or into another buffer, and writes nothing behind the result; what digits mean is `DigitLaw`. |
| UrlEncoding.Encode | src/urlencoding.c:196-210 | The loop computes the encoding, and writes nothing behind it. |
| UrlEncoding.RoundTrip | src/urlencoding.c:141-210 | Decoding an encoded buffer consumes all of it and returns the original. |
| UrlEncoding.EncodedSafe | src/urlencoding.c:170-210 | Encoding yields only unreserved bytes and `%` with upper-case digits, at most three bytes for one. |
| UrlEncoding.HexRoundTrip | src/urlencoding.c:12-121 | The three tables are inverse to each other on every byte. |
| UrlSpelling.DigitLaw | src/urlencoding.c:12-45 | The digits are the characters of "0123456789ABCDEF" and "0123456789abcdef", each with its position as value; every other byte is none. |
| UrlSpelling.UpperDigit | src/urlencoding.c:48-121 | Encoding writes the digits of the upper-case alphabet. |
| UrlSpelling.CaseMeansNothing | src/urlencoding.c:150-163 | Changing the case of digits up to two places behind a `%` changes neither what is consumed nor what is decoded. |
| UrlSpelling.EitherSpelling | src/urlencoding.c:141-210 | So every spelling of an encoding decodes to the original. |
| UrlSpelling.Slash | src/urlencoding.c:150-163 | `%2f` and `%2F` are a slash. |
| UrlSpelling.UnreservedLaw | src/urlencoding.c:170-176 | Unreserved are the letters, the decimal digits and `-`, `.`, `_`, `~`. |
| UrlSpelling.EncodedAlphabet | src/urlencoding.c:196-210 | Encoding writes only these and `%`. |
| UrlEncoding.EncodeHint | src/urlencoding.c:179-193 | The exact size of the encoding. |
| UrlEncoding.DecodeHint | src/urlencoding.c:124-138 | The size minus two for each `%`, with the wrap-around of an unsigned subtraction; it is the size of the result if and only if half the bytes that decoding leaves unconsumed are `%`. |
| UrlEncoding.DecodeHintExact | include/dfk/urlencoding.h:19-22 | Over the integers: exact if and only if half the unconsumed bytes are `%`, too small for what decoding writes if and only if more are; so exact on every fully consumed input. |
| UrlEncoding.DecodeHintTooSmall | src/urlencoding.c:130-136 | The input `ab%`: the hint is one byte and decoding writes two. |
| Queries.ScanQuery | src/http/request.c:487-539 | The four-state loop returns the pairs of the query, or the protocol error. |
| Queries.ScanUndoesJoin | src/http/request.c:493-539 | Joining pairs with `=` and `&` and scanning returns exactly those pairs, with or without a trailing `&`. |
| Queries.JoinUndoesScan | src/http/request.c:493-539 | Every accepted string is the join of its pairs, but for an optional trailing `&`. |
| Queries.ScanIff | src/http/request.c:493-539 | A string is accepted with given pairs if and only if it prints them; so printing is unambiguous and everything else is the protocol error. |
| Queries.ReadQuery | src/http/request.c:464-541 | Decoding and scanning together: pairs are returned if and only if the input decodes to its end into a print of just these pairs; anything else is the protocol error. |
| Queries.AcceptedIff | src/http/request.c:464-541 | The same as a statement about all inputs and all pairs. |
| Queries.ReadsWhatWasWritten | src/http/request.c:464-541 | Pairs that are printed and percent-encoded are read back. |
| UrlSpelling.QueryExample | src/http/request.c:464-541 | The raw query `a=1&b=%2f` has the arguments a = 1 and b = /. |
| Sponges.Sponge.Write | src/sponge.c:59-97 | Bytes read followed by bytes unread are the bytes written; a failed write changes nothing; all bytes ever copied by reallocation <= capacity <= max(page size, 2 * bytes written). |
| Sponges.Sponge.WriteV | src/sponge.c:99-109 | The buffers before the first failing one are written, no more and no less; it fails only at a buffer that does not fit and for which no memory is granted. |
| Sponges.Sponge.Read | src/sponge.c:111-124 | As many of the oldest unread bytes as there are and fit. |
| Sponges.Sponge.ReadV | src/sponge.c:126-141 | The buffers together hold the oldest unread bytes, as many as there are and fit, followed by what they held there before; those bytes have become read and the rest stays unread. |
| Sponges.PaidFor | src/sponge.c:81-93 | The arithmetic of a reallocation: it copies no more than the capacity it adds. |
| Simulator.Advance | tools/schedprof/schedprof/scheduler.py:106-111 | Up to the next due time each CPU either burns all the time or idles all the time. |
| Simulator.Simulation.Jump | tools/schedprof/schedprof/scheduler.py:101-111 | The simulation finishes exactly when all CPUs are idle and no coroutine is left; otherwise time goes to the nearest due time, if there is one. |
| Simulator.Simulation.Dispatch | tools/schedprof/schedprof/scheduler.py:73-100 | After one instruction: the live coroutines as a set, context switches, cache hits, and the CPU's coroutine and due time. |
| Simulator.Simulation.Round | tools/schedprof/schedprof/scheduler.py:52-111 | One turn keeps the balance: elapsed CPU time plus what running instructions still need is idle time plus the durations of all dispatched instructions. It is refused if and only if it maps to a burning CPU, finishes if and only if afterwards no coroutine is left and no CPU burns, and otherwise leads to the nearest due time, if there is one. |
| Simulator.RunProgram | tools/schedprof/schedprof/scheduler.py:42-114 | A simulation is reported finished if and only if the turns lead to one that finishes; then elapsed time, total, burning time, context switches and cache hits are those of all dispatched instructions, and burning time is the sum of their durations. |
| SimulationLaws.EndsIff | tools/schedprof/schedprof/scheduler.py:101-104 | A turn is the last if and only if, after it, none of all instructions so far is still to be over and no coroutine is left. |
| SimulationLaws.ElapsedIs | tools/schedprof/schedprof/scheduler.py:104-114 | The elapsed time of a finished simulation is when its last instruction was over. |
| SimulationLaws.LiveIff | tools/schedprof/schedprof/scheduler.py:90-95 | A coroutine is left exactly when it was there or was spawned and no instruction since has terminated it. |
| SimulationLaws.LastRan | tools/schedprof/schedprof/cpu.py:36-53 | What a CPU ran last is the coroutine of the last instruction mapped to it. |
| SimulationLaws.AllHitsCounted | tools/schedprof/schedprof/scheduler.py:96-100 | The cache hits are the instructions whose CPU ran the same coroutine last. |
| SimulationLaws.AllCounted | tools/schedprof/schedprof/scheduler.py:73-100 | The context switches are all instructions, the burning time the sum of their durations. |
| Simulator.Cpu.Wakeup | tools/schedprof/schedprof/cpu.py:44-53 | The coroutine, its due time, and whether it is the one this CPU ran last. |

## Left out

- Stack switching and stack layout: a context switch is the boundary between two steps, and `pc` stands for where a stack stands. Direct calls of `dfk_yield` by users, which bypass all queues, are not modelled.
- Sockets, signals, pipes, `src/epoll.c`, files, logging, C++ wrappers, and everything that rests on the external HTTP parser, which is not part of this model.
- The debug fields and the self-checks of debug builds, including `_tree` in the AVL tree and `_list` in list hooks.
- `src/arena.c`, and running out of memory when fibers or items are allocated.
- Initialising and freeing mutexes and condition variables, and the assertions made there.
- Mutexes and condition variables are entries of maps of one `Runtime` object, not objects of their own; their wait queues and the scheduler's lists are sequences, and the list operations they rest on are proved separately in `XorList` and `LinkedList`.
- `select` failing other than by an interrupt, and the event bits of a descriptor; which descriptors are ready is an input of the step.
- I/O fairness: the event loop runs only when nothing is pending, so a fiber that always postpones starves it.
- Iterators used after an insert or erase in the one-word list layout, whose `_prev` is stale; the select loop is modelled over positions, as the two-pointer layout has them.
- Hook addresses of an XOR list are 64 bits wide; the hooks of a list are in one memory map, and writes outside it appear only in `ReraseMiddle`.
- `size_t` overflow in sizes and capacities, except in the decode hint.
- StrMaps.StrMap.Get: keys that contain NUL bytes are excluded, because the comparator stops at them and orders nothing behind.
- StrMaps.StrMap.Insert: key sets in which one key is a proper prefix of another are excluded, because by `ConsistentIff` the comparator does not order them.
- Item construction and copying in `src/strmap.c`.
- The branches of the hint functions that return a bound without looking at the input; the bounds follow from `EncodedSafe` and `TokensRender`.
- UrlEncoding.Decode: buffers that overlap without being equal are not modelled.
- Inserting the scanned pairs into the request's argument map, where the first of two equal keys wins as in `StrMap`.
- Simulator.RunProgram: a turn that maps two instructions to one CPU is excluded, because the CPU then holds only the second one's due time. Coroutines and mutexes of the simulation are abstracted to what the scheduler maps in each turn, because they decide only that; the set of live coroutines stands for the list.
- Simulator.Simulation.Dispatch: what a lock or unlock instruction does to the mutex and to the coroutines waiting for it is not modelled, because it only decides what later turns map, nor are the errors of unlocking a mutex one does not own and of terminating a coroutine that is not in the list; the order of that list is not kept.
