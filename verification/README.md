# A verified model of APSI's computational core

APSI computes the intersection of a sender's set with a receiver's set under homomorphic encryption,
and can deliver a label with every match. This project models the plain computation underneath the
cryptographic libraries and proves what it promises.

A ciphertext is the vector of its plaintext slots modulo the plaintext prime, together with the flag
that says whether it is in NTT form; homomorphic addition and multiplication work slot by slot, and an
operation is only allowed where SEAL would not throw.

| File | What it models |
|---|---|
| `ModArith.dfy`, `Polynomials.dfy` | congruences, Euclid's lemma, Fermat's little theorem, polynomials with few roots |
| `Interpolate.dfy` | matching polynomials and Newton interpolation |
| `Seal.dfy`, `BatchedPolyn.dfy` | batched polynomials, direct and Paterson-Stockmeyer evaluation |
| `BinContents.dfy`, `BinBundle.dfy` | bins, label bins, filters and the polynomial cache of a BinBundle |
| `Preprocess.dfy`, `BundleSets.dfy`, `SenderDB.dfy` | from items and labels to tasks; the insert, overwrite and remove workers and their dispatch |
| `PowersDag.dfy`, `PowersScheduler.dfy`, `FairSchedules.dfy` | depth-optimal powers DAG, the lock-free scheduler that runs it, and its termination under fair schedules |
| `Sender.dfy` | the powers of a query on both sides, and the choice of the evaluator |
| `Bits.dfy`, `DbEncoding.dfy` | bit packing into field elements, item and label encoding |
| `Words.dfy`, `SlidingWindow.dfy`, `Recoding.dfy` | FourQ's modular inversion and scalar recodings |
| `ThreadPool.dfy` | the thread pool |
| `Receiver.dfy`, `EndToEnd.dfy` | query layout, matching and label extraction, and the chain from the sender's data to the answers for one bundle index |
| `SharedParts.dfy` | when a bundle holds all parts of an item by accident, and when it cannot |
| `Histories.dfy` | a bundle index over any history of insertions, overwrites and removals; queries and label look-ups afterwards |
| `Protocol.dfy` | both sides over all bundle indices, from the sender's data and the receiver's table to the match records |

Code that changes state in place is imperative here as well: coefficient vectors, the powers DAG, bin
bundles and bundle sets are classes; bit buffers, multi-word scalars and digit arrays are arrays. Each
method is tied to a specification function or states its result outright. The two concurrent parts,
`parallel_apply` and the thread pool, are state machines with one program counter per worker, and a
statement about every schedule covers every interleaving. Dispatching the insert workers is a third one.

`dafny verify dfyconfig.toml` checks the project.

The main results, with the conditions under which they hold, are these.

- **The matches are the common items, and labels arrive.** `Protocol.RunProtocol` runs both sides over all bundle
  indices: splitting off repeated items, preprocessing, insertion into an empty database, cache regeneration,
  stripping if wanted, query layout, powers DAG, powers computed by any number of threads under any fair schedule,
  evaluation, zero detection, label extraction and merging. Nothing is assumed about the query, the powers or the
  evaluator's results. Insertion fails exactly when labeled data lists an item twice, and the query is refused exactly
  when its powers do not suit the target powers. Otherwise an item is matched if and only if some bundle holds all its
  parts, and the duplicate-match exception is thrown if and only if two bundles do; every common item is matched, in
  labeled mode with exactly its label. If each queried item has a part that no other item of the data shares at its
  location, there is no exception and the matched items are exactly the common ones. Without such a part both can go
  wrong: `Protocol.ThrowingExample` and `Protocol.FalseMatchIsTold` are concrete inputs.
- **No history breaks the database.** `Histories.QueryAfterRuns`: after any sequence of insertions, overwrites and
  removals, failing ones included, a query finds every entry that is still stored with its current label; and every
  entry that some run sent and nothing touched later is still stored. `Histories.GetLabel` returns that label too,
  whenever one part of the item occurs only once in its bin.
- **The cache is never wrong.** `BinBundles.PerformAllThenGetCache`: after any history of operations, a cache that is
  handed out consists of monic polynomials that are congruent to the product of the linear factors of the current
  bins, zero exactly there, and of interpolation polynomials that map each stored element to its current label part.
  The batched polynomials of a stripped bundle still serve the contents of before, whatever is tried afterwards.
- **Interpolation is right.** `Interpolate.NewtonInterpolatePolyn`, with inverses by exponentiation
  justified by Fermat's little theorem, proved here.
- **The lock-free scheduler is safe and terminates.** For any number of workers and any schedule it is safe
  (`PowersScheduler.EveryScheduleIsSafe`), and every fair schedule lets all workers return
  (`FairSchedules.FairScheduleReturns`), within a number of rounds that depends only on the numbers of nodes and
  workers (`FairSchedules.BoundedRoundsReturn`).
- **Bundles are used exactly as the bins allow.** Without overwriting, the last bundle with room takes an item and a
  bundle is added exactly when none has room (`BundleSets.FreshBundleIff`). With overwriting, an assignment succeeds
  exactly when, from the back, some bundle holds all parts or has room for a copy before one rejects the data
  (`BundleSets.AssignmentSucceedsIff`), and a removal exactly when some bundle holds all parts
  (`BundleSets.RemovalFailsIff`). The conditions are on bin contents and bin sizes alone.
- **Every task runs, and the thread pool shuts down.** `ThreadPool.EveryTaskRuns`: in a running, stopped or resized
  pool, after at most 4 * (queued tasks) + 3 * (workers) rounds of the workers, every task accepted before has been
  executed exactly once; without new tasks the pool is then idle (`ThreadPool.PoolDrains`). Resizing takes effect.
  After the pool is stopped every run contains at most `Rank` turns that change it, the destructor returns exactly
  when that many were made, and `Rank` rounds of the workers are enough.
- **Encoding is lossless and as dense as the modulus allows.** Every element carries the largest number of bits that
  always stays below the modulus (`DbEncoding.WidthIsLargest`). `DbEncoding.LabelRoundTrip`: from any contents that store an encoded item and its label,
  the label parts looked up decode to the label byte for byte. The two results above carry this over queries.

Six statements hold only under a condition. The first five conditions are proved to be exact; the last one is
sufficient, and the exact one, that no two bundles hold an item, is part of the same contract.

- `Sender.EvaluatorChoiceIsSound`: the evaluator's operands are in matching form and read only computed
  powers if and only if the low degree is not 1 or the polynomial has at most two coefficients. Parameter
  validation lets a low degree of 1 through; `Sender.LowDegreeOneFails` is a concrete failing case.
- `ThreadPool.NothingLostIffOneThread`: the destructor leaves nothing in flight if and only if the pool was
  built with at least one thread.
- `PowersDags.PowersDag.Configure`: the configured DAG is sound if and only if every target that is not a
  source splits into two targets; `PowersDags.UndecomposableExample` is a target set that does not.
- `Bits.CopyAsWritten`: the copy to an unaligned destination avoids an undefined shift, and is then right, if and only
  if nothing goes to a partial first byte or the bits that do reach the end of their first source byte;
  `Bits.HalfByteIsUndefined` is a copy where they do not. Hence decoding is defined as written if and only if there is
  one field element or the bits of an element are whole bytes (`DbEncoding.DecodingDefinedIff`). What a processor that
  takes shift counts modulo 32 makes of the other case is right exactly when no later bit of the source byte spills
  over a zero bit (`Bits.HeadByteMod32Iff`).
- `Protocol.SplitNewData`: labeled data goes into an empty database if and only if it lists no item twice.
- `Protocol.RunProtocol`: the matches are exactly the common items if each queried item has a part of its own.

## Model

| member | source | states |
|---|---|---|
| Polynomials.FermatLittle | common/apsi/util/interpolate.cpp:147-149 | the fact behind inversion by the exponent p - 2: a nonzero residue to the power p - 1 is 1, from Pascal's triangle modulo p |
| Interpolate.CoeffVector.MulMonicMonomialInplace | common/apsi/util/interpolate.cpp:27-56 | the right-to-left in-place update gives the product with x - a, not a mixture of old and new coefficients |
| Interpolate.PolynWithRoots | common/apsi/util/interpolate.cpp:63-80 | the exception at a zero modulus, and otherwise the polynomial that the next three rows characterize |
| Interpolate.RootsPolynIsProduct | common/apsi/util/interpolate.cpp:63-80 | at every point the matching polynomial is congruent to the product of its linear factors over the integers |
| Interpolate.RootsPolynMonic | common/apsi/util/interpolate.cpp:63-80 | its leading coefficient is 1 |
| Interpolate.MatchingZeroIffPresent | common/apsi/util/interpolate.cpp:63-80 | for a prime modulus it vanishes at a field element exactly when that element is in the list, repeated roots included |
| Interpolate.InverseCancels | common/apsi/util/interpolate.cpp:147-149 | the power p - 2 of a denominator is its inverse |
| Interpolate.DividedDifferenceTable | common/apsi/util/interpolate.cpp:106-155 | the two nested loops fill the whole triangle with divided differences, and fail exactly when two points coincide |
| Interpolate.NewtonFormReversed | common/apsi/util/interpolate.cpp:135-155 | splitting off the first point instead of the last gives the same polynomial: the two-index induction that makes the table work |
| Interpolate.NewtonFormInterpolates | common/apsi/util/interpolate.cpp:135-187 | the Newton form takes every prescribed value at its point |
| Interpolate.HornerExpand | common/apsi/util/interpolate.cpp:157-187 | expanding the first row of the table by Horner's rule with the in-place product yields an interpolating coefficient list of the right length |
| Interpolate.NewtonInterpolatePolyn | common/apsi/util/interpolate.cpp:87-187 | exact conditions for each exception and for success; on success max(n, 1) coefficients in the field with value values[i] at points[i], through the all-zero shortcut as well |
| Interpolate.InterpolationUnique | common/apsi/util/interpolate.cpp:87-187 | no other coefficient list of that length interpolates the same points |
| BatchedPolyn.EvalPolyn | sender/apsi/bin_bundle.cpp:106-164 | fails exactly on too few powers or on operands in different forms; otherwise every slot is the polynomial of its bin at the query value |
| BatchedPolyn.EvalPatstock | sender/apsi/bin_bundle.cpp:182-344 | the same slot values as the direct evaluation, for every degree and every low degree between 1 and the degree, including degrees divisible by low + 1; exact error conditions |
| BatchedPolyn.BlocksJoin | sender/apsi/bin_bundle.cpp:236-334 | inner polynomials times their high powers, together with the heads of the blocks, are the terms of the polynomial that the blocks cover |
| BatchedPolyn.TermSumIsEval | sender/apsi/bin_bundle.cpp:106-164 | the term-by-term sum is the Horner value of a slot's column |
| BatchedPolyn.BatchPolyns | sender/apsi/bin_bundle.cpp:350-414 | coefficient i of all bins in one plaintext, zero-padded to the highest degree, in NTT form exactly where the evaluators multiply before they add |
| BatchedPolyn.BatchMeaning | sender/apsi/bin_bundle.cpp:350-414 | evaluating a batch gives in each slot the value of the polynomial that was put into that slot |
| Seal.HoldsProduct | sender/apsi/bin_bundle.cpp:106-164 | slotwise products of vectors that hold given integers modulo p hold the products |
| Seal.HoldsSum | sender/apsi/bin_bundle.cpp:106-164 | slotwise sums of vectors that hold given integers modulo p hold the sums |
| BinContents.InsertedSound | sender/apsi/bin_bundle.cpp:460-607 | insertion keeps label bins aligned with item bins and labeled bins free of repeats |
| BinContents.InsertedCounts | sender/apsi/bin_bundle.cpp:486-508 | each touched bin gains one copy of its own part, every other bin nothing |
| BinContents.InsertedHasLabel | sender/apsi/bin_bundle.cpp:513-607 | a later look-up of the inserted parts finds exactly the inserted label parts |
| BinContents.OverwrittenSound | sender/apsi/bin_bundle.cpp:653-738 | overwriting keeps the bins sound |
| BinContents.OverwrittenHasLabel | sender/apsi/bin_bundle.cpp:653-738 | after an overwrite the look-up of the parts finds the new label parts |
| BinContents.StoredSurvivesInsertion | sender/apsi/bin_bundle.cpp:486-508 | what an item and its label are found by stays in place whatever is inserted afterwards |
| BinContents.StoredSurvivesOverwrite | sender/apsi/bin_bundle.cpp:653-738 | and while the labels of items that share none of its parts in the same bin are overwritten |
| BinContents.RemovalKeepsIffApart | sender/apsi/bin_bundle.cpp:740-811 | in a labeled bundle a removal leaves the item and its label in place if and only if none of the removed parts is the item's own part in the same bin |
| BinContents.RemovedSound | sender/apsi/bin_bundle.cpp:740-811 | removal from item and label bins at the same positions keeps them aligned and free of repeats |
| BinContents.RemovedCounts | sender/apsi/bin_bundle.cpp:740-811 | removal takes exactly one copy of each part from its own bin, and there was one to take |
| BinContents.RemovalUndoesInsertion | sender/apsi/bin_bundle.cpp:460-811 | removing what was just inserted restores item and label bins position by position, if no part was there before |
| BinBundles.GetIterator | sender/apsi/bin_bundle.cpp:42-65 | asking the cuckoo filter first never changes the outcome of the search, whatever its false positives |
| BinBundles.InsertOutcomeIff | sender/apsi/bin_bundle.cpp:460-607 | an insertion is rejected for the form of the data alone, and stays below a limit exactly when each touched bin stays below it and, in labeled mode, holds none of the parts |
| BinBundles.OverwriteOutcomeIff | sender/apsi/bin_bundle.cpp:609-738 | an overwrite is rejected for labels of the wrong size alone, and succeeds exactly when there are parts and each lies in its own bin |
| BinBundles.NewBinBundle | sender/apsi/bin_bundle.cpp:425-449 | the rejected arguments in the order of the source, the missing evaluator first, and an empty sound bundle with a stale cache otherwise |
| BinBundles.BinBundle.MultiInsert | sender/apsi/bin_bundle.cpp:460-607 | the exact outcome of every call in terms of the bins: the exceptions, and the largest new bin size exactly when the parts can be added; parts and labels land in all their bins or in none, a dry run changes nothing, and the cache is stale afterwards exactly when something was inserted |
| BinBundles.BinBundle.TryMultiOverwrite | sender/apsi/bin_bundle.cpp:609-738 | succeeds exactly when each part lies in its own bin, and then stores the new labels of all parts; otherwise nothing changes; the unlabeled form changes no data but still marks the cache stale |
| BinBundles.BinBundle.TryMultiRemove | sender/apsi/bin_bundle.cpp:740-811 | succeeds exactly when each part lies in its own bin; then all parts leave with their label parts, otherwise nothing changes |
| BinBundles.BinBundle.TryGetMultiLabel | sender/apsi/bin_bundle.cpp:813-863 | succeeds exactly when every part is present, and returns the stored label parts in component order |
| BinBundles.BinBundle.Clear | sender/apsi/bin_bundle.cpp:865-907 | empty sound bins with a stale cache, or no bins at all for a stripped bundle |
| BinBundles.BinBundle.GetCache | sender/apsi/bin_bundle.cpp:909-916 | refuses exactly when the cache is stale; a cache handed out belongs to the current contents, or in a stripped bundle to those of before stripping |
| BinBundles.BinBundle.RegenPolyns | sender/apsi/bin_bundle.cpp:959-1005 | every bin gets the matching polynomial of its items and, per label component, a polynomial that interpolates its labels; interpolation cannot fail on a sound bundle |
| BinBundles.BinBundle.RegenPlaintexts | sender/apsi/bin_bundle.cpp:918-957 | the batched polynomials belong to the polynomials of the cache |
| BinBundles.BinBundle.RegenCache | sender/apsi/bin_bundle.cpp:1007-1016 | a stale cache is rebuilt from the current contents, a fresh one is kept as it is |
| BinBundles.BinBundle.Strip | sender/apsi/bin_bundle.cpp:1023-1036 | after all data is dropped the bundle still serves the contents of before |
| BinBundles.CacheMeaning | sender/apsi/bin_bundle.cpp:909-1005 | a fresh cache is zero exactly on the bin's items, monic, and maps each item to its current label part |
| BinBundles.PerformAllThenGetCache | sender/apsi/bin_bundle.cpp:460-1036 | after any sequence of inserts, overwrites, removals, clears, regenerations and stripping, get_cache fails exactly on a stale cache; otherwise it hands out the bundle's own cache, whose matching polynomials are monic, congruent to the product of the linear factors of the current bins and zero exactly there, and whose interpolation polynomials map each stored element to its current label part; a stripped bundle goes on serving the contents of before, until it is cleared |
| BundleSets.UnpackCuckooIdx | sender/apsi/sender_db.cpp:79-92 | bin and bundle index are the remainder and quotient that make up the cuckoo index |
| BundleSets.UnpackLocation | sender/apsi/sender_db.cpp:79-92 | the item at a location occupies whole block location % items_per_bundle of bundle index location / items_per_bundle |
| BundleSets.PlaceIsLastFit | sender/apsi/sender_db.cpp:250-279 | first fit from the back: the chosen bundle fits and no later one does; none is chosen only if none fits |
| BundleSets.FreshBundleIff | sender/apsi/sender_db.cpp:250-317 | a bundle is added exactly when every bundle has a touched bin that would reach max_bin_size or, in labeled mode, holds the part already; otherwise the last bundle without such a bin receives the parts |
| BundleSets.FreshAccepts | sender/apsi/sender_db.cpp:294-317 | a fresh bundle never rejects well-formed data |
| BundleSets.InsertionConserves | sender/apsi/sender_db.cpp:213-322 | per bin, over all bundles of an index, each element gains as many copies as the tasks sent there |
| BundleSets.DataErrorIff | sender/apsi/sender_db.cpp:249-317 | data is well-formed exactly when there are parts, labels of the right size if and only if the database is labeled, and bins for all parts |
| BundleSets.InsertionFailsIff | sender/apsi/sender_db.cpp:213-322 | a worker throws exactly when some task of its own bundle index is malformed |
| BundleSets.InsertionSound | sender/apsi/sender_db.cpp:213-322 | every bundle stays duplicate-free and aligned over a whole run |
| BundleSets.InsertionCapped | sender/apsi/sender_db.cpp:265-275 | no bin ever exceeds max(1, max_bin_size - 1) |
| BundleSets.InsertedIsStored | sender/apsi/sender_db.cpp:213-322 | after the run each inserted item has all its parts and label parts in one and the same bundle, however much was inserted later |
| BundleSets.InsertionKeepsStored | sender/apsi/sender_db.cpp:213-322 | an item stored in some bundle, with its label, is still stored in that bundle after any later run of insertions |
| BundleSets.RemovalKeepsStored | sender/apsi/sender_db.cpp:398-454 | it is still stored in some bundle after any run of removals that touch none of its parts, although bundles are dropped in between |
| BundleSets.AssignPlaceIsLast | sender/apsi/sender_db.cpp:249-290 | with overwriting on, the last bundle that holds the item, has room for a copy or rejects it decides; the exception means that all passed it over |
| BundleSets.AssignmentSucceedsIff | sender/apsi/sender_db.cpp:249-290 | with overwriting on, an item is taken exactly when, from the back, some bundle holds all its parts or has room for them before a bundle rejects the data; that bundle gets the new label or the copy and no other changes |
| BundleSets.AssignmentFailsIff | sender/apsi/sender_db.cpp:213-322 | an overwriting run throws exactly when it comes to an item of its index that no bundle takes |
| BundleSets.AssignmentStores | sender/apsi/sender_db.cpp:249-290 | with overwriting on, success means that one bundle now stores the item with the new label, all bundles are sound and no other bundle changed |
| BundleSets.AssignmentKeepsStored | sender/apsi/sender_db.cpp:213-322 | a stored item keeps its bundle and its label through a whole run with overwriting on that assigns none of its parts |
| BundleSets.AssignmentSound | sender/apsi/sender_db.cpp:213-322 | every bundle stays sound over a whole run with overwriting on |
| BundleSets.AssignmentCapped | sender/apsi/sender_db.cpp:213-322 | and no bin exceeds the limit of insertion |
| BundleSets.AssignedIsStored | sender/apsi/sender_db.cpp:213-322 | after the run each assigned item has its new label in some bundle, unless a later task of the run touches its parts |
| BundleSets.FindHolder | sender/apsi/sender_db.cpp:424-433 | the first bundle that holds every part, or none if there is none |
| BundleSets.FirstHolderLoses | sender/apsi/sender_db.cpp:419-440 | the first bundle that holds every part loses them, the bundles left empty are dropped, and all others stay in their order |
| BundleSets.RemovalFailsIff | sender/apsi/sender_db.cpp:398-454 | a run of removals throws exactly when it comes to an item of its index of which no bundle holds every part |
| BundleSets.StoredCanBeRemoved | sender/apsi/sender_db.cpp:398-454 | removing an item that some bundle stores succeeds and takes one copy of each of its parts |
| BundleSets.RemovalConserves | sender/apsi/sender_db.cpp:398-454 | a successful run takes exactly one copy of each part of each task |
| BundleSets.RemovalSound | sender/apsi/sender_db.cpp:398-454 | every bundle stays sound over a whole run of removals |
| BundleSets.RemovalCapped | sender/apsi/sender_db.cpp:398-454 | and no bin exceeds the limit of insertion |
| BundleSets.NoEmptyBundleLeft | sender/apsi/sender_db.cpp:435-440 | no empty bundle is left behind, whether or not the item was found |
| SenderDB.BundleSet.InsertOrAssignWorker | sender/apsi/sender_db.cpp:213-322 | the loop over the objects, in both modes, with overwrites, dry runs, real insertions and fresh bundles, does to the contents what the worker's specification says, and ends with the same exception |
| SenderDB.BundleSet.InsertData | sender/apsi/sender_db.cpp:249-317 | without overwriting, one item goes to the first fitting bundle from the back or to a fresh bundle; on an exception nothing changes |
| SenderDB.BundleSet.AssignData | sender/apsi/sender_db.cpp:249-290 | with overwriting, the first bundle from the back that holds the item gets the new label or, before that, the first one with room a copy; the exception if there is neither |
| SenderDB.BundleSet.RemoveWorker | sender/apsi/sender_db.cpp:398-454 | the same for removals |
| SenderDB.BundleSet.RemoveData | sender/apsi/sender_db.cpp:419-440 | one item leaves the first bundle that holds it and empty bundles are dropped |
| SenderDB.BundleSet.GenerateCaches | sender/apsi/sender_db.cpp:692-704 | changes no contents, and afterwards every bundle serves its own |
| SenderDB.BundleSet.Strip | sender/apsi/sender_db.cpp:711-739 | leaves no item in any bundle, and every bundle serves the contents of before |
| SenderDB.EveryInterleavingIsSequential | sender/apsi/sender_db.cpp:329-392 | one worker per bundle index, in either mode and any interleaving, leaves the same bundles as a single pass over the data |
| SenderDB.FailureIsOwn | sender/apsi/sender_db.cpp:329-392 | whether and how a worker fails does not depend on the interleaving |
| PowersDags.CreatePowersSet | common/apsi/util/utils.cpp:146-177 | exact error conditions, and a set with exactly the low powers and the multiples of low + 1 |
| PowersDags.PowersDag.FindParents | common/apsi/powers.cpp:62-90 | the search over pairs finds a split of least depth among the lower targets |
| PowersDags.PowersDag.Configure | common/apsi/powers.cpp:22-107 | fails exactly on ill-formed sources or targets; otherwise parents sum to their node and lie in the targets if and only if every target can be split, depths are exact, and no addition tree with leaves in the sources and inner nodes in the targets is shallower |
| PowersDags.PowersSetDecomposable | common/apsi/util/utils.cpp:146-177 | every target set of the protocol can be split, whatever the sources with 1 among them |
| PowersDags.ResetPowersDag | common/apsi/powers.cpp:22-107 | hence the configuration the protocol uses is sound and depth-optimal |
| PowersDags.UndecomposableExample | common/apsi/powers.cpp:62-95 | a target set outside the protocol that leaves a node with a parent outside the targets |
| PowersScheduler.Step | common/apsi/powers.h:181-267 | one atomic step of one worker; a worker never changes the shape of the shared state |
| PowersScheduler.StepKeepsInv | common/apsi/powers.h:181-267 | every step of every worker keeps ownership, call order and the values of computed nodes |
| PowersScheduler.EveryScheduleIsSafe | common/apsi/powers.h:159-278 | in every interleaving no two workers own a node, a node is called at most once and after both parents, no exception is thrown, computed values are final, and a worker returns only when all nodes are computed |
| PowersScheduler.ReturnMeansDone | common/apsi/powers.h:185-192 | when one worker has returned every node was called and every value is the one its parents determine |
| PowersScheduler.ComputedIsStable | common/apsi/powers.h:213-215 | a computed node stays computed under any further schedule |
| PowersScheduler.RunnableNodeExists | common/apsi/powers.h:242-258 | while something is unfinished and nothing is being computed, some node has both parents computed |
| PowersScheduler.NoDeadEnd | common/apsi/powers.h:159-278 | from every reachable state some continuation lets all workers return |
| PowersScheduler.SingleWorkerAscends | common/apsi/powers.h:181-267 | one worker alone calls every node once in a single ascending pass |
| FairSchedules.StepProgress | common/apsi/powers.h:181-267 | no step of any worker raises the distance to the end, and there is always a worker whose next step lowers it |
| FairSchedules.BoundedRoundsReturn | common/apsi/powers.h:181-277 | whatever happened before, once every worker has had its turn often enough all workers have returned; how often depends only on the numbers of nodes and workers |
| FairSchedules.FairScheduleReturns | common/apsi/powers.h:181-277 | under every fair infinite schedule there is a moment from which on all workers have returned |
| FairSchedules.ParallelApply | common/apsi/powers.h:159-278 | so the call that joins all its threads ends, in a state the scheduler reaches with everybody returned |
| Sender.ExponentiateArray | receiver/apsi/plaintext_powers.cpp:66-83 | square-and-multiply gives the exact power of every slot and fails exactly at exponent zero |
| PowersDags.FreshSourceNodes | common/apsi/powers.cpp:133-147 | on an object that was not configured before, the nodes without parents are exactly the sources |
| Sender.ComputePlaintextPowers | receiver/apsi/plaintext_powers.cpp:85-99 | the receiver sends exactly the powers of the source nodes, each slot the exact power modulo p; fails exactly if 0 is one of them |
| Sender.LoadPowers | sender/apsi/sender.cpp:166-195 | every received power is in its place of the sender's vector |
| Sender.ExpectedIsPower | sender/apsi/sender.cpp:258-278 | multiplying along the DAG gives each target its power of the query, with operands in coefficient form |
| Sender.PowersAreComputed | sender/apsi/sender.cpp:183-278 | whatever order the workers used, after one returns every target power of the query is there |
| Sender.TransformPowers | sender/apsi/sender.cpp:289-330 | each target power keeps its slots and ends in the form the evaluators expect, other entries are untouched |
| Sender.EvaluatorChoiceIsSound | sender/apsi/sender.cpp:357-378 | the chosen evaluator reads only powers of the target set and sees matching forms, if and only if the low degree is not 1 or there are at most two coefficients |
| Sender.LowDegreeOneFails | sender/apsi/sender.cpp:357-366 | a concrete polynomial on which a low degree of 1 goes wrong |
| Sender.ProcessPolyn | sender/apsi/sender.cpp:333-378 | with prepared powers the result holds in each slot the value of that bin's polynomial at the query |
| Bits.CopyToAligned | common/apsi/util/db_encoding.cpp:52-145 | exactly the requested bits are written at the start of the destination, every other bit of it is unchanged, for any source alignment and any bit count |
| Bits.CopyWithBitOffset | common/apsi/util/db_encoding.cpp:147-208 | the same at any bit of the destination |
| Bits.HeadByteAsWrittenIff | common/apsi/util/db_encoding.cpp:173-206 | with the unsigned test of the source, the first byte is defined, and right, if and only if the bits moved reach the end of their first source byte |
| Bits.CopyAsWritten | common/apsi/util/db_encoding.cpp:147-208 | the whole copy with the unsigned test: defined if and only if nothing goes to a partial first byte or the bits that do reach the end of their first source byte, and right whenever it is defined |
| Bits.HalfByteIsUndefined | common/apsi/util/db_encoding.cpp:173-206 | a copy of four bits that takes the undefined shift |
| Bits.HeadByteMod32Iff | common/apsi/util/db_encoding.cpp:173-206 | with shift counts taken modulo 32 the undefined branch writes the right byte if and only if no later bit of the source byte meets a zero bit of the destination |
| Bits.FullByte | common/apsi/util/db_encoding.cpp:76-88 | two shifted neighbours joined are eight consecutive source bits |
| Bits.TailTwoBytesRight | common/apsi/util/db_encoding.cpp:119-143 | the masks of the last byte take each bit from the right source byte and keep the upper bits of the destination |
| Bits.HeadTwoBytesRight | common/apsi/util/db_encoding.cpp:186-205 | the masks of the first byte put bits of two source bytes between kept bits of the destination |
| DbEncoding.WidthIsLargest | common/apsi/util/db_encoding.cpp:218-220 | the width in use is the only b with 2^b <= modulus < 2^(b + 1) |
| DbEncoding.BitsToFieldElts | common/apsi/util/db_encoding.cpp:211-255 | for that b, the fewest elements that hold the string, bit i of element j being bit j * b + i; the exception at a zero modulus |
| DbEncoding.PackIsPacking | common/apsi/util/db_encoding.cpp:222-252 | the chunks of the string are such a packing, the last one shorter and filled up with zeros |
| DbEncoding.PackBelowModulus | common/apsi/util/db_encoding.cpp:211-255 | every element produced is below the modulus |
| DbEncoding.FieldEltsToBits | common/apsi/util/db_encoding.cpp:263-318 | exact conditions for all four exceptions in terms of that b, otherwise the elements' bits one after the other and zero padding |
| DbEncoding.DecodingDefinedIff | common/apsi/util/db_encoding.cpp:263-318 | every copy of a decoding is defined as written if and only if there is at most one element or the bits of an element are whole bytes |
| DbEncoding.UnpackOfPack | common/apsi/util/db_encoding.cpp:211-318 | unpacking what was packed is the original bit string with zero padding |
| DbEncoding.PackOfUnpack | common/apsi/util/db_encoding.cpp:211-318 | packing what was unpacked is the original list of elements, if each fits its bits |
| DbEncoding.AlgebraizeItemLabel | common/apsi/util/db_encoding.cpp:320-360 | part k of the item carries element k of every item-length piece of the padded label |
| DbEncoding.LabelBits | common/apsi/util/db_encoding.cpp:320-360 | bit i of component l of part k is bit (felts_per_item * l + k) * b + i of the label, and zero after its end |
| DbEncoding.LabelSizeMatches | sender/apsi/sender_db.cpp:70-74 | two nested roundings of the encoder equal the one rounding of the database, so the size check of an insertion never fails on encoder output |
| DbEncoding.LabelSizeIsLeast | sender/apsi/sender_db.cpp:70-74 | the label size is the least number of item-length pieces that hold the label |
| DbEncoding.AlgItemLabelInField | common/apsi/util/db_encoding.cpp:320-360 | all parts and label parts are field elements, as a bundle requires |
| DbEncoding.LabelRoundTrip | common/apsi/util/db_encoding.cpp:320-382 | from any contents that store an encoded item and label, the label parts looked up decode to the label byte for byte |
| SlidingWindow.ShiftLeft | common/apsi/fourq/crypto_util.c:187-212 | the word-by-word shift multiplies the 256-bit value and drops exactly the top bits |
| SlidingWindow.SkipLeadingZeros | common/apsi/fourq/crypto_util.c:169-177 | stops when the leading one has fallen out, with as many bits counted as remain |
| SlidingWindow.OddPrefix | common/apsi/fourq/crypto_util.c:193-201 | the window is odd and never longer than the bits that remain, although five bits are always extracted |
| SlidingWindow.Consume | common/apsi/fourq/crypto_util.c:182-215 | after a shift the bits that left extend the exponent reached and the rest is still in the window |
| SlidingWindow.Exponentiate | common/apsi/fourq/crypto_util.c:141-216 | for every nonzero exponent and any associative product the result is that power, with the bit counter at exactly zero |
| SlidingWindow.InverseByExponent | common/apsi/fourq/crypto_util.c:141-146 | for a prime order the power order - 2 in Montgomery form is the Montgomery inverse |
| SlidingWindow.InvertModOrder | common/apsi/fourq/crypto_util.c:141-216 | the function as a whole inverts every nonzero element |
| Recoding.PrefixedIsSum | common/apsi/fourq/eccp2_core.c:455-513 | digits followed by an unread rest have the weighted sum of the digits plus the shifted rest as their value |
| Recoding.MLsbSetRecode | common/apsi/fourq/eccp2_core.c:455-513 | the signed comb sum of the digits is the scalar for odd scalars and one more for even ones, signs and digits are in range with the last sign positive, and nothing is left over below 2^249 |
| Recoding.AddBit | common/apsi/fourq/eccp2_core.c:501-510 | the carry chain detected by zero words adds the bit to the 256-bit value |
| Recoding.WNafRecode | common/apsi/fourq/eccp2_core.c:725-761 | digits sum to the scalar, nonzero ones are odd and below 2^(w-1) in absolute value and at least w apart, and nothing is written past index 64 |
| Recoding.NextDigit | common/apsi/fourq/eccp2_core.c:740-748 | the corrected digit and the corrected rest still make up the scalar, and the rest is bounded by the bits left |
| Recoding.Recode | common/apsi/fourq/eccp2.c:397-432 | the 65 signs sum to the first sub-scalar when it is odd, the digit bits under these signs sum to the other three, and every digit is at most 7 |
| Recoding.RecodeStep | common/apsi/fourq/eccp2.c:411-430 | one round keeps all four values, and the rounded-up halves fit 64 bits |
| ThreadPool.NextKeepsInv | common/apsi/util/thread_pool.h:112-252 | every event keeps in_flight equal to queued plus taken but unfinished tasks, worker i at position i, and tasks taken in the order of acceptance |
| ThreadPool.EveryRunKeepsInv | common/apsi/util/thread_pool.h:112-252 | so in every run of a pool built with a thread, through growing, shrinking and shutdown |
| ThreadPool.StartedAtMostOnce | common/apsi/util/thread_pool.h:233-249 | no task is started twice and none that was not accepted |
| ThreadPool.EveryTaskRuns | common/apsi/util/thread_pool.h:205-250 | from any reachable state and whatever else happens, once all workers have had their turn often enough every task accepted before was started exactly once and is neither queued nor with a worker; how often depends only on the numbers of queued tasks and workers |
| ThreadPool.PoolDrains | common/apsi/util/thread_pool.h:165-175 | if no producer comes in between, the queue is then empty and nothing is in flight, as the two waiting calls need |
| ThreadPool.EveryCallCounts | common/apsi/util/thread_pool.h:121-151 | until the pool is stopped every call of enqueue has been accepted or is blocked |
| ThreadPool.NobodyIsBlocked | common/apsi/util/thread_pool.h:128-141 | as a full queue doubles its limit, no producer is ever blocked in any run unless the limit is set from outside |
| ThreadPool.BlockedProducerGetsIn | common/apsi/util/thread_pool.h:129-150 | a blocked producer is accepted after that many rounds of the workers |
| ThreadPool.ResizeTakesEffect | common/apsi/util/thread_pool.h:184-232 | after set_pool_size, and 4 rounds for each worker of before, the pool has exactly max(1, limit) workers |
| ThreadPool.OnlyTheLastLeaves | common/apsi/util/thread_pool.h:219-232 | a worker leaves only from the last position and without a task, and worker 0 never before the pool is stopped |
| ThreadPool.DestructorLeavesNothing | common/apsi/util/thread_pool.h:154-164 | when the destructor stops waiting the queue is empty, nothing is in flight and every accepted task was started |
| ThreadPool.NothingLostIffOneThread | common/apsi/util/thread_pool.h:112-117 | this holds in all runs if and only if the pool was built with at least one thread |
| ThreadPool.PoolWithoutThreadsLosesTask | common/apsi/util/thread_pool.h:112-117 | the run of a pool without threads that loses a task |
| ThreadPool.ShutdownProgress | common/apsi/util/thread_pool.h:154-164 | once stopped, a worker's turn changes nothing or brings the end nearer by one |
| ThreadPool.ShutdownNotStuck | common/apsi/util/thread_pool.h:154-164 | and there is always a worker whose turn does |
| ThreadPool.ShutdownIsBounded | common/apsi/util/thread_pool.h:154-164 | in every run of a stopped pool the turns that change it and the rank that is left add up to the rank at the start, whatever producers and resizing do in between |
| ThreadPool.DestructorReturnsIff | common/apsi/util/thread_pool.h:154-164 | the destructor stops waiting exactly when that many turns were made |
| ThreadPool.FairShutdownReturns | common/apsi/util/thread_pool.h:154-164 | that many rounds of the workers are enough for it |
| Receiver.LayoutBundle | receiver/apsi/receiver.cpp:294-323 | slot block * felts_per_item + k holds part k of the item at that place of the cuckoo table |
| Receiver.ExpectedLabel | receiver/apsi/receiver.cpp:436-493 | when a label is expected after all checks, label data and keys are there and enough bytes were received |
| Receiver.ExtractLabel | receiver/apsi/receiver.cpp:544-559 | the elements of the block, component after component, decoded and cut to the expected length; never an exception on what the checks let through |
| Receiver.InjectiveNeverDuplicates | receiver/apsi/receiver.cpp:518-527 | a translation table that gives each item one location never leads to a duplicate match |
| Receiver.ProcessResultPart | receiver/apsi/receiver.cpp:413-573 | an item is marked exactly when some zero block maps to it, and carries the label of that block when one is expected; the exception is thrown exactly when two blocks map to one item, so never for an injective table |
| Receiver.MergeRecords | receiver/apsi/receiver.cpp:576-619 | each item gets the record of the only part that marks it; the exception is thrown exactly when two parts mark one item, and parts of the wrong length are passed over |
| Preprocess.PreprocessData | sender/apsi/sender_db.cpp:98-191 | exactly one task for each entry and each of its cuckoo locations, in order, with packed item and label |
| Preprocess.TasksArePreprocessed | sender/apsi/sender_db.cpp:98-191 | every task comes from an entry and one of its locations, and each of these has a task |
| Preprocess.KeepNewEntries | sender/apsi/sender_db.cpp:775-786 | the loop over the hashed items keeps the first entry of each item that is not known, and knows all items afterwards |
| Preprocess.FirstEntriesAreKept | sender/apsi/sender_db.cpp:775-786 | exactly the first entry of every item that is not known is kept, in the order of the data |
| Preprocess.NewEntriesRight | sender/apsi/sender_db.cpp:775-786 | what is kept lists no item twice, and exactly the items of the data that were not known |
| Preprocess.TaskIsWellFormed | sender/apsi/sender_db.cpp:98-191 | every such task is acceptable to a bundle: right number of parts and components, all field elements, no bin out of range |
| Preprocess.PreprocessedNeverFails | sender/apsi/sender_db.cpp:98-322 | hence the insert worker never throws on preprocessed data |
| EndToEnd.BatchFits | sender/apsi/sender_db.cpp:265-275 | bins of the size that insertion allows have polynomials within the degrees the powers cover |
| EndToEnd.ProcessBundle | sender/apsi/sender.cpp:333-378 | a bundle's matching result is zero in exactly the slots whose query value is in the bin, and its label results are the label parts there; it fails exactly on a stale cache |
| EndToEnd.AnswerQuery | sender/apsi/sender.cpp:238-378 | the same from the powers that ComputePowers leaves behind |
| EndToEnd.PlaceIsUnique | sender/apsi/sender_db.cpp:79-92 | sender and receiver agree on the bundle index and block of a location |
| EndToEnd.ZeroBlockIffHeld | receiver/apsi/receiver.cpp:498-507 | with slots that answer correctly, a block is zero if and only if this bundle holds every queried part in its own bin |
| EndToEnd.InsertThenQuery | sender/apsi/sender_db.cpp:98-322 | from an empty database through the insert worker, cache regeneration, stripping if wanted, and evaluation on the powers of any schedule: every entry is found with its label by some bundle's answer, and a block of bundle i's answer is zero if and only if bundle i holds the item queried there |
| EndToEnd.CreateQuery | receiver/apsi/receiver.cpp:288-323 | the receiver's powers are exactly the source powers of the laid out items, and its DAG is sound; refused exactly for query powers that the target powers do not allow |
| EndToEnd.QueryPowers | sender/apsi/sender.cpp:111-235 | layout, query powers, the DAG and ComputePowers under a fair schedule give exactly what the evaluation needs |
| SharedParts.UnsharedPartSentOnce | sender/apsi/sender_db.cpp:98-191 | a part of an item that no other item shares at the location is sent to its bin at most once, and only if the item is in the data |
| SharedParts.UnsharedPartDecides | receiver/apsi/receiver.cpp:498-527 | hence at most one bundle of a new database holds such an item, and only if the item is in the data |
| SharedParts.CoincidenceExample | receiver/apsi/receiver.cpp:518-527 | three distinct labeled items, the first of which shares one part with each of the others, after which two bundles hold it |
| SharedParts.FalseMatchExample | receiver/apsi/receiver.cpp:498-507 | two labeled items after which a bundle holds a third one that was never inserted |
| Protocol.AnyDispatchBuilds | sender/apsi/sender_db.cpp:329-392 | insert workers in any interleaving, started on an empty database, leave at every index exactly the bundles the other results are about |
| Protocol.SplitNewData | sender/apsi/sender_db.cpp:750-848 | insertion into an empty database fails if and only if labeled data lists an item twice, whatever remove_if leaves in its tail; otherwise the first entry of each item is dispatched |
| Protocol.MergeParts | receiver/apsi/receiver.cpp:576-619 | over the bundles of all indices: a match if and only if some bundle holds the item, with its label; the exception if and only if two bundles do |
| Protocol.NeverHeldByTwo | receiver/apsi/receiver.cpp:518-527 | when each queried item has a part of its own, no two bundles of the whole database hold an item |
| Protocol.ExactMatches | receiver/apsi/receiver.cpp:413-619 | and the matched items are exactly those in the data |
| Protocol.RunProtocol | sender/apsi/sender.cpp:111-235 | from the sender's data and the receiver's table to the match records over all bundle indices, with the exact condition of each failure, right labels, and exactly the common items when each queried item has a part of its own |
| Protocol.ThrowingExample | receiver/apsi/receiver.cpp:595-613 | three distinct items, one of them queried, for which all conditions of the protocol hold but two bundles hold the queried one: the receiver throws |
| Protocol.FalseMatchIsTold | receiver/apsi/receiver.cpp:498-507 | two items, neither of them queried, for which all conditions of the protocol hold but some bundle holds the queried one: the receiver is told of a match |
| Histories.HistoryKeeps | sender/apsi/sender_db.cpp:213-454 | any sequence of insert, overwrite and remove runs, failing ones included, keeps all bundles sound and all bins within the limit the powers cover |
| Histories.SentIsStored | sender/apsi/sender_db.cpp:213-454 | an entry that a successful run sent is stored at the end of the sequence with the label of that run, unless something later touches its parts |
| Histories.QueryAfterRuns | sender/apsi/sender_db.cpp:213-454 | after any sequence, cache regeneration and evaluation, every entry still stored is found with its current label, and so is every entry that was sent and not touched later |
| Histories.GetLabel | sender/apsi/sender_db.cpp:987-1056 | the exception exactly if no bundle holds all parts; otherwise the label beside the first such bundle, which is the item's own whenever one of its parts occurs only once in its bin |
| Histories.OnlyHolder | sender/apsi/sender_db.cpp:1026-1035 | the first bundle with all parts is the one that stores the entry when one part occurs only once |
| Histories.UnsharedLabelIsFound | sender/apsi/sender_db.cpp:987-1056 | in a new database the search ends at the entry's own bundle whenever no other item shares one of its parts at the location |

## Left out

- SEAL, Kuku, FlatBuffers, JSON, hashing, sockets, logging and the command-line tools; the cuckoo locations of an item are arbitrary, and encryption, modulus switching and relinearization do not change slots.
- Slots of a ciphertext beyond items_per_bundle * felts_per_item, which carry no bins, and the clearing of irrelevant ciphertext bits, which is an approximation below the noise.
- BinBundles.Filter: the cuckoo filter is a multiset that reports every stored element and arbitrary others; its hash tables, and an insertion that fails because the filter is full, are not part of this model.
- Recoding.WNafRecode: requires a window of at most 30 bits, because the source computes 2^w in a signed 32-bit integer.
- Bits.CopyWithBitOffset: `high_diff` (common/apsi/util/db_encoding.cpp:173-176) is unsigned in the source, so its test for `<= 0` misses negative differences and the other branch shifts by more than the word width, which C++ leaves undefined; the model takes the signed difference, here and in decoding. `Bits.CopyAsWritten` and `DbEncoding.DecodingDefinedIff` say exactly when the test as written works.
- DbEncoding.ReadU64: a number and its eight little-endian bytes are related bit by bit instead of by the source's shifts and masks.
- Overflow of 32-bit counters, sizes and products (`safe_cast`, `mul_safe`, `add_safe`), and of `static_cast<uint32_t>` in the powers loops.
- BundleSets.AssignmentStores: after an overwrite one bundle stores the new label; that no other bundle still holds an old copy is not claimed, since the source inserts a copy into the first bundle with room that does not hold the item (sender/apsi/sender_db.cpp:258-278).
- Protocol.SplitNewData: the entries behind the end that `remove_if` returns are unspecified, so they are a parameter; an insertion into a database that already has items, and the split in `SenderDB::remove`, are modelled on the lists that the workers are given.
- SenderDB.EveryInterleavingIsSequential: a worker's handling of one task is one step; workers share no bundle set, so finer steps commute.
- BinBundles.BinBundle.RegenPolyns: the parallel tasks run one after the other here; each writes a slot of its own.
- BinBundles.BinBundle.RegenCache: requires that a stripped bundle has a fresh cache; the source would read bins that no longer exist.
- PowersDags.PowersDag.SourceNodes: on a reused object entries of an earlier configuration remain in the node table, as in the source, so exactness of the sources holds for a fresh object.
- PowersScheduler.Step: the value a call computes is read in one step and written in another; calls of the user's function on different nodes do not interfere, and the memory order is sequentially consistent as in the source's default.
- ThreadPool.NextKeepsInv: a lock-protected section is one step, spurious wake-ups are turns that change nothing, and missed notifications are not modelled; tasks do not throw, since the source wraps them in packaged tasks.
- Saving and loading of parameters, bundles and databases, OPRF, label encryption, and the curve arithmetic of FourQ, which is not part of this model.
- Receiver.ProcessResultPart: the record holds the encrypted label; decrypting it with the item's key is not part of this model.
- Protocol.RunProtocol: a new database and a low degree for which the evaluators are sound; the indices are handled one after the other (`Protocol.AnyDispatchBuilds` covers the interleavings of the insert workers), and result parts arrive as lists. The locations of an item are an arbitrary function with distinct values inside the table.
- Histories.GetLabel: the set of hashed items, which is asked first, and the decryption of the label.
