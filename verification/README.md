# Verification of twine's worker pool and its helpers

A Dafny model of the parts of twine that are hard to get right by testing, with proofs.

**The worker pool** (`src/worker_pool_implementation.h`). `Pool.dfy` describes the pool as interleaved
steps of any number of worker threads and one controlling thread; a step is a critical section, a
semaphore operation, a flag access or a thread creation or join, and a release posts its tokens one
at a time while workers already move. A run may contain any calls: waiting, waking, waking and
waiting, adding workers (with launches that fail and initialisations that fail) and destruction.
`PoolInvariant.dfy` proves the invariant that ties tokens, captured semaphores, the arrival count,
the thread count and the list of workers together; `PoolSafety.dfy`, `PoolRuns.dfy`,
`PoolProgress.dfy`, `PoolCalls.dfy`, `PoolOutcomes.dfy`, `PoolRefinement.dfy` and `PoolDiscipline.dfy` draw the
consequences.
`Barrier.dfy` holds the barrier's own fields as a class; its methods and the steps share one set of
state functions. `Placement.dfy` and `IsolatedCores.dfy` cover the choice of cores.

What is assumed of the surroundings:

- one thread calls the pool, and memory is sequentially consistent;
- both semaphores start at zero (`src/thread_helpers_posix.cpp:74`), and waiting on one returns only
  after a token has been taken;
- waiting on the condition releases the mutex and sleeps in one step, and may return without a signal
  (`pthread_cond_wait`, IEEE Std 1003.1-2017, System Interfaces);
- a signal with nobody asleep has no effect, since only the controlling thread ever waits;
- callbacks terminate, and assertions are compiled in: a release that finds the count different from
  the thread count ends the run in the state `AssertFailed`;
- `add_worker` without a core id is called only on a pool with at least one core.

**The argument scanner** (`test/test_utils/getopt_win.h`). `PermuteArgs.dfy` proves that the in-place
exchange of two blocks, done by following cycles, is exact. `Grammar.dfy` says what a word list means when it is read from left
to right and nothing is moved: the events, and for each word whether it belongs to the options. `Getopt.dfy` is the
scanner as an object that permutes the vector while it reads; `Scan.dfy` proves that it reports that
reading and ends with the stable partition. Short options, clusters, long options, abbreviations, `-W`
and all three treatments of non-options are included. `RoundTrip.dfy` ties the reading to its
opposite, writing options down; `Conventions.dfy` states on the characters of the words what is no option and what
dashes mean, and where each word ends up; and `Rescan.dfy` says when a second scan of the permuted vector gives the same result.

**Condition variables** (`src/condition_variable_implementation.h`). `IdAllocator.dfy` and
`ConditionVariables.dfy`.

Some properties turn out not to hold on all inputs; the exact conditions are proved.

- A whole scan partitions the vector. Fails on a cluster that ends in a dash (`-a-`), which ends the scan
  without the final exchange. The vector, with the word holding the dash counted among the options, and
  `optind` are then each right exactly if no word had been skipped (`Getopt.ScanAll`, `Grammar.DashPartitionIff`;
  input: `Grammar.DashExample`). Beforehand: it can happen exactly if the scan permutes, there is no long-option
  table and `-` is not an option (`Grammar.MissesPartitionIff`), and then only at a word of at least three
  characters from dash to dash (`Grammar.DashStopsAt`).
- A second permuting scan reports the same events. Fails exactly when the last option lacks its argument and a
  word had been skipped. The first skipped word then becomes the argument, except that after a bare `-W` it is
  read as the long option; all other events are the same and nothing moves (`Rescan.SecondScan`; inputs:
  `Rescan.ArgumentExample`, `Rescan.LongByWExample`).
- Options written down are read back as meant. Under `getopt_long_only` this fails exactly when the rest of a
  cluster, from some option letter on, is taken for a long option (`RoundTrip.ReadsBack`; input: `RoundTrip.ClusterExample`).
- The flag form of the condition variable does not do what `include/twine/twine.h` says of `wait`, that it
  blocks until `notify`: a notify before the wait does not end it; a wait can end exactly if a notify or
  a spurious wakeup has come since it began (`ConditionVariables.WaitEndsIff`; input: `ConditionVariables.EarlyNotify`).
  In the semaphore form early notifies count (`ConditionVariables.SemaphoreWaitEndsIff`).
- The assertion in a wakeup holds. Judged by what the controlling thread has done it is safe exactly if the pool
  is known to be idle or has no workers (`PoolDiscipline.WakeupIsSafeIff`; input: `PoolSafety.DoubleWakeupFails`),
  which a caller can tell from its calls and what they returned (`PoolDiscipline.CallLeavesSettled`).

## Model

| member | source | states |
|---|---|---|
| Barrier.BarrierWithTrigger.constructor | src/worker_pool_implementation.h:331-338 | a new barrier has no tokens, no arrivals and no threads |
| Barrier.BarrierWithTrigger.Arrive | src/worker_pool_implementation.h:231-239 | the arriving worker captures the semaphore active at that moment; one more arrival; the condition is signalled exactly when the count is complete |
| Barrier.BarrierWithTrigger.SemaphoreWait | src/worker_pool_implementation.h:241 | one token of the captured semaphore is consumed, nothing else changes |
| Barrier.BarrierWithTrigger.SetNoThreads | src/worker_pool_implementation.h:271-276 | only the thread count changes |
| Barrier.BarrierWithTrigger.SwapSemaphores | src/worker_pool_implementation.h:324-327 | the active index flips |
| Barrier.BarrierWithTrigger.ReleaseAll | src/worker_pool_implementation.h:281-297 | the count drops to zero, the semaphores change roles, and the formerly active one receives one token per thread |
| Barrier.BarrierWithTrigger.MustWait | src/worker_pool_implementation.h:259-263 | the controller sleeps exactly while the count is below the thread count |
| PoolInvariant.StepInv | src/worker_pool_implementation.h:231-321 | every step of any worker and of any call keeps the invariant: no token on the active semaphore, arrivals equal the workers holding it, tokens (and posts still due) on the other equal the workers still to leave it, thread counts follow the list of workers, nobody exits unless told to, usage counters add up |
| PoolInvariant.ReachableInv | src/worker_pool_implementation.h:231-321 | the invariant holds in every state that any run from a new pool reaches, also during adds, removals and shutdown |
| PoolInvariant.WorkTokens | src/worker_pool_implementation.h:231-242 | token and waiter agreement is kept by each worker step, also in the middle of a release's posts |
| PoolInvariant.ReleaseInv | src/worker_pool_implementation.h:281-291 | the start of a release keeps the invariant, and the releases made on removal and on destruction never fail their assertion |
| PoolSafety.ExactlyOnce | src/worker_pool_implementation.h:488-497 | in every reachable state each worker is at most one callback behind the releases since it was added, and not behind at all when the count is complete |
| PoolRuns.ExactlyOncePerRelease | src/worker_pool_implementation.h:488-497 | counting the steps of a run from any idle point: callbacks of a worker equal releases whenever the pool is idle again and are at most one short in between; workers present at the start stay |
| PoolSafety.EarlyWorkerWaits | src/worker_pool_implementation.h:234-241 | a worker that came round early cannot move before the next release, whatever tokens are out |
| PoolSafety.HeldWorkerLeaves | src/worker_pool_implementation.h:288-296 | once the posts are done every worker that is neither parked nor gone can move; one held by the released semaphore finds a token |
| PoolSafety.NoLostWakeup | src/worker_pool_implementation.h:259-264 | while the controller sleeps the count is incomplete and some worker can move |
| PoolSafety.ReleaseFailsIff | src/worker_pool_implementation.h:285 | the assertion of a release fails exactly when some worker is not waiting on the active semaphore |
| PoolSafety.IdlenessIsStable | src/worker_pool_implementation.h:249-265 | after a returned wait no worker moves until the next release or new thread, and the count stays complete |
| PoolSafety.AssertionsHoldFromStart | src/worker_pool_implementation.h:679-687 | if wakeups are requested only from a pool known to be idle, no assertion fails in any run |
| PoolSafety.DoubleWakeupFails | src/worker_pool_implementation.h:679-682 | without that discipline it can: two wakeups in a row from any idle pool with a worker |
| PoolDiscipline.Laggard | src/worker_pool_implementation.h:281-297 | for every run between calls with the pool not known to be idle there is one with the same steps of the controlling thread in which no worker has moved since the last release |
| PoolDiscipline.DisciplineIsNeeded | src/worker_pool_implementation.h:679-687 | whatever the calls before it: a wakeup from a pool that has a worker and is not known to be idle fails its assertion in some run with the same steps of the controlling thread |
| PoolDiscipline.WakeupIsSafeIff | src/worker_pool_implementation.h:285-302 | so the wakeup is safe in all runs that look the same to the controlling thread exactly if the pool is known to be idle, or empty, in all of them |
| PoolDiscipline.CallLeavesSettled | src/worker_pool_implementation.h:634-687 | waiting, waking and waiting, and a successful add leave the pool known to be idle; a wakeup and a removal do not; a refused add and a failed launch change nothing about it |
| PoolSafety.PostsRun | src/worker_pool_implementation.h:291-296 | a release that no worker interrupts leaves the barrier as the method of the barrier class does |
| PoolProgress.StepMeasure | src/worker_pool_implementation.h:249-265 | every step inside a call lowers a measure, a spurious wakeup raises it by one |
| PoolProgress.CallsMoveOn | src/worker_pool_implementation.h:597-672 | inside every call, in every state, some step other than a spurious wakeup is possible: no deadlock |
| PoolProgress.EveryCallReturns | src/worker_pool_implementation.h:597-687 | every call ends within a number of steps linear in the number of workers plus two per spurious wakeup |
| PoolProgress.PoolBecomesIdle | src/worker_pool_implementation.h:488-497 | between calls each worker step lowers the rank, some worker can step while the count is incomplete, and rank zero is exactly a complete count |
| PoolCalls.AddWorkerOutcome | src/worker_pool_implementation.h:634-671 | for every interleaving: success adds one parked worker that has made no callback; failed initialisation restores list, thread count and core usage and costs each older worker exactly one extra release; a failed launch leaves only the core usage raised |
| PoolCalls.NewWorkerIsSilent | src/worker_pool_implementation.h:641-661 | a worker being added, or removed after failing to initialise, never runs its callback |
| PoolCalls.UnknownCore | src/worker_pool_implementation.h:610-618 | an add is refused without any change exactly when no core has the requested id |
| PoolCalls.ClosingWorkersLeave | src/worker_pool_implementation.h:491-495 | after the pool's flag is cleared no worker calls back or enters the barrier again |
| PoolCalls.CleanShutdown | src/worker_pool_implementation.h:597-602 | from any state between calls and for every interleaving: at destruction all threads have been joined, both semaphores are empty, no step is possible, and each worker made exactly one callback per earlier release |
| PoolOutcomes.AddStatus | src/worker_pool_implementation.h:638-672 | an add that goes ahead returns, and what it returns follows from the steps of the run: a launch error exactly if the launch failed, success exactly if the launch and the new worker's initialisation succeeded, a failed initialisation otherwise |
| PoolOutcomes.PinnedPlacement | src/worker_pool_implementation.h:610-618 | with a requested id the first core carrying it has one worker more and the others are unchanged, unless the worker was removed again |
| PoolOutcomes.AutoPlacement | src/worker_pool_implementation.h:619-636 | without one the same holds for the first of the least used cores |
| PoolOutcomes.ShutdownCompletes | src/worker_pool_implementation.h:597-602 | every destruction completes: its steps are bounded, some step is possible until it is over, and it is over only with the pool destroyed |
| PoolOutcomes.WakeAndWait | src/worker_pool_implementation.h:674-687 | a wait makes no release and a wakeup exactly one; a call that waits returns with every worker parked; workers and cores stay; only a wakeup can fail its assertion, and then releases nobody |
| PoolOutcomes.LastArrivalWakes | src/worker_pool_implementation.h:235-239 | a sleeping controller is woken by a worker exactly if that worker is the last to arrive |
| PoolCalls.UsageAddsUp | src/worker_pool_implementation.h:636-669 | between calls the usage counters add up to the listed workers plus the launches that failed |
| PoolCalls.PlacementIsRoundRobin | src/worker_pool_implementation.h:619-636 | after k adds without core id core j carries k / c workers, one more if j < k % c; failed launches count |
| PoolRefinement.CombinedCallRefines | src/worker_pool_implementation.h:299-321 | every run maps to a run that uses release and wait separately and ends in the same semaphores, counts, workers and histories |
| Placement.LeastUsed | src/worker_pool_implementation.h:622-623 | the first core among those with the least usage |
| Placement.FindCore | src/worker_pool_implementation.h:612-617 | the first core with the id, none exactly if no core has it |
| Placement.RoundRobin | src/worker_pool_implementation.h:619-636 | repeated least-used placement from zero goes round the cores in order |
| Placement.AutoKeepsSpread | src/worker_pool_implementation.h:619-636 | an automatic placement never raises the spread of usage above the larger of one and its old value, whatever pinned workers there are |
| IsolatedCores.BuildCoreList | src/worker_pool_implementation.h:75-83 | consecutive ids from the start, as many as asked for, none in use |
| IsolatedCores.ReadIsolatedCores | src/worker_pool_implementation.h:90-109 | the whole range between the two numbers, empty if there is no dash or a number is missing or out of range |
| IsolatedCores.GetIsolatedCpus | src/worker_pool_implementation.h:119-139 | the first so many cores of the range, unused; nothing if there is no file or no range |
| IsolatedCores.NoDashListsNothing | src/worker_pool_implementation.h:94-108 | a text without a dash lists nothing |
| IsolatedCores.NumberlessSideListsNothing | src/worker_pool_implementation.h:96-108 | nor does one with no digit after the optional space and sign on either side of its first dash |
| IsolatedCores.NumbersListRange | src/worker_pool_implementation.h:94-105 | two numbers around the first dash, with space, sign and zeros before their digits and anything but a digit behind, list the range between them, unless one does not fit an int |
| IsolatedCores.RangeRoundTrip | src/worker_pool_implementation.h:94-104 | reading the decimal text "a-b" gives exactly a to b |
| Euclid.Gcd | test/test_utils/getopt_win.h:166-179 | the loop ends with the value of Euclid's recursion |
| Euclid.GcdIsGreatest | test/test_utils/getopt_win.h:163-179 | every common divisor divides the result |
| Euclid.GcdDivides | test/test_utils/getopt_win.h:166-179 | the result divides both arguments |
| Euclid.Bezout | test/test_utils/getopt_win.h:166-179 | the result is an integer combination of the arguments |
| PermuteArgs.SpotReturns | test/test_utils/getopt_win.h:198-214 | a cycle is back at its first slot after (end - start) / gcd steps |
| PermuteArgs.SpotsDistinct | test/test_utils/getopt_win.h:201-215 | no slot is met twice, on one cycle or on two |
| PermuteArgs.SpotsCover | test/test_utils/getopt_win.h:201-215 | gcd many cycles meet every slot |
| PermuteArgs.SwapStep | test/test_utils/getopt_win.h:205-213 | each swap through the first slot moves one more element of the cycle to its place |
| PermuteArgs.CycleDone | test/test_utils/getopt_win.h:202-214 | a finished inner loop has put exactly the elements of its cycle in place |
| PermuteArgs.PermuteArgs | test/test_utils/getopt_win.h:186-216 | the two blocks change places, order kept in both, everything else untouched |
| PermuteArgs.ExchangedBack | test/test_utils/getopt_win.h:181-185 | exchanging the blocks again restores the vector |
| LongOptions.FindMatch | test/test_utils/getopt_win.h:307-351 | the loop finds the first exact match, else the first eligible prefix, ambiguous exactly if a later eligible prefix means something else |
| LongOptions.MatchUnique | test/test_utils/getopt_win.h:320-343 | that description leaves one answer |
| LongOptions.MatchMeans | test/test_utils/getopt_win.h:320-343 | the same on the characters of the names, including that one character that may be a short option matches no longer name |
| LongOptions.SameButForName | test/test_utils/getopt_win.h:303-306 | two entries have the same interpretation exactly if they differ in their names only |
| Getopt.Getopt.ParseLong | test/test_utils/getopt_win.h:294-416 | event and words used of a long option, including the hand-back to short options and a missing argument at the end of the vector |
| Getopt.Getopt.ReadShort | test/test_utils/getopt_win.h:557-612 | event, rest of the cluster and words used of a short option, including `-W` and the trailing dash |
| Getopt.Getopt.ReadPlace | test/test_utils/getopt_win.h:541-612 | long options are tried first where the source tries them |
| Getopt.Getopt.SkipWord | test/test_utils/getopt_win.h:498-508 | skipping a non-option first moves the options read since the last one in front of the skipped block |
| Getopt.Getopt.EndOfVector | test/test_utils/getopt_win.h:462-478 | the end of the vector does the last exchange and points optind at the skipped words |
| Getopt.Getopt.EndAtDashes | test/test_utils/getopt_win.h:512-531 | so does "--", which stays with the options |
| Getopt.Getopt.FindOption | test/test_utils/getopt_win.h:459-533 | the part up to the next option changes nothing about the outcome, or reports a non-option in place, or completes the partition |
| Getopt.Getopt.Next | test/test_utils/getopt_win.h:423-613 | each call reports the next event of the reading and keeps the goal, or ends with the vector partitioned, or stops at a trailing dash with the layout as it was; it can be called again after any of these, and after the dash reads the same word once more |
| Getopt.ScanAll | test/test_utils/getopt_win.h:423-613 | a whole scan reports exactly the reading of the original vector and leaves it stably partitioned with optind at the first skipped word, if and only if no trailing dash ended a scan that had skipped a word; at a trailing dash the skipped words lie behind the options read before the last of them, and the vector, the word with the dash counted as an option word, is partitioned if and only if none was skipped |
| Grammar.DashPartitionIff | test/test_utils/getopt_win.h:560-566 | at a trailing dash the words lie as they should, with the dash word among the options, exactly if no word was skipped |
| Grammar.MissesPartitionIff | test/test_utils/getopt_win.h:557-566 | some vector misses its partition exactly if the scan permutes, has no long options and the dash is not an option |
| Grammar.DashStopsAt | test/test_utils/getopt_win.h:557-566 | a scan stops early only at an option word of three or more characters that ends in a dash |
| Conventions.PlainWordRead | test/test_utils/getopt_win.h:480-511 | a word that does not begin with a dash, or is a lone dash that is no option, is skipped, reported in place or ends the scan, as the mode says, and reading goes on behind it |
| Conventions.DashedWordsAreOptions | test/test_utils/getopt_win.h:480-511 | a longer word that begins with a dash is never skipped, never reported in place and never ends a scan as a non-option |
| Conventions.DashesRead | test/test_utils/getopt_win.h:512-532 | two dashes end the scan in every mode and belong to the options |
| Conventions.LoneDash | test/test_utils/getopt_win.h:480-515 | a lone dash that is listed is read as an option |
| Conventions.ListedDash | test/test_utils/getopt_win.h:557-610 | a listed dash at the end of a cluster is a flag or takes its argument as it is listed |
| Conventions.DashInside | test/test_utils/getopt_win.h:557-572 | without long options a dash inside a cluster is an unknown option even if listed |
| Conventions.TrailingDash | test/test_utils/getopt_win.h:557-566 | without long options an unlisted dash at the end of any cluster of lone letters ends the scan after them |
| Conventions.DashedLong | test/test_utils/getopt_win.h:541-555 | with long options a dash inside a cluster starts a long option as two dashes do |
| Conventions.PartitionPlaces | test/test_utils/getopt_win.h:181-185 | word by word, where the partition puts it: behind as many option words, or option and skipped words, as precede it |
| Grammar.SkippedAreNonOptions | test/test_utils/getopt_win.h:480-511 | only non-options are skipped, only when permuting, and words are left unread only after "--", at a trailing dash or when stopping at non-options |
| Grammar.PartitionKeepsWords | test/test_utils/getopt_win.h:181-185 | the partition is a permutation of the words |
| Grammar.DashExample | test/test_utils/getopt_win.h:560-566 | an input left as it was although its partition is another |
| Scan.SkipNonOption | test/test_utils/getopt_win.h:498-510 | a skip keeps the events still to come and the final layout |
| Scan.TakeOption | test/test_utils/getopt_win.h:557-612 | an option adds its event, takes its words and keeps the final layout |
| Scan.ReachEnd | test/test_utils/getopt_win.h:462-478 | the final exchange reaches the layout that was aimed at all along |
| Scan.ReachDashes | test/test_utils/getopt_win.h:518-531 | so does the exchange at "--" |
| RoundTrip.ShortReads | test/test_utils/getopt_win.h:535-612 | a cluster of flags and unlisted letters, alone or ending in an option with its argument attached or in the next word, or in one whose optional argument is left out, is read as written: each letter reported, unlisted ones as unknown; under `getopt_long_only` exactly if no rest of the cluster is taken for a long option |
| RoundTrip.LongReads | test/test_utils/getopt_win.h:294-416 | so is a long option under its name or an abbreviation, bare, with `=argument`, with the argument in the next word, with an argument it does not take, unknown or ambiguous; with two dashes, by `-W`, and under `getopt_long_only` with one dash |
| RoundTrip.ReadsBack | test/test_utils/getopt_win.h:423-613 | any list of options, wrong ones included, written down in the allowed ways in front of any other words, is read back as meant with its words all taken, if and only if no cluster is mistaken for a long option |
| RoundTrip.LackingReads | test/test_utils/getopt_win.h:598-605 | an option whose argument should be the next word lacks it at the end of the vector |
| RoundTrip.ClusterExample | test/test_utils/getopt_win.h:540-555 | a cluster of two flags that is read as a long option |
| Rescan.DecodeLocal | test/test_utils/getopt_win.h:557-612 | an option depends only on the words it uses, except that a missing argument depends on the vector ending there |
| Rescan.DecodeAnswered | test/test_utils/getopt_win.h:574-610 | an option that lacks its argument takes the next word once one follows, a bare `-W` as the long option |
| Rescan.SecondScan | test/test_utils/getopt_win.h:423-613 | scanning the permuted vector again moves nothing and gives the same events exactly unless an argument was missing and a word had been skipped; then only the last event differs, being the answer that the skipped words give |
| Rescan.ArgumentExample | test/test_utils/getopt_win.h:598-609 | an input whose second reading gives the option the skipped word |
| Rescan.LongByWExample | test/test_utils/getopt_win.h:574-590 | one whose second reading takes the skipped word for a long option |
| IdAllocator.IdTable.GetNextId | src/condition_variable_implementation.h:163-174 | hands out the smallest free id, fails exactly when all are held |
| IdAllocator.IdTable.DeregisterId | src/condition_variable_implementation.h:176-181 | frees exactly that id |
| IdAllocator.NeverTwice | src/condition_variable_implementation.h:160-181 | over any sequence of calls no id is handed out twice without being freed in between |
| ConditionVariables.PosixSemaphoreConditionVariable.Notify | src/condition_variable_implementation.h:140-143 | one more token |
| ConditionVariables.PosixSemaphoreConditionVariable.Wait | src/condition_variable_implementation.h:145-149 | returns true and uses up one token |
| ConditionVariables.StdConditionVariable.Notify | src/condition_variable_implementation.h:66-71 | the flag is set |
| ConditionVariables.StdConditionVariable.FinishWait | src/condition_variable_implementation.h:77-79 | reports and clears the flag |
| ConditionVariables.NotifiesAreCounted | src/condition_variable_implementation.h:140-149 | on every run the pending tokens are the notifies less the finished waits |
| ConditionVariables.ReturnsTellTheTruth | src/condition_variable_implementation.h:66-80 | a wait returns true exactly when there was a notify since the previous wait returned |
| ConditionVariables.TrueReturnsAreBounded | src/condition_variable_implementation.h:66-80 | never more true returns than notifies |
| ConditionVariables.WaitEndsIff | src/condition_variable_implementation.h:66-80 | on every run of the flag form a wait that has begun can end exactly if a notify or a spurious wakeup came since; what came before it has no part in it |
| ConditionVariables.SemaphoreWaitEndsIff | src/condition_variable_implementation.h:140-149 | on every run of the semaphore form a wait can end exactly while the notifies so far outnumber the finished waits |
| ConditionVariables.EarlyNotify | src/condition_variable_implementation.h:66-80 | an input for the difference: after a notify and then a wait the flag form is asleep with the flag set |

## Left out

- PoolSafety.AssertionsHoldFromStart: says nothing of builds with assertions compiled out, where a release of a busy pool goes on.
- PoolCalls.CleanShutdown: speaks of states between calls; a pool whose assertion has failed is not destroyed.
- Barrier.BarrierWithTrigger.ReleaseAll: as a method it posts without interruption; posts interleaved with workers are steps in `Pool.dfy`.
- The pool and its worker threads are values in `Pool.dfy`, not objects, because steps of several threads interleave; the update of their fields in place and the joining of threads by destructors appear only as steps.
- The two flag reads after a wait are one step; the flags change only while every worker is parked.
- Concurrent calls to the id allocator, which `get_next_id` does not lock; ids taken before a constructor throws.
- Getopt.Getopt.ReadPlace: a long option whose `val` is -1 and that has no flag is not distinguished; the source takes the parser's -1 for "no match" and goes on in the option's name as short options with `optind` already past the word, possibly past the vector.
- Getopt.Getopt.ParseLong: the same holds after `-W`, where that -1 looks to the caller like the end of the scan.
- Getopt.Getopt.Next: return code, `optarg`, `optopt` and the long-option index are bundled into one event.
- Getopt.ScanAll: `optind` set to 0, `optreset`, `POSIXLY_CORRECT` and the prefix of the option string are represented by the choice of mode; error printing is not modelled.
- IsolatedCores.ReadIsolatedCores: a range that ends at the largest int, on which the source's loop counter overflows, is excluded.
- Xenomai and EVL condition variables, Apple workgroups (only the fact that initialisation may fail is kept), thread attributes, scheduling, denormals, clock and version code.
- Creation and destruction of the semaphore behind a condition variable, with its random name.
