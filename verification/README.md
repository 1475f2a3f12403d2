# Models of some hard parts of the PHP source tree

This project models, in Dafny, seven algorithms and protocols of PHP 8.5.5 and proves what
they are for. `dafny verify dfyconfig.toml` checks all of it.

- **The differ of `run-tests.php`** (`Sequences`, `Lcs`, `Differ`, `DifferScript`, `DiffOutput`):
  Hirschberg's longest common subsequence, the walk that turns it into an edit script, and the
  context printer. Lines are compared as they are (`===`).
- **The parallel test scheduler of `run-tests.php`** (`PhpArray`, `Scheduler`, `SchedulerSafety`,
  `SchedulerOnce`, `SchedulerProgress`, `SchedulerBatch`, `SchedulerOrder`, `SchedulerSequential`,
  `SchedulerOvertaking`, `SchedulerWaking`, `SchedulerMaster`): a transition system of a master and
  its workers with a queue of messages in each direction, results over all its runs, and the
  handlers of the master as methods that change the variables in place.
- **Module ordering and startup in `zend_API.c`** (`ModuleNames`, `ModuleGraph`, `ModuleKept`,
  `ModuleStartup`), and **argument parsing** in the same file (`ParseArgs`, `ParseOutcome`).
- **The thread-safe resource manager of `TSRM.c`** (`TsrmLog`, `ThreadTable`, `Tsrm`,
  `TsrmRuns`): chained hash table, slots that are set up and torn down, the packed fast resources,
  and whole runs from the start to the shutdown.
- **The arena of `zend_arena.h`** in both versions (`Arena`, `TrackedArena`, `TrackedArenaRuns`)
  and **the map_ptr table of `zend.c`** (`MapPtr`, `MapPtrRuns`).
- **`heapsort_r` of `bench.php`** (`Heapsort`) and **the bitset of `zend_bitset.h`** (`BitWord`,
  `Bitset`).

`Options` is the optional value. `Folded` holds a device to keep large definitions folded while
they are only passed on: what is called folded in a comment has its meaning in the predicate or
function with `Ok` or `Of` behind its name, or in the lemma with `Means` behind it.

## Findings

- The comment at `php-8.5.5/run-tests.php:1374-1376` promises that order is preserved for tests
  with a common conflict key. What the code does instead:
  - It is so in every run for keys whose tests carry no other key (`SchedulerOrder.OrderKept`),
    and with one worker for every key that no test carries which conflicts with everything
    (`SchedulerSequential.OneWorkerKeepsOrder`).
  - The tests that conflict with everything, which share the key `all`, are appended to the stack
    in the order given (lines 1527-1529) and popped from its end: they run in the opposite order,
    in every run (`SchedulerSequential.SequentialReversed`). Their order is kept if and only if
    there is at most one of them (`SchedulerSequential.SequentialKeptIff`).
  - A test with two keys can be overtaken: while it waits for one of them, a later test takes
    the other. `SchedulerOvertaking.OrderBroken` is such a run, for any two keys, any four
    tests that carry them in that way and any number of workers from two on. Whether a given list
    of tests has such a run also depends on which tests end up in one batch, hence on the batch
    size and the number of workers; no exact condition on the keys alone is stated for tests with
    several keys.
- A batch can hold one test more than the batch size: the loop at
  `php-8.5.5/run-tests.php:1540` runs while the count is at most the size. A batch is the first
  size + 1 tests of the stack that no held key holds back, so it keeps to its size if and only if
  there are no more such tests than that (`SchedulerBatch.WithinSizeIff`); under valgrind, for
  which the comment at line 1533 promises one test at a time, two go out together
  (`SchedulerBatch.TwoAtOnce`).
- `zend_sort_modules` ends exactly on acyclic registries (`ModuleGraph.SortEndsIffAcyclic`); two
  modules that depend on each other are swapped for ever (`ModuleGraph.TwoModuleCycle`,
  `ModuleGraph.CycleExample`).
- In `zend_parse_va_args` the subtraction at `php-8.5.5/Zend/zend_API.c:1258` wraps when an
  optional part before the varargs mark leaves fewer arguments than there are letters after the
  mark. An accepted call uses each argument once if and only if that does not happen
  (`ParseArgs.UsesAllIffNotStarved`). When it does, the varargs claim nearly 2^32 arguments and
  the letters after the mark start again at a number that wraps back (`ParseArgs.StarvedWraps`):
  `|l*ll` with two arguments gives argument 0 to two letters (`ParseArgs.StarvedExample`). No
  specification without a bar before the mark is affected (`ParseArgs.StarvedNeedsBar`).
- A fast resource that does not fit into the reserved space is answered with 0, but the id count
  has been raised before the check (`php-8.5.5/TSRM/TSRM.c:330-338`) and stays one past the
  registered types. The manager stays valid if and only if the resource fits
  (`Tsrm.Manager.AllocateFastId`); `TsrmRuns.FastResourceUnfit` is a new manager on which it does
  not.
- Fetching a resource by the id of another thread that has no entry yet makes that entry and sets
  the calling thread's own pointer to it (`php-8.5.5/TSRM/TSRM.c:391`). The manager stays
  valid if and only if the other thread has an entry (`Tsrm.Manager.ResourceOf`);
  `TsrmRuns.FetchOfNobody` is such a fetch on a new manager.
- `heapsort_r` comes to its return exactly for two or more elements
  (`Heapsort.ReturnsIffTwo`); with fewer, `$ir` passes 1 without the comparison that returns.
- `zend_ulong_nlz` is documented as undefined for zero; the portable code gives 64.

## Conventions

- Test names are distinct and not falsy (`"0"` would end a pop loop early), diff tokens are not
  null. Workers are numbered from 0, and the rounded-up average of files per worker is integer
  division. Message channels are reliable and keep order.
- The scheduler's model tests the loop condition before every message, the source at
  `php-8.5.5/run-tests.php:1476` only. That is the same: the condition can become false only when
  a worker is retired (`SchedulerProgress.EndsOnlyByRetiring`), and then the source jumps to that
  test at once (line 1565).
- The master's associative arrays are lists of pairs in insertion order (`PhpArray`), as the
  order in which keys are freed matters.
- Module names are compared after folding ASCII letters, both where the source uses
  `strcasecmp` and where it lowers the name before the lookup.
- In `ParseArgs` the arithmetic on 32-bit counters is explicit; whether a letter accepts an
  argument is a parameter.
- In `Tsrm` an entry's address is stood for by a serial number, a block by the entry and the
  resource it was allocated for, and the calls of constructors
  and destructors and the allocations and releases of slots are recorded in `log`. `Valid` of
  the manager, which every operation keeps but for the two cases under Findings, contains that
  the record fits the table; the balance of the record follows in `Tsrm.Manager.RecordBalanced`.
- In `TsrmRuns` and `MapPtrRuns` a run is a list of requests or calls, and what each does to an
  account of the state is a function; requests that have no place in a valid run (an id never
  handed out, a fast resource that does not fit, a write to a slot that is not live) are passed
  over.
- In the arenas the addresses of new blocks are parameters; they are only known not to overlap
  the blocks of the arena, and may touch them.
- A word of a bitset is a number below 2^64 with the operators given bit by bit; a mask of low
  bits is shown to be a remainder (`BitWord.LowBitsMask`). Positions are returned as the C `int`
  that the number converts to modulo 2^32 (`Bitset.Int32`).

## Model

| member | source | states |
|---|---|---|
| `Lcs.SubsequenceIffEmbeds` | php-8.5.5/run-tests.php:4035-4078 | the greedy test for "is a subsequence" agrees with its definition by increasing positions |
| `Lcs.LengthIsMaximum` | php-8.5.5/run-tests.php:4080-4099 | the recursive length is attained by some common subsequence and exceeded by none |
| `Lcs.NoneLonger` | php-8.5.5/run-tests.php:4080-4099 | no common subsequence of two inputs is longer than the recursive length |
| `Lcs.SomeAsLong` | php-8.5.5/run-tests.php:4080-4099 | some common subsequence has exactly the recursive length |
| `Lcs.LengthReverse` | php-8.5.5/run-tests.php:4058 | reversing both inputs does not change the length: why the second call may run on reversed halves |
| `Lcs.SplitBound` | php-8.5.5/run-tests.php:4059-4069 | cutting both inputs anywhere never gains: the lengths of the two halves add up to at most the whole |
| `Lcs.SplitAttained` | php-8.5.5/run-tests.php:4059-4069 | for every cut of the first input some cut of the second loses nothing |
| `Lcs.LengthTrim` | php-8.5.5/run-tests.php:3995-4033 | a shared prefix and suffix can be set aside: the length of the whole is the length of the middle plus theirs |
| `Differ.CommonSubsequenceLength` | php-8.5.5/run-tests.php:4080-4099 | the returned row holds, at every j, the longest common subsequence length of the first input and the first j tokens of the second |
| `Differ.BestCut` | php-8.5.5/run-tests.php:4059-4069 | the chosen cut attains the length of the whole: the two halves lose nothing |
| `Differ.CalculateCommonSubsequence` | php-8.5.5/run-tests.php:4035-4078 | the result is a subsequence of both inputs and as long as any common subsequence; it is the one that comes of cutting the first input in the middle and the second at the last place that loses nothing; the recursion ends |
| `Differ.GetArrayDiffParted` | php-8.5.5/run-tests.php:3995-4033 | the inputs are start + rest + end with the longest shared start and then the longest shared end |
| `Differ.KeptIsCommon` | php-8.5.5/run-tests.php:3944-3993 | what an edit script keeps is common to both sides, and every other token of either side is one change |
| `Differ.FewestChanges` | php-8.5.5/run-tests.php:3944-3993 | no edit script between two inputs has fewer changes than the lengths of both together less twice that of a longest common subsequence |
| `Differ.LineNumbersPointBack` | php-8.5.5/run-tests.php:3967-3988 | a removal numbered n is token n of the first input, an addition numbered n is token n of the second |
| `Differ.EmitToken` | php-8.5.5/run-tests.php:3965-3980 | emitting up to the next common token, removals first, keeps the script a rebuild of what both inputs have given so far |
| `Differ.DiffToArray` | php-8.5.5/run-tests.php:3944-3993 | the script rebuilds both inputs, numbers every change by its 1-based place in its own input, puts removals before additions wherever lines are replaced, and no script between the two has fewer changes; it is the one script that trimming, the chosen common subsequence and the walk along it give |
| `DifferScript.ChosenUnique` | php-8.5.5/run-tests.php:4035-4078 | of all longest common subsequences exactly one is chosen |
| `DifferScript.TrimmedUnique` | php-8.5.5/run-tests.php:3995-4033 | there is one way to set the shared head and the shared tail aside |
| `DifferScript.TheScriptUnique` | php-8.5.5/run-tests.php:3944-3993 | two inputs have one script: the contract of `Differ.DiffToArray` leaves no choice |
| `DiffOutput.GetDiff` | php-8.5.5/run-tests.php:4104-4162 | the output is the excerpt of the script: rows within the context distance of a change, each once and in order, and one separator per run of hidden rows |
| `DiffOutput.ExcerptRows` | php-8.5.5/run-tests.php:4132-4160 | without its separators the excerpt is exactly the rows at most c rows from a changed one, in order |
| `DiffOutput.ExcerptRowByRow` | php-8.5.5/run-tests.php:4118-4160 | row by row: a shown row is one line, and of a run of hidden rows the last one, and only it, is a separator |
| `DiffOutput.HiddenRun` | php-8.5.5/run-tests.php:4118-4131 | a run of hidden rows prints nothing but the one separator |
| `DiffOutput.Diff` | php-8.5.5/run-tests.php:3937-3942 | the printed lines are the excerpt of that script: each line with a minus is the line of that number of the first input, each with a plus that of the second, each with neither is common to both, and every change is printed |
| `SchedulerMaster.MasterProcess.constructor` | php-8.5.5/run-tests.php:1345-1382 | the master starts as the machine starts: sequential tests set apart, the others reversed unless shuffled, no more workers than tests |
| `SchedulerMaster.MasterProcess.TestsFinished` | php-8.5.5/run-tests.php:1510-1521 | the in-place handler frees the keys of the worker and wakes those who wait for them, as the machine does |
| `SchedulerMaster.MasterProcess.WakeWaiting` | php-8.5.5/run-tests.php:1514-1519 | the tests waiting for a key go back on the stack, the longest-waiting one on top, and the key is free |
| `SchedulerMaster.MasterProcess.Respond` | php-8.5.5/run-tests.php:1525-1567 | the in-place answer to a free worker is the reply of the machine, batch and new state; `SchedulerBatch.ReplyIsPrefix` and `BatchSizeMeans` say which tests that are |
| `SchedulerMaster.MasterProcess.PopTests` | php-8.5.5/run-tests.php:1539-1548 | the pop loop builds the batch and the waiting lists of the machine |
| `SchedulerMaster.MasterProcess.ClaimAll` | php-8.5.5/run-tests.php:1549-1555 | the claim loop gives every key of the batch to the worker |
| `SchedulerSafety.StartOk` | php-8.5.5/run-tests.php:1340-1384 | the invariant holds at the start, for every list of tests and number of workers |
| `SchedulerSafety.StepOk` | php-8.5.5/run-tests.php:1476-1567 | every step of the master or of a worker keeps the invariant |
| `SchedulerSafety.RunOk` | php-8.5.5/run-tests.php:1476-1567 | every run keeps the invariant |
| `SchedulerSafety.ReleaseOk` | php-8.5.5/run-tests.php:1510-1521 | freeing one worker leaves every other holder of a key a holder, and loses no test |
| `SchedulerSafety.PopBatchOk` | php-8.5.5/run-tests.php:1539-1548 | the batch carries no held key, waiting tests wait for held keys they carry, and no test is lost or doubled |
| `SchedulerSafety.KeysExclude` | php-8.5.5/run-tests.php:1340-1342 | in every reachable state two running tests that share a conflict key are the same test of the same worker |
| `SchedulerSafety.SequentialRunsAlone` | php-8.5.5/run-tests.php:1364-1369 | while a test that conflicts with everything runs, no other worker is alive |
| `SchedulerSafety.InProgressIsBusy` | php-8.5.5/run-tests.php:1636-1638 | the in-progress count is the number of workers with an unanswered batch, so it is never negative; a waiting list belongs to a key that a live worker holds |
| `SchedulerOnce.StepCounts` | php-8.5.5/run-tests.php:1476-1567 | every step keeps the tests run equal, as multisets, to the results read and those under way |
| `SchedulerOnce.RunOrStillToRun` | php-8.5.5/run-tests.php:1476-1567 | in every reachable state each test given is stacked, kept for last, waiting, handed out and not yet run, or run, and is so once |
| `SchedulerProgress.StepDecreases` | php-8.5.5/run-tests.php:1476-1567 | every step lowers a measure of what is left to do |
| `SchedulerProgress.SomethingEnabled` | php-8.5.5/run-tests.php:1476 | while the master loop goes on, a worker is alive and some step is possible |
| `SchedulerProgress.EndsOnlyByRetiring` | php-8.5.5/run-tests.php:1475-1565 | a message after which the loop condition is false is one that retires its worker, where the source jumps to the test of that condition |
| `SchedulerProgress.DoneMeansAllResults` | php-8.5.5/run-tests.php:1476 | when the loop ends nothing waits, no step is possible, and the results read are the tests given, each once |
| `SchedulerProgress.RunsComplete` | php-8.5.5/run-tests.php:1476-1567 | runs are bounded; a run that cannot go on has run every test exactly once and read exactly one result for it; a run that is not done can go on |
| `SchedulerProgress.LastWorkerStays` | php-8.5.5/run-tests.php:1562-1565 | when no worker is left nothing is stacked, waiting or sequential and every result is in |
| `SchedulerBatch.BatchIsPrefix` | php-8.5.5/run-tests.php:1539-1548 | a batch is the first size + 1 stacked tests, from the top, none of whose keys is held, or all of them |
| `SchedulerBatch.WithinSizeIff` | php-8.5.5/run-tests.php:1540 | a batch has min(n, size + 1) tests when n are free, so it keeps to its size exactly if n does |
| `SchedulerBatch.TwoAtOnce` | php-8.5.5/run-tests.php:1531-1540 | under valgrind two free tests on top of the stack are sent together although the size is 1 |
| `SchedulerBatch.BatchSizeMeans` | php-8.5.5/run-tests.php:1532-1539 | the batch size is the least with which the live workers could share all parallel tests, but at least 1 and at most 1 under valgrind, 4 if shuffled, 32 otherwise |
| `SchedulerBatch.ReplyIsPrefix` | php-8.5.5/run-tests.php:1525-1548 | a reply is the first size + 1 free tests of the stack, which has the sequential tests on top once a single worker is left; it is shorter only if fewer are free |
| `SchedulerBatch.ThirtyThreeAtOnce` | php-8.5.5/run-tests.php:1532-1548 | with four workers and a thousand free tests 33 go out at once |
| `SchedulerBatch.FirstHeldIsFirst` | php-8.5.5/run-tests.php:1541-1546 | a test that is held back waits for the first of its keys that is held |
| `SchedulerWaking.SetKeys` | php-8.5.5/run-tests.php:1552 | writing an array key that is there keeps all keys in place, a new one comes last |
| `SchedulerWaking.UnsetKeys` | php-8.5.5/run-tests.php:1513 | removing an array key leaves the others in their order |
| `SchedulerWaking.ClaimJoins` | php-8.5.5/run-tests.php:1550-1554 | a batch claims the keys of its tests in the order of the batch |
| `SchedulerWaking.ReleaseWakes` | php-8.5.5/run-tests.php:1510-1521 | the tests a finished worker kept waiting come onto the stack key by key in the order of the array, for each key the longest-waiting one on top |
| `SchedulerWaking.WorkerCountMeans` | php-8.5.5/run-tests.php:1381-1382 | no more workers than asked for nor than parallel tests, but always one, and no fewer than that |
| `SchedulerWaking.StartOrder` | php-8.5.5/run-tests.php:1374-1379 | the tests are popped in the order given, or from the end of the list if it is shuffled |
| `SchedulerWaking.StartWorkers` | php-8.5.5/run-tests.php:1381-1400 | the workers are numbered from 0 on, and each has said that it is ready |
| `SchedulerOrder.OrderKept` | php-8.5.5/run-tests.php:1374-1379 | unshuffled tests that carry one key and no other are run in the order given: a prefix at any moment, all at the end |
| `SchedulerOrder.StepInOrder` | php-8.5.5/run-tests.php:1509-1567 | per key: run, then with its holder, then waiting, then the reversed stack, is the original order after every step |
| `SchedulerOvertaking.OrderBroken` | php-8.5.5/run-tests.php:1374-1376 | for any keys k and q and tests x, y, t, u with keys k, none, k and q, and q, under valgrind and with two or more workers, a run in which u overtakes t although they share q |
| `SchedulerSequential.SequentialReversed` | php-8.5.5/run-tests.php:1527-1540 | in every run the tests that conflict with everything run in the opposite of the order given: a prefix of it at any moment, all of it at the end |
| `SchedulerSequential.SequentialKeptIff` | php-8.5.5/run-tests.php:1374-1376 | their order is kept if and only if there is at most one of them |
| `SchedulerSequential.OneWorkerOrder` | php-8.5.5/run-tests.php:1525-1548 | one worker runs the tests that conflict with everything, last first, and then the others as given |
| `SchedulerSequential.OneWorkerKeepsOrder` | php-8.5.5/run-tests.php:1374-1379 | with one worker the order is kept for every key that no test carries which conflicts with everything |
| `ModuleGraph.SwapTargetMeans` | php-8.5.5/Zend/zend_API.c:2487-2503 | the inner search swaps exactly if a later module is one that the module at hand requires or optionally depends on |
| `ModuleGraph.FirstLaterIsFirst` | php-8.5.5/Zend/zend_API.c:2488-2504 | the module swapped is the first one, in the order of the declared dependencies, that is registered later; conflicts are passed over |
| `ModuleNames.FoldSame` | php-8.5.5/Zend/zend_API.c:2430-2433 | two names count as the same if and only if they agree character by character but for the case of the 26 ASCII letters |
| `ModuleGraph.StepOk` | php-8.5.5/Zend/zend_API.c:2485-2508 | each step of the sort keeps the permutation and the settled prefix, and on acyclic registries settles one more position or lowers the rank of the module at hand |
| `ModuleGraph.EdgeLowersRank` | php-8.5.5/Zend/zend_API.c:2492-2500 | following a dependency of an acyclic registry leads to a module with fewer dependencies |
| `ModuleGraph.AcyclicEnds` | php-8.5.5/Zend/zend_API.c:2477-2509 | on every acyclic registry the sort reaches the end, with a permutation |
| `ModuleGraph.CycleNeverEnds` | php-8.5.5/Zend/zend_API.c:2499 | with a dependency cycle ahead no number of steps ends the sort |
| `ModuleGraph.SortEndsIffAcyclic` | php-8.5.5/Zend/zend_API.c:2477-2509 | the sort ends if and only if no unstarted module depends on itself over others |
| `ModuleGraph.TwoModuleCycle` | php-8.5.5/Zend/zend_API.c:2499 | two unstarted modules that depend on each other are never sorted, whatever the number of steps |
| `ModuleGraph.CycleExample` | php-8.5.5/Zend/zend_API.c:2499 | such a registry of two modules, with names that differ in case |
| `ModuleStartup.SortModules` | php-8.5.5/Zend/zend_API.c:2477-2509 | the in-place sort ends with the same modules, no unstarted one before a module it requires or optionally depends on |
| `ModuleStartup.FindTarget` | php-8.5.5/Zend/zend_API.c:2487-2503 | the two nested searches find the swap target of the step machine |
| `ModuleStartup.Registry.StartupModule` | php-8.5.5/Zend/zend_API.c:2411-2466 | a module is started exactly if it was, or everything it requires is registered and started, itself counting as started |
| `ModuleStartup.Registry.StartupModules` | php-8.5.5/Zend/zend_API.c:2593-2598 | the modules kept are exactly those whose required dependencies, over any number of steps, are all registered or started before; the startups called are those of the modules kept that were not started before, in table order, each one once, after whatever it requires; whatever the registration order; names are compared as in `ModuleNames.FoldSame` |
| `ModuleStartup.Registry.ApplyStartup` | php-8.5.5/Zend/zend_API.c:2469-2475 | walking the sorted registry keeps exactly the unbroken modules and calls the startup of those not started before, both in the sorted order |
| `ModuleStartup.CalledOnce` | php-8.5.5/Zend/zend_API.c:2469-2475 | no startup is called twice |
| `ModuleStartup.CalledIsKept` | php-8.5.5/Zend/zend_API.c:2469-2475 | the startups called are those of the modules kept, without the ones started before |
| `ModuleStartup.Decision` | php-8.5.5/Zend/zend_API.c:2422-2442 | on a sorted registry the check of direct requirements decides about transitive ones |
| `ModuleKept.BrokenIff` | php-8.5.5/Zend/zend_API.c:2422-2442 | a registered module is broken exactly if it directly requires a name that is missing or that only another, broken module has |
| `ParseArgs.CountSpecifiers` | php-8.5.5/Zend/zend_API.c:1165-1227 | the first loop computes the counts of the specification |
| `ParseArgs.CountShape` | php-8.5.5/Zend/zend_API.c:1165-1249 | for every well-formed specification the counts are its minimum, its maximum and the letters after the varargs mark |
| `ParseOutcome.SpecifierLetters` | php-8.5.5/Zend/zend_API.c:1167-1189 | which characters are specifiers, which of them are still parsed, and which are modifiers |
| `ParseOutcome.CountRejects` | php-8.5.5/Zend/zend_API.c:1165-1216 | the first pass rejects a specification if and only if it has an unknown character, a second varargs mark, or a mark in a call with extra named arguments |
| `ParseOutcome.MinimumMeans` | php-8.5.5/Zend/zend_API.c:1181-1221 | required are the letters before the bar; without a bar all letters, and one argument more for `+` |
| `ParseArgs.ParseOne` | php-8.5.5/Zend/zend_API.c:817-838 | one argument is parsed by one letter, whose modifiers are skipped |
| `ParseArgs.Distribute` | php-8.5.5/Zend/zend_API.c:1251-1288 | the second loop, in 32-bit arithmetic, binds arguments as the recursive reading of the specification does |
| `ParseArgs.ParseVaArgs` | php-8.5.5/Zend/zend_API.c:1151-1291 | the whole function accepts and binds as the recursive reading does, for every specification text and argument count |
| `ParseOutcome.Outcome` | php-8.5.5/Zend/zend_API.c:1218-1291 | for every well-formed specification and every call: fails if there are too few or too many arguments, more than the call has, a mark meets extra named arguments, or a letter refuses what it gets; binds the arguments as stated otherwise |
| `ParseOutcome.TooFewExample` | php-8.5.5/Zend/zend_API.c:1229-1244 | `ll` called with one argument fails |
| `ParseArgs.Distribution` | php-8.5.5/Zend/zend_API.c:1251-1288 | unless starved, a call is accepted exactly if each letter accepts the argument meant for it: leading letters the first, trailing letters the last, varargs what lies between |
| `ParseArgs.IntendedUsesAll` | php-8.5.5/Zend/zend_API.c:1251-1288 | the intended distribution uses each argument once, in order |
| `ParseArgs.StarvedWraps` | php-8.5.5/Zend/zend_API.c:1251-1288 | a call with fewer arguments left at the varargs mark than letters follow is accepted exactly if each letter accepts what the wrapped counters give it: the varargs claim more arguments than there are, the trailing letters start at the argument count less their number, modulo 2^32 |
| `ParseArgs.ConsumeWrapped` | php-8.5.5/Zend/zend_API.c:1271-1288 | letters take as many arguments as there are letters, with numbers counted in 32 bits |
| `ParseArgs.UsesAllIffNotStarved` | php-8.5.5/Zend/zend_API.c:1251-1288 | an accepted call uses each argument exactly once if and only if it is not starved at the varargs mark |
| `ParseArgs.StarvedNeedsBar` | php-8.5.5/Zend/zend_API.c:1181-1184 | only a specification with a bar and two letters after its mark can starve a call |
| `ParseArgs.StarvedExample` | php-8.5.5/Zend/zend_API.c:1258 | a specification of a bar, a letter, varargs and two letters, called with two arguments that every letter accepts, is accepted and gives argument 0 to two letters |
| `ThreadTable.FlatListsAll` | php-8.5.5/TSRM/TSRM.c:250-271 | walking all buckets and chains meets every entry exactly once |
| `ThreadTable.FlatInOrder` | php-8.5.5/TSRM/TSRM.c:250-253 | the walk comes to the buckets in turn and goes through each chain from its head |
| `ThreadTable.EntryTable.Find` | php-8.5.5/TSRM/TSRM.c:447-466 | the chain walk finds the entry of the thread if it has one, and the pointer to it |
| `ThreadTable.EntryTable.Insert` | php-8.5.5/TSRM/TSRM.c:450-463 | linking an entry for a new thread puts it at the end of the chain of its bucket, adds it to the map, and touches no other |
| `ThreadTable.EntryTable.Replace` | php-8.5.5/TSRM/TSRM.c:483-497 | an entry put in the place of another one of the same thread replaces it in the map and at its position of its chain; every other position keeps its entry |
| `ThreadTable.EntryTable.Remove` | php-8.5.5/TSRM/TSRM.c:519-539 | unlinking takes one entry out of the map and out of its chain, where the later ones move up in their order; every other chain stays |
| `ThreadTable.EntryTable.InOrder` | php-8.5.5/TSRM/TSRM.c:250-253 | the table walk lists every entry once, bucket by bucket and each chain from its head |
| `TsrmLog.EntryMade` | php-8.5.5/TSRM/TSRM.c:396-409 | setting up a new entry leaves every slot of every entry with a well-formed life |
| `TsrmLog.EntryDropped` | php-8.5.5/TSRM/TSRM.c:164-180 | tearing an entry down ends the lives of its slots and no others |
| `TsrmLog.TypeMade` | php-8.5.5/TSRM/TSRM.c:255-268 | registering a resource sets its slot up once in every entry |
| `TsrmLog.TypeDropped` | php-8.5.5/TSRM/TSRM.c:552-572 | freeing a resource ends its slot in every entry, and nothing if it is done already |
| `TsrmLog.TeardownDecreasing` | php-8.5.5/TSRM/TSRM.c:164-178 | a tear-down destroys resources in decreasing order of id |
| `TsrmLog.SetupIncreasing` | php-8.5.5/TSRM/TSRM.c:396-409 | a set-up constructs resources in increasing order of id |
| `TsrmLog.InOrderOfLife` | php-8.5.5/TSRM/TSRM.c:164-180 | in every well-formed record a slot is allocated before it is constructed, constructed before it is destructed, and destructed before it is released |
| `TsrmLog.Balanced` | php-8.5.5/TSRM/TSRM.c:164-211 | every constructed slot is destroyed at most once and every allocated one freed at most once: never while its entry and its resource are there, exactly once when one of them is gone |
| `Tsrm.LedgerClosed` | php-8.5.5/TSRM/TSRM.c:198-211 | tearing down the entries that are left closes the record: every slot ever set up has been torn down |
| `Tsrm.HeaderHoldsFields` | php-8.5.5/TSRM/TSRM.c:32-37 | the header of an entry is the aligned size of its fields |
| `Tsrm.Manager.OffsetIsId` | php-8.5.5/TSRM/TSRM.h:166-172 | for a live fast resource the address by offset is the address in the id table |
| `Tsrm.Manager.FastSlotPlaced` | php-8.5.5/TSRM/TSRM.c:323-369 | each live fast resource of a thread lies 16-byte aligned, past the entry header and inside its block |
| `Tsrm.Manager.RecordBalanced` | php-8.5.5/TSRM/TSRM.c:164-211 | in every valid state of the manager the record of all events so far is balanced for every slot, and its events come in the order allocate, construct, destruct, release |
| `Tsrm.Manager.FastSlotsApart` | php-8.5.5/TSRM/TSRM.c:323-369 | of two live fast resources of a thread the one registered first ends before the other begins |
| `Tsrm.Manager.AllocateNewResource` | php-8.5.5/TSRM/TSRM.c:378-414 | a new entry has one slot per resource, null exactly for done ones, each constructed once |
| `Tsrm.Manager.FreeResources` | php-8.5.5/TSRM/TSRM.c:164-180 | exactly the slots of undone resources are destroyed, in reverse order |
| `Tsrm.Manager.Resource` | php-8.5.5/TSRM/TSRM.c:417-506 | a thread with an entry of its own gets it unchanged; a new thread gets a new one; a reused thread id gets a new one after the stale resources are destroyed; nobody else is touched. The answer is the table for id 0, and else null for a freed resource, its place in the entry for a fast one, and the block allocated for that entry and id for any other |
| `Tsrm.Manager.ResourceOf` | php-8.5.5/TSRM/TSRM.c:434-466 | fetching by another thread's id answers as for that thread, and changes nothing if it has an entry; otherwise it makes one and the caller's own pointer leads to it, which ends validity |
| `Tsrm.Manager.ReturnResource` | php-8.5.5/TSRM/TSRM.c:97-102 | the fetched id, unshuffled, selects the slot of that resource; id 0 the table |
| `Tsrm.Manager.HeldIsAlive` | php-8.5.5/TSRM/TSRM.c:378-414 | what an entry in the table holds for an ordinary resource has been allocated and constructed once, and neither destructed nor released |
| `Tsrm.Manager.HeldApart` | php-8.5.5/TSRM/TSRM.c:378-414 | no two threads hold the same address, and no two resources of a thread of which one is ordinary do |
| `Tsrm.Manager.Renew` | php-8.5.5/TSRM/TSRM.c:483-497 | a stale entry is destroyed before its successor is set up, and all positions in the chains stay as they are |
| `Tsrm.Manager.FreeThread` | php-8.5.5/TSRM/TSRM.c:510-541 | the resources of the calling thread are destroyed and its entry leaves the table |
| `Tsrm.Manager.UpdateActiveThreads` | php-8.5.5/TSRM/TSRM.c:248-273 | every entry gets the slot of the newest resource, constructed once |
| `Tsrm.Manager.AllocateId` | php-8.5.5/TSRM/TSRM.c:277-311 | a new id is the next one, and every existing entry has its slot at once |
| `Tsrm.Manager.AllocateFastId` | php-8.5.5/TSRM/TSRM.c:323-369 | a fast resource that fits gets the next id and the next aligned part of the reserved tail, and every entry its slot; one that does not fit is answered with 0 and leaves the id count one past the types, so the manager stays valid exactly if it fits |
| `Tsrm.Manager.Reserve` | php-8.5.5/TSRM/TSRM.c:315-319 | reserved before the first entry and fast resource, the tail is properly laid out |
| `Tsrm.Manager.FreeId` | php-8.5.5/TSRM/TSRM.c:544-577 | the resource is destroyed in every entry that has it, once, and its slots are null from then on; freeing twice does nothing |
| `Tsrm.Manager.ApplyForId` | php-8.5.5/TSRM/TSRM.c:579-599 | the callback is called once for every entry, in the order of the table walk, with its slot of that resource, and not at all for a freed resource |
| `Tsrm.Manager.Shutdown` | php-8.5.5/TSRM/TSRM.c:183-235 | the first call of the thread that started the manager tears all entries down, and after that every slot ever set up has been torn down; any other call changes nothing but that thread's flag |
| `TsrmRuns.Run` | php-8.5.5/TSRM/TSRM.c:277-599 | any sequence of requests by any threads leaves exactly the entries, own pointers and resources it should, and the manager valid with its fast resources laid out |
| `TsrmRuns.Lifetime` | php-8.5.5/TSRM/TSRM.c:183-235 | after any such sequence and the end of the main thread every slot ever set up has been torn down, once, and released only after it was destructed |
| `TsrmRuns.FastResourceUnfit` | php-8.5.5/TSRM/TSRM.c:330-338 | on a new manager with nothing reserved every fast resource of positive size is answered with 0, and ends validity |
| `TsrmRuns.FetchOfNobody` | php-8.5.5/TSRM/TSRM.c:391-466 | on a new manager a fetch by the id of any other thread leaves the caller with the entry of that thread, and ends validity |
| `Arena.BlockArena.constructor` | php-8.5.5/Zend/zend_arena.h:34-42 | a new arena is one block with the bump pointer behind its header; it is valid if and only if the size has room for the header |
| `Arena.BlockArena.Alloc` | php-8.5.5/Zend/zend_arena.h:53-77 | memory comes from the newest block, or from a new one; open checkpoints stay good |
| `Arena.GrowsIffNoRoom` | php-8.5.5/Zend/zend_arena.h:60-74 | a block is added if and only if the newest one has fewer bytes left than are taken |
| `Arena.GrownSizeMeans` | php-8.5.5/Zend/zend_arena.h:63-66 | a block that is added is as large as the newest one, or larger if the allocation needs it, and then no larger than that |
| `Arena.AllocationIsTight` | php-8.5.5/Zend/zend_arena.h:58-74 | an allocation takes the aligned size where the free part begins and moves the bump pointer by just that; no other block changes |
| `Arena.HeaderHoldsFields` | php-8.5.5/Zend/zend_arena.h:28-32 | the header of a block is the aligned size of its three pointers |
| `Arena.BlockArena.Checkpoint` | php-8.5.5/Zend/zend_arena.h:94-97 | a checkpoint marks the chain of the moment |
| `Arena.BlockArena.Release` | php-8.5.5/Zend/zend_arena.h:99-111 | releasing to any checkpoint of the nest restores exactly the chain, bump pointers and live allocations of that moment, and frees exactly the later blocks |
| `Arena.BlockArena.Unwind` | php-8.5.5/Zend/zend_arena.h:103-108 | the release loop stops at the block of the checkpoint and frees those after it, newest first |
| `Arena.OnlyTheMarkedBlock` | php-8.5.5/Zend/zend_arena.h:103-104 | of the newest blocks only that of the checkpoint passes the two address tests, even if blocks touch |
| `Arena.BlockArena.Contains` | php-8.5.5/Zend/zend_arena.h:113-122 | true exactly for addresses behind the start and not past the bump pointer of some block |
| `Arena.BlockArena.Destroy` | php-8.5.5/Zend/zend_arena.h:44-51 | every block is given back once, newest first |
| `Arena.StartsNewestFirst` | php-8.5.5/Zend/zend_arena.h:44-51 | freed blocks are listed from the newest down |
| `Arena.LiveItemPlaced` | php-8.5.5/Zend/zend_arena.h:53-77 | each live allocation is aligned, off every block header, and in the taken part of its own block |
| `Arena.LiveItemsApart` | php-8.5.5/Zend/zend_arena.h:53-77 | no two live allocations share a byte |
| `Arena.LiveItemsContained` | php-8.5.5/Zend/zend_arena.h:113-122 | every byte of a live allocation passes the containment test |
| `Arena.NestRelease` | php-8.5.5/Zend/zend_arena.h:99-111 | after a release the earlier checkpoints are those of a well-nested arena |
| `TrackedArena.TrackingArena.constructor` | php-8.5.5/Zend/zend_arena.h:140-148 | a new arena remembers nothing |
| `TrackedArena.TrackingArena.Alloc` | php-8.5.5/Zend/zend_arena.h:163-173 | the allocation is the newest live one and goes to the newest block, or to a new one if that is full |
| `TrackedArena.AddedIffFull` | php-8.5.5/Zend/zend_arena.h:166-170 | a block is added if and only if the next slot of the newest one would be at its end |
| `TrackedArena.BlockHoldsSlots` | php-8.5.5/Zend/zend_arena.h:131-148 | a block is a header of three pointers and a thousand slots, one pointer each |
| `TrackedArena.TrackingArena.Checkpoint` | php-8.5.5/Zend/zend_arena.h:190-193 | a checkpoint marks the live allocations of the moment |
| `TrackedArena.TrackingArena.Release` | php-8.5.5/Zend/zend_arena.h:195-214 | releasing restores the blocks and live allocations of the checkpoint; the allocations made since are freed, newest first, and so are the blocks added since |
| `TrackedArena.TrackingArena.Destroy` | php-8.5.5/Zend/zend_arena.h:150-161 | in the end every allocation has been freed as often as it was handed out, and every block once, newest first |
| `TrackedArena.CheckpointFound` | php-8.5.5/Zend/zend_arena.h:201-203 | within a nest only the state of the checkpoint has its slot address |
| `TrackedArena.LiveExtends` | php-8.5.5/Zend/zend_arena.h:195-214 | what was live at an earlier moment of the nest is live still and comes first |
| `TrackedArena.ReleaseOrder` | php-8.5.5/Zend/zend_arena.h:201-209 | freeing one by one down to an earlier moment frees what was allocated since in reverse order |
| `TrackedArena.NestPop` | php-8.5.5/Zend/zend_arena.h:207-208 | freeing the newest allocation keeps handed out = live + freed and every open checkpoint |
| `TrackedArenaRuns.UseAndRelease` | php-8.5.5/Zend/zend_arena.h:163-214 | any number of allocations between a checkpoint and its release are all freed, newest first, and leave the blocks and live allocations as they were |
| `MapPtr.StaticPositionsApart` | php-8.5.5/Zend/zend_map_ptr.h:73-75 | no two static slot numbers share a place |
| `MapPtr.OffsetMeans` | php-8.5.5/Zend/zend_map_ptr.h:37-72 | an offset is odd, and one more than the distance in bytes from the end of the static region |
| `MapPtr.Table.StaticSlotLive` | php-8.5.5/Zend/zend_map_ptr.h:74-75 | at any time the k-th static slot is found inside the buffer where its number says |
| `MapPtr.Table.OnlyStaticSlotsInFront` | php-8.5.5/Zend/zend_map_ptr.h:73-75 | every live position in front of the request region is that of a static slot |
| `MapPtr.Table.New` | php-8.5.5/Zend/zend.c:2059-2073 | a new request slot is null, was not live, and leaves every live slot at its position with its contents |
| `MapPtr.Table.NewStatic` | php-8.5.5/Zend/zend.c:2075-2094 | the k-th static slot is handed out at the position of number k, null, and every live slot keeps position and contents although the buffer grows in front |
| `MapPtr.Table.Extend` | php-8.5.5/Zend/zend.c:2096-2111 | the request region grows to the given size with null slots, never shrinks, and keeps every live slot |
| `MapPtr.Table.Reset` | php-8.5.5/Zend/zend.c:2054-2057 | exactly the request slots from the global mark on are dropped |
| `MapPtr.Table.EndStartup` | php-8.5.5/Zend/zend.c:1149 | the global mark is set to the slots in use |
| `MapPtr.Table.Get` | php-8.5.5/Zend/zend_map_ptr.h:58-59 | the slot of a live offset holds what was put there |
| `MapPtr.Table.Put` | php-8.5.5/Zend/zend_map_ptr.h:67-70 | writing a slot changes no other |
| `MapPtrRuns.Run` | php-8.5.5/Zend/zend.c:2054-2111 | any sequence of calls gives the slots and contents of the account, wherever the buffer moves |
| `MapPtrRuns.ConsistentRun` | php-8.5.5/Zend/zend_map_ptr.h:73-75 | in every run the live positions are the request slots in use and those of the static slot numbers, and no others |
| `MapPtrRuns.RunKeeps` | php-8.5.5/Zend/zend.c:2054-2111 | over any calls a static slot or one below the global mark holds what it held until it is written, any other request slot until it is written or the request ends |
| `MapPtrRuns.LastPutHolds` | php-8.5.5/Zend/zend_map_ptr.h:58-70 | in every run from the start a slot holds what was put into it last |
| `MapPtrRuns.ResetDrops` | php-8.5.5/Zend/zend.c:2054-2057 | the end of a request drops a slot if and only if it is neither static nor below the global mark |
| `Heapsort.RootIsLargest` | php-8.5.5/Zend/bench.php:225-227 | in a heap nothing is above the root |
| `Heapsort.SiftDown` | php-8.5.5/Zend/bench.php:233-246 | sifting down from position l makes a heap of l .. ir that holds what was there, with the value in place of the old root, and touches nothing else |
| `Heapsort.HeapsortR` | php-8.5.5/Zend/bench.php:218-248 | positions 1 .. n end in ascending order, a permutation of what they held; nothing outside changes |
| `Heapsort.Built` | php-8.5.5/Zend/bench.php:223-224 | a build turn extends the heap by one position |
| `Heapsort.Extracted` | php-8.5.5/Zend/bench.php:226-228 | an extract turn moves the largest element to the sorted end |
| `Heapsort.ReturnsIffTwo` | php-8.5.5/Zend/bench.php:218-231 | the outer loop comes to its return if and only if there are at least two elements |
| `BitWord.Ntz` | php-8.5.5/Zend/zend_bitset.h:48-82 | the number of trailing zeros is the place of the lowest bit; 64 for zero |
| `BitWord.Nlz` | php-8.5.5/Zend/zend_bitset.h:85-121 | the number of leading zeros gives the place of the highest bit; 64 for zero |
| `BitWord.BitCombined` | php-8.5.5/Zend/zend_bitset.h:176-219 | and, or, and and-not act on each bit by itself |
| `BitWord.LowBitsMask` | php-8.5.5/Zend/zend_bitset.h:74-79 | masking with n ones leaves the remainder modulo 2^n |
| `BitWord.SameBits` | php-8.5.5/Zend/zend_bitset.h:166-169 | words with the same bits are the same |
| `Bitset.WordsFor` | php-8.5.5/Zend/zend_bitset.h:125-128 | just enough words for n bits |
| `Bitset.In` | php-8.5.5/Zend/zend_bitset.h:130-133 | membership |
| `Bitset.Incl` | php-8.5.5/Zend/zend_bitset.h:135-138 | exactly one member is added |
| `Bitset.Excl` | php-8.5.5/Zend/zend_bitset.h:140-143 | exactly one member is taken out |
| `Bitset.Clear` | php-8.5.5/Zend/zend_bitset.h:145-148 | no member is left |
| `Bitset.Empty` | php-8.5.5/Zend/zend_bitset.h:150-159 | true exactly for the empty set |
| `Bitset.Fill` | php-8.5.5/Zend/zend_bitset.h:161-164 | every number below 64 times the length is a member |
| `Bitset.Equal` | php-8.5.5/Zend/zend_bitset.h:166-169 | words agree exactly if the sets do |
| `Bitset.Copy` | php-8.5.5/Zend/zend_bitset.h:171-174 | the set is copied |
| `Bitset.Intersection` | php-8.5.5/Zend/zend_bitset.h:176-183 | the first set becomes the intersection, even if the arrays are one |
| `Bitset.Union` | php-8.5.5/Zend/zend_bitset.h:185-192 | the first set becomes the union, even if the arrays are one |
| `Bitset.Difference` | php-8.5.5/Zend/zend_bitset.h:194-201 | the first set becomes the difference, even if the arrays are one |
| `Bitset.UnionWithIntersection` | php-8.5.5/Zend/zend_bitset.h:203-210 | the first set becomes the second with the intersection of the third and fourth, however they alias |
| `Bitset.UnionWithDifference` | php-8.5.5/Zend/zend_bitset.h:212-219 | the first set becomes the second with the difference of the third and fourth, however they alias |
| `Bitset.Subset` | php-8.5.5/Zend/zend_bitset.h:221-231 | true exactly for a subset |
| `Bitset.First` | php-8.5.5/Zend/zend_bitset.h:233-243 | the least member as an `int`, or -1 for the empty set |
| `Bitset.Last` | php-8.5.5/Zend/zend_bitset.h:245-262 | the greatest member as an `int`, or -1 for the empty set |
| `Bitset.PopFirst` | php-8.5.5/Zend/zend_bitset.h:291-297 | the least member is returned as an `int`, or -1; it is taken out if it is below 2^31, and otherwise nothing is |
| `Bitset.PoppingEndsIff` | php-8.5.5/Zend/zend_bitset.h:291-297 | popping until the answer is negative ends if and only if the first member from 2^31 on, if any, is negative as an `int` |
| `Bitset.PopAll` | php-8.5.5/Zend/zend_bitset.h:291-297 | popping until the answer is negative gives every member below 2^31 once, ascending, and leaves the others |
| `Bitset.ForEach` | php-8.5.5/Zend/zend_bitset.h:264-289 | the loop visits every member once, ascending |
| `Bitset.ReverseForEach` | php-8.5.5/Zend/zend_bitset.h:274-289 | the loop visits every member once, descending |

## Left out

- The Laravel application: mostly configuration, and it would add only easy sums.
- The regular-expression mode of the differ: its relation is not an equivalence.
- The column layout of printed diff rows: the zero-padded numbers and blanks in front of a row are text formatting.
- The scheduler's sockets, framing, process handling, worker crashes, redirected tests and timing.
- `--CONFLICTS--` sections: reading them; a test's list of keys is a parameter.
- Module startup functions that fail (they end the process), module globals and dynamic loading.
- The type conversions of `zend_parse_arg_impl`: only that it passes one letter and its modifiers, and accepts or refuses. Error messages are left out too.
- What the thread-safe resource manager does once it is not valid any more: after a fast resource that did not fit, or a fetch for a thread without an entry.
- Running out of memory, thread begin and end handlers, and callbacks that call the manager again.
- Tsrm.Manager.Resource: fetches for the calling thread without a thread id; the lookup by another thread's id is `Tsrm.Manager.ResourceOf`.
- Tsrm.Manager.UpdateActiveThreads: the walk over the table is done first and the entries are enlarged after it, in the same order; in the source both happen in one pass.
- Tsrm.Manager.FreeId: requires an id that was handed out; the source indexes its tables with any.
- `zend_arena_calloc` and the contents of allocated memory.
- Arena.BlockArena.Alloc: requires a valid arena; in one created without room for its header the source's unsigned subtraction of the bump pointer wraps, which is not modelled.
- TrackedArena.Block: its slots are a sequence of fixed length, not an array, so sharing of that buffer is not captured.
- Overflow of sizes and addresses in the arenas and the map_ptr table; numbers are unbounded there.
- The map_ptr table of one thread only; direct pointers (`ZEND_MAP_PTR_INIT`) are not modelled.
- Heapsort.HeapsortR: requires two elements, as the loop does not return with fewer (`Heapsort.ReturnsIffTwo`). Elements are totally ordered; NaN is not modelled.
- Bitset.Last: the source counts up to the position in an `int`; should that count pass 2^31 - 1, which C leaves undefined, it wraps here.
- Bitset.PopAll: requires that the loop ends; `Bitset.PoppingEndsIff` says when.
- Compiler built-ins for counting zeros: only the portable code is modelled, with 64-bit words.
