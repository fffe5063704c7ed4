# Firenook conformance harness: a verified model

Firenook is an emulator for Firebase services. Its conformance harness records programs against the official
emulators, replays them against Firenook and decides whether two recordings are the same; its endurance gates decide
whether the store survives kills, long runs and large imports. This project models those decisions in Dafny 4.11 and
proves what they mean. `dafny verify dfyconfig.toml` checks all of it.

**Comparing recordings.** `Json` holds JSON trees and an injective printer. `Canonical` characterises the canonicalisers
by a relation that does not mention them, `Compare` and `Replay` do the same for the three `diff` functions and for the
report they fill. `Rewriting` and `Registry` (module `Naming`) treat the two-way naming table: the invariant of every run,
when names collide, and the exact condition under which `resolve` undoes `replaceAll`. `NamingRuns` computes every name
of a run in closed form and says exactly which names resolve. `PubsubNormalize` is the walk over a Pub/Sub value and
`finish`; `PubsubRuns` says exactly when two runs of a program, against servers with their own ids, times, key order and
push origin, leave the same recording.

**Numerical gates.** `LinearSystem` is Gauss-Jordan elimination on an array, `LeastSquares` and `Oscillation` the harmonic
fit and the period search, `Statistics` the Theil-Sen slope, medians and quantiles. All of it is over exact reals; sine and
cosine are arbitrary functions.

**Crash and soak protocols.** `Seeding` is the greedy batcher, `Listener` and `Scheduler` are step systems for the soak
run, `Recovery` is the SIGKILL gate, `RandomReads` the 32-bit generator and the worker pool that draws from it, `Utf8` and
`Observations` the observation log read through a byte cursor.

**Generated rules.** `BalancedRules` folds a long conjunction into a tree of functions.

Points where the code does something other than its comments or its purpose suggest; the model follows the code:

- The registry's counters count calls, not distinct values (conformance/src/auth/normalize.ts:79 and :89).
  `NamesClosedForm` states the numbers that result.
- A step id that ends in `#2` takes the name of another step's second value (`NumberedStepCollides`); owners of salts can
  look like that (conformance/src/auth/normalize.ts:168-173). `NamesCollide` says exactly which names coincide,
  `RegisterResolves` exactly when one registration's name resolves to its value, and `ResolvesExactly` the same for every
  registration of a run, whatever its steps are called.
- `resolve` undoes `replaceAll` if and only if no later round rewrites a name that an earlier round put in
  (`RoundTripExactly`, and for the tables of all runs `RunsRoundTrip`).
- Text behind a second `@` of a schema name is dropped from the recording (`TrailingTextIsLost`).
- A string under a time key that is literally `{{time}}` is recorded like a time (`TimeLiteralIsConfused`); the relation
  in `RecordingsAgree` counts it as one.
- The linear solver throws exactly when the elimination reaches a column without a usable pivot. It also refuses systems
  that have their solution (`SmallPivotIsRefused`); where the column is zero the throw is right
  (`ZeroColumnHasNoAnswer`).
- A replacement listener that starts behind is counted as a regression although every listener saw the commits in order
  (`StaleReplacementIsCounted`); after a write that failed but was applied, the final-state criterion fails (`FinalState`).
- Errors that are not write failures switch the stall watch off (`WatchCondition`, `MaskedStall`).
- The in-flight bound needs no assumption about the clock, because a race is only won by an operation that has already
  left the set (`Scheduler.RunValid`).
- With no workers the random-read check reports no failures because it reads nothing (`PoolReads`).
- The observation cursor is moved by the re-encoded length. A sequence of bytes that is broken off is measured as the
  three bytes of its replacement, so the cursor is right if and only if every broken-off sequence it passes has three bytes
  (`MeasuredLength`, `ReadExactly`): one stray byte moves it past the newline (`StrayByteMovesCursor`), three do not
  (`ThreeBytesMeasureRight`), and encoded text is always measured right (`EncodedMeasured`).

## Model

| member | source | states |
|---|---|---|
| JsonTree.StringifyInjective | conformance/src/auth/normalize.ts:331 | two JSON trees have the same printed form only if they are the same tree, so sorting and comparing by the printed form loses nothing |
| Canonical.CanonicalNormalForm | conformance/src/auth/normalize.ts:327-343 | canonical forms are equal exactly when the values are equal up to key order and up to a permutation of arrays held under an unordered key |
| Canonical.CanonicalIdempotent | conformance/src/auth/normalize.ts:327-343 | canonicalising a canonical value changes nothing |
| Canonical.CanonicalOfSorted | conformance/src/auth/normalize.ts:309-325 | sorting the identifier-ordered arrays first does not change the canonical form |
| Canonical.SortUnorderedIdempotent | conformance/src/auth/normalize.ts:309-325 | sorting the identifier-ordered arrays twice is sorting them once |
| Canonical.CanonicalJsonPrints | conformance/src/functions-runtime/fixture.ts:12-19 | the one-pass canonical printer prints the canonical form |
| Canonical.CanonicalJsonInjective | conformance/src/functions-runtime/fixture.ts:12-19 | canonical strings are equal exactly when the trees are equal up to key order |
| Compare.NoDifferences | conformance/src/pubsub/replay-firenook.ts:120-134 | no difference is found exactly when the values are equal up to key order, missing keys and unequal lengths included |
| Compare.DifferencesLocated | conformance/src/pubsub/replay-firenook.ts:120-134 | every reported difference names a place where the two values really differ, with the values found there |
| Replay.Report.Record | conformance/src/auth/replay-firenook.ts:264-271 | a difference goes to the observed divergences if the first matching divergence accepts it, to the mismatches otherwise |
| Replay.Report.Diff | conformance/src/auth/replay-firenook.ts:246-262 | the walk counts the compared leaves and files the differences of the specification, in order |
| Replay.MismatchesFiled | conformance/src/auth/replay-firenook.ts:264-271 | the mismatches gain exactly the differences that are not accepted, in order, behind what was there |
| Replay.DivergencesFiled | conformance/src/auth/replay-firenook.ts:264-271 | the observed divergences gain exactly the accepted ones, in order, each with the reason of the first divergence that matches |
| Replay.NoMismatchAdded | conformance/src/auth/replay-firenook.ts:264-271 | no mismatch is added exactly when every difference is an accepted divergence |
| Replay.StrictComparison | conformance/src/pubsub/replay-firenook.ts:120-143 | without divergences, no mismatch is recorded exactly when the trees are equal up to key order |
| Replay.DiffFunctions | conformance/src/functions-runtime/replay-firenook.ts:422-439 | the recursive comparison of the Functions replay returns the differences of its specification |
| Replay.FunctionsDiffEmpty | conformance/src/functions-runtime/replay-firenook.ts:422-439 | it is empty exactly when the values are equal up to key order |
| Replay.FunctionsDiffLocated | conformance/src/functions-runtime/replay-firenook.ts:422-439 | each of its entries locates a real difference |
| LinearSystem.FindPivot | conformance/src/endurance/oscillation.ts:25-30 | the pivot is an entry of largest magnitude on or below the diagonal |
| LinearSystem.SwapRows | conformance/src/endurance/oscillation.ts:31 | the two rows are exchanged and nothing else changes |
| LinearSystem.ScaleRow | conformance/src/endurance/oscillation.ts:36-42 | only the pivot row changes, and all of it is divided although the loop starts at the column |
| LinearSystem.EliminateRow | conformance/src/endurance/oscillation.ts:47-56 | only the target row changes, by a multiple of the whole pivot row |
| LinearSystem.EliminateColumn | conformance/src/endurance/oscillation.ts:43-57 | every other row loses its multiple of the whole pivot row, although the loops start at the column |
| LinearSystem.ReduceColumn | conformance/src/endurance/oscillation.ts:24-58 | one round makes the step of the specification, or throws exactly when every candidate pivot is negligible |
| LinearSystem.StepKeeps | conformance/src/endurance/oscillation.ts:24-58 | a step keeps the solutions and adds one unit column |
| LinearSystem.ReachedKeeps | conformance/src/endurance/oscillation.ts:21-58 | what the elimination reaches has the solutions of the system and a unit column for each column treated |
| LinearSystem.SolveLinearSystem | conformance/src/endurance/oscillation.ts:21-60 | a throw exactly when the elimination reaches a column without a usable pivot, and then at that column; any other result is the one and only solution |
| LinearSystem.StopsOnce | conformance/src/endurance/oscillation.ts:33-35 | the elimination of a system stops at one column at most |
| LinearSystem.ZeroColumnHasNoAnswer | conformance/src/endurance/oscillation.ts:33-35 | where the remaining entries are zero the throw is right: every solution comes with another |
| LinearSystem.SmallPivotIsRefused | conformance/src/endurance/oscillation.ts:33-35 | every one-by-one system with a pivot below the threshold is refused although it has exactly one solution |
| LinearSystem.SwapEquivalent | conformance/src/endurance/oscillation.ts:31 | exchanging rows keeps the solution set |
| LinearSystem.ScaleEquivalent | conformance/src/endurance/oscillation.ts:36-42 | dividing a row keeps the solution set |
| LinearSystem.CombineEquivalent | conformance/src/endurance/oscillation.ts:43-57 | subtracting a multiple of another row keeps the solution set |
| LinearSystem.LastColumnSolves | conformance/src/endurance/oscillation.ts:59 | the last column of a fully reduced system is the only solution of the original one |
| LeastSquares.NormalEquationsOptimal | conformance/src/endurance/oscillation.ts:73-92 | a solution of the normal equations has the least residual sum of squares, for any basis |
| LeastSquares.UniqueOptimum | conformance/src/endurance/oscillation.ts:73-92 | if they have one solution only, every other choice is strictly worse |
| LeastSquares.FitBeatsConstant | conformance/src/endurance/oscillation.ts:94-105 | with a constant in the basis the residual sum is at most the deviations from any mean |
| Oscillation.NormalEquations | conformance/src/endurance/oscillation.ts:71-91 | the accumulating loops build the normal matrix and the normal values of the samples |
| Oscillation.FitHarmonic | conformance/src/endurance/oscillation.ts:62-113 | too few samples or a period that is not positive are rejected exactly then; a fit is returned exactly when the elimination of the normal equations gets to the end, and is the fit of the samples; a singular matrix names the column where it stops |
| Oscillation.FitOptimal | conformance/src/endurance/oscillation.ts:92-112 | the coefficients are strictly better than any other four, and score and rSquared lie between 0 and 1 |
| Oscillation.FitUnique | conformance/src/endurance/oscillation.ts:62-113 | the samples determine the fit |
| Oscillation.ExactRecovery | conformance/src/endurance/oscillation.ts:62-113 | samples that lie on some combination of the basis give back that combination, with score 0 |
| Oscillation.FindJointHarmonicPeriod | conformance/src/endurance/oscillation.ts:115-139 | it throws exactly when there are no runs, the range is empty or some candidate cannot be fitted to some run; otherwise the period is the first with the least joint score among all candidates from the minimum in steps of one |
| Oscillation.ScoredOnce | conformance/src/endurance/oscillation.ts:125-126 | the joint score of a period is determined by the runs |
| Statistics.TheilSenBytesPerHour | conformance/src/endurance/statistics.ts:25-49 | the nested loops compute the median slope over all pairs at distinct times, or nothing if there is no such pair |
| Statistics.TheilSenPermuted | conformance/src/endurance/statistics.ts:25-49 | the slope does not depend on the order of the samples |
| Statistics.TheilSenTilted | conformance/src/endurance/statistics.ts:25-49 | adding a + b t to every reading adds exactly 3600 b |
| Statistics.MedianMajority | conformance/src/endurance/statistics.ts:13-23 | a value that makes up more than half of the list is the median |
| Statistics.TheilSenMajority | conformance/src/endurance/statistics.ts:25-49 | a slope shared by more than half of the pairs is the result, whatever the rest |
| Statistics.LineTheilSen | conformance/src/endurance/statistics.ts:25-49 | samples on a line give its slope |
| Statistics.SustainedLeak | conformance/src/endurance/statistics.ts:51-64 | a steady leak over the window is measured exactly once warm-up and window have passed, whatever came before |
| Statistics.PercentileCovers | conformance/src/endurance/statistics.ts:1-11 | for every fraction the percentile is the least value that covers the share of the values, clamped to at least one and at most all of them; only an empty list has none |
| Statistics.TargetIsShare | conformance/src/endurance/statistics.ts:6-9 | for a fraction in (0, 1] the clamping has no effect on which values cover the share |
| Statistics.QuantileMonotone | conformance/src/endurance/oscillation.ts:167-178 | the interpolated quantile grows with the fraction |
| Statistics.QuantileMedian | conformance/src/endurance/oscillation.ts:167-178 | at one half it is the median |
| Rewriting.SplitJoin | conformance/src/auth/normalize.ts:142 | split and join replace the occurrences from left to right |
| Rewriting.TemplateMatches | conformance/src/auth/normalize.ts:150 | the template expression recognises a template whatever text follows it |
| Rewriting.ResolveRendered | conformance/src/auth/normalize.ts:149-155 | resolving a text made of literals and known templates gives what it stands for |
| Rewriting.RewriteRendered | conformance/src/auth/normalize.ts:137-143 | a round on the text is a round on its tokens: no name is touched, no match runs over a name |
| Rewriting.RewriteMeaning | conformance/src/auth/normalize.ts:137-143 | a round does not change what the text stands for |
| Rewriting.HitBreaks | conformance/src/auth/normalize.ts:137-143 | a round that hits the inside of a name destroys it |
| Rewriting.BrokenStays | conformance/src/auth/normalize.ts:137-143 | no later round repairs it |
| Naming.NamesCollide | conformance/src/auth/normalize.ts:99 | two names coincide exactly for the same registration, or when one step is the other with the number of a later value appended |
| Naming.NumberedStepCollides | conformance/src/auth/normalize.ts:94-109 | such a collision makes a freshly returned name resolve to another value |
| Naming.RegisterResolves | conformance/src/auth/normalize.ts:94-109 | with any kind and step, what a registration returns resolves to the value if and only if the value has a name already, or the next name is free or belongs to it |
| Naming.RegisterShape | conformance/src/auth/normalize.ts:94-109 | with clean kinds and steps the next name is new, always resolves to the value, and is returned unless the value has a name already |
| Naming.RunKeeps | conformance/src/auth/normalize.ts:94-115 | every run of clean registrations and fresh bindings keeps both maps inverse and never changes an entry |
| Naming.NamesArePermanent | conformance/src/auth/normalize.ts:94-128 | in every run, what register returns resolves to the value then and ever after, aliases included, and distinct values never share a name |
| Naming.NameIsTemplate | conformance/src/auth/normalize.ts:99 | kinds of letters and steps of word characters give names that resolve recognises |
| Naming.WholeValue | conformance/src/auth/normalize.ts:131-146 | thanks to longest-first, a registered value on its own becomes exactly its name |
| Naming.ResolveUndoesReplace | conformance/src/auth/normalize.ts:131-155 | resolving the replaced text gives the original text, digit-only values included |
| Naming.RoundTripExactly | conformance/src/auth/normalize.ts:131-155 | this holds for all texts without `{{` if and only if no round can rewrite a name that an earlier round has put in |
| Naming.RunBracketed | conformance/src/auth/normalize.ts:94-128 | every clean run with kinds of letters, steps of word characters, bindings to templates and values without braces leaves a consistent table of recognisable names |
| Naming.RunsRoundTrip | conformance/src/auth/normalize.ts:94-155 | for the table of every such run, resolving undoes replacing on all texts without `{{` if and only if no round can rewrite a name that an earlier round has put in |
| Naming.ResolveUndoesFinish | conformance/src/auth/normalize.ts:157-164 | a finished JSON value resolves back to the recorded one |
| Naming.Registry.constructor | conformance/src/auth/normalize.ts:84-86 | a new registry is empty and holds its constants |
| Naming.Registry.Register | conformance/src/auth/normalize.ts:94-109 | the object changes, and answers, as the specification of a registration says |
| Naming.Registry.Bind | conformance/src/auth/normalize.ts:112-115 | both maps get the entry; a value that had one keeps its place |
| Naming.Registry.ReplaceAll | conformance/src/auth/normalize.ts:131-146 | the loop performs the rounds in the order of the specification and changes nothing else |
| NamingRuns.NamesAppend | conformance/src/auth/normalize.ts:94-109 | a run can be cut anywhere: the rest continues from the table the first part left |
| NamingRuns.NamesClosedForm | conformance/src/auth/normalize.ts:94-109 | every name of a run, with any kinds and steps, is given by the first mention of the value and the number of calls counted until then |
| NamingRuns.NameResolves | conformance/src/auth/normalize.ts:94-128 | at the end of a run a name resolves to the value of the first event that generated it |
| NamingRuns.ResolvesExactly | conformance/src/auth/normalize.ts:94-128 | in every run, with any steps, the name of a value resolves to that value if and only if no earlier event generated the same name, that is, no step is literally the other with the number of a later value |
| NamingRuns.NamesSameRaw | conformance/src/auth/normalize.ts:94-109 | two answers of a run are the same name exactly when the values are the same, if no step is another one with a number appended |
| NamingRuns.SameNamesIff | conformance/src/auth/normalize.ts:94-109 | two runs hand out the same names exactly when one is the other with its values renamed one to one |
| NamingRuns.TablesCorrespond | conformance/src/auth/normalize.ts:94-109 | and then their tables correspond under that renaming, counters included |
| PubsubNormalize.NormalizeValue | conformance/src/pubsub/normalize.ts:52-80 | the walk registers the ids of the sorted value in order and puts their names in, blanks times and keeps the rest |
| PubsubNormalize.NormalizeListed | conformance/src/pubsub/normalize.ts:56-60 | in an array of ids each non-empty string is replaced by its name, everything else stays |
| PubsubNormalize.ReplaceOrigins | conformance/src/pubsub/normalize.ts:87-93 | the loop over any list of pairs makes the replacements one after the other, skipping empty and absent ones |
| PubsubRuns.RecordSteps | conformance/src/pubsub/runner.ts:235-247 | a program's values are normalised step by step with one registry that starts with the push origin bound, and finished |
| PubsubRuns.FillAgrees | conformance/src/pubsub/normalize.ts:47-100 | values that differ only in ids, times and the push origin register the same kinds and look the same with the same names once finished |
| PubsubRuns.FillReveals | conformance/src/pubsub/normalize.ts:47-100 | equal results come only from such values, and from the same names, whatever braces the values hold |
| PubsubRuns.RecordingsAgree | conformance/src/pubsub/normalize.ts:47-100 | two runs with their own origins leave the same recording if and only if their values differ only in key order, ids, times and the origin, and the same ids return at the same places of the whole run |
| PubsubRuns.TimeLiteralIsConfused | conformance/src/pubsub/normalize.ts:52-55 | a string that is literally the time template is recorded like every time |
| PubsubRuns.KeyOrderIrrelevant | conformance/src/pubsub/normalize.ts:64-67 | for all values, comparing what the sorted walk sees is comparing key by key, so the order in which keys arrive has no influence |
| PubsubNormalize.PartOfName | conformance/src/pubsub/normalize.ts:73-76 | a schema name is cut at its first `@` and the next part is registered as the revision |
| PubsubNormalize.TrailingTextIsLost | conformance/src/pubsub/normalize.ts:73-76 | names that differ only behind a second `@` are recorded alike |
| Seeding.SeedWorkingSet | conformance/src/endurance/soak.ts:641-698 | the batches cover the documents in order within both limits and no cut into feasible batches needs fewer; a refused write always throws, before a later batch is started |
| Seeding.GreedyIsOptimal | conformance/src/endurance/soak.ts:655-683 | batches that could not have taken the next document are as few as possible |
| Listener.RunValid | conformance/src/endurance/soak.ts:344-431 | in every interleaving writes reach the server one at a time and in order, expected is the largest acknowledged write and observed the newest state shown |
| Listener.MismatchesCounted | conformance/src/endurance/soak.ts:356-361 | the mismatches of every run are exactly the snapshots that go back behind one shown before |
| Listener.ConsistentRunsHaveNone | conformance/src/endurance/soak.ts:344-404 | if every replacement starts at least where its predecessors had got to, no run counts a mismatch |
| Listener.StaleReplacementIsCounted | conformance/src/endurance/soak.ts:384-404 | without that a run whose listeners all follow the commit order counts one |
| Listener.FinalState | conformance/src/endurance/soak.ts:602-610 | once drained, the final-state criterion holds exactly when the latest state was not left by a failed write |
| Scheduler.RunValid | conformance/src/endurance/soak.ts:172-204 | in every interleaving, on any clock, the in-flight set stays within the limit, every scheduled operation is running or counted once, and rollup columns plus the open interval equal the totals |
| Scheduler.RunPaced | conformance/src/endurance/soak.ts:184-188 | on a clock that does not go back, no operation is scheduled before its planned time |
| Scheduler.WatchCondition | conformance/src/endurance/soak.ts:582-585 | the stall watch is on exactly while more operations are running than unrelated errors were counted and the run was not stopped; a server that exits only ends the scheduling |
| Scheduler.MaskedStall | conformance/src/endurance/soak.ts:582-600 | otherwise a stuck operation is never reported, however long the timers run |
| Recovery.DocumentNameInjective | conformance/src/endurance/recovery-gate.ts:275-277 | a document name belongs to one side of one commit |
| Recovery.SeedIdInjective | conformance/src/endurance/recovery-gate.ts:63 | seed ids are distinct, also beyond the padding |
| Recovery.LiveIdInjective | conformance/src/endurance/recovery-gate.ts:148 | live ids are distinct, also beyond the padding |
| Recovery.SeedIsNotLive | conformance/src/endurance/recovery-gate.ts:148 | no seed id is a live id |
| Recovery.CountedIds | conformance/src/endurance/recovery-gate.ts:164-168 | an id counts for its round exactly when it is the round's first seed commit |
| Recovery.VerifyRecovered | conformance/src/endurance/recovery-gate.ts:233-251 | the counts are the sizes of the sets of lost and of partial commits |
| Recovery.CheckIsExact | conformance/src/endurance/recovery-gate.ts:207-252 | both counts are zero exactly when an atomic store that kept the acknowledged commits could have given the answer |
| Recovery.SeedCommits | conformance/src/endurance/recovery-gate.ts:58-69 | all seed commits of the round are acknowledged, or the first failure throws |
| Recovery.WriteUntilKilled | conformance/src/endurance/recovery-gate.ts:146-162 | the live commits before an interruption are acknowledged and one more is attempted; any other error throws |
| Recovery.AckedSize | conformance/src/endurance/recovery-gate.ts:114-115 | the number of acknowledged ids is the number of acknowledgements |
| Recovery.CompletedRounds | conformance/src/endurance/recovery-gate.ts:164-168 | the completed rounds are counted right if there is a seed commit per round, and as none otherwise |
| Recovery.RunRounds | conformance/src/endurance/recovery-gate.ts:43-101 | the rounds run up to the first check that is not clean, or to a server that does not start or answer, or to a commit that throws |
| Recovery.RunRecoveryGate | conformance/src/endurance/recovery-gate.ts:42-136 | exactly when the gate throws, failed starts, queries and commits included, exactly when it passes, and what its summary counts: any count in a round's check makes it fail |
| Recovery.PassedMeansFaithful | conformance/src/endurance/recovery-gate.ts:42-136 | with no allowance, a run passes exactly when every answer was one an atomic and durable store could give and enough was acknowledged |
| RandomReads.NextIsAffine | conformance/src/endurance/import-gate.ts:162 | the signed multiplication and the unsigned shift are the affine map modulo 2^32 |
| RandomReads.PeriodModulo | conformance/src/endurance/import-gate.ts:162 | modulo 2^k the state returns after n steps exactly when 2^k divides n |
| RandomReads.FullPeriod | conformance/src/endurance/import-gate.ts:162 | a state returns after exactly the multiples of 2^32 steps |
| RandomReads.NoRepetition | conformance/src/endurance/import-gate.ts:162 | no state repeats within 2^32 draws |
| RandomReads.Predecessor | conformance/src/endurance/recovery-gate.ts:71 | every state has exactly one predecessor |
| RandomReads.PoolReads | conformance/src/endurance/import-gate.ts:145-191 | in every interleaving exactly the wanted number of reads is made, the n-th for the n-th output, and each bad one is counted |
| Utf8.DecodeAtNewline | conformance/src/functions-runtime/runner.ts:478-479 | decoding with replacement can be cut at newline bytes, for all bytes |
| Utf8.DecodeNoNewline | conformance/src/functions-runtime/runner.ts:479 | no newline appears that was not a newline byte |
| Utf8.MeasuredLength | conformance/src/functions-runtime/runner.ts:478-492 | for all bytes, decoding and re-encoding lengthens them by the sum of 3 minus the length of each broken-off sequence |
| Utf8.OvershootAtNewline | conformance/src/functions-runtime/runner.ts:478-492 | that surplus adds up over lines |
| Utf8.DecodeEncode | conformance/src/functions-runtime/runner.ts:478-492 | text survives encoding and decoding |
| Utf8.EncodeCut | conformance/src/functions-runtime/runner.ts:478-492 | encoded text can be cut at any newline byte into encoded texts |
| Observations.ReadsUpToNewline | conformance/src/functions-runtime/runner.ts:471-493 | a read takes the lines up to the last newline byte; the cursor lands behind that newline plus the surplus of what was read, for all bytes |
| Observations.ReadExactly | conformance/src/functions-runtime/runner.ts:471-493 | for all bytes, wherever the file is cut, the cursor lands just behind the last newline with exactly the complete lines taken if and only if what is read has no surplus |
| Observations.AllReadsGood | conformance/src/functions-runtime/runner.ts:471-493 | all reads of all parts of a file are right if and only if no complete line of it has a surplus |
| Observations.EncodedMeasured | conformance/src/functions-runtime/runner.ts:471-493 | files that hold encoded text are such files |
| Observations.ThreeBytesMeasureRight | conformance/src/functions-runtime/runner.ts:492 | so is one that is not UTF-8 but breaks off after three bytes |
| Observations.StrayByteMovesCursor | conformance/src/functions-runtime/runner.ts:492 | a byte that is not UTF-8 moves the cursor past the newline |
| Observations.EachLineOnce | conformance/src/functions-runtime/runner.ts:471-493 | over any sequence of reads of such a file each complete non-empty line up to the cursor is collected exactly once, in order, and behind the cursor no part that was read has a complete line |
| Observations.CheckSatisfied | conformance/src/functions-runtime/runner.ts:495-505 | a list of handler names is satisfied exactly as a multiset |
| Observations.Remove | conformance/src/functions-runtime/runner.ts:501-502 | one occurrence of the name is taken out, if there is one |
| Observations.ReadsGrow | conformance/src/functions-runtime/runner.ts:514-526 | a later read from the same cursor only adds lines |
| Observations.CollectObservations | conformance/src/functions-runtime/runner.ts:507-529 | a step times out exactly when no poll up to the first one past the deadline sees what it waits for; otherwise what it records satisfies it |
| BalancedRules.BuildLeaves | conformance/src/rules/capture-phase3-boundaries.ts:249-266 | the leaves cover the comparisons in order, ten each |
| BalancedRules.PairUp | conformance/src/rules/capture-phase3-boundaries.ts:268-283 | a level keeps the comparisons and their order, halves the names rounding up and adds one call level |
| BalancedRules.BalancedExpression | conformance/src/rules/capture-phase3-boundaries.ts:248-292 | for L leaves there are 2L - 1 distinct functions that call only earlier ones, the root evaluates each comparison once and in order at depth exactly 1 + ceil(log2 L) |
| BalancedRules.RoundsIsLogarithm | conformance/src/rules/capture-phase3-boundaries.ts:267-283 | the number of levels is the least whose power of two covers the leaves |
| BalancedRules.ValueIsConjunction | conformance/src/rules/capture-phase3-boundaries.ts:277 | a function has the value of the conjunction of all comparisons it expands to |
| BalancedRules.SameMeaning | conformance/src/rules/capture-phase3-boundaries.ts:240-292 | the balanced and the linear source have the same value, whatever each comparison gives |

## Left out

- The Rust emulator (Firestore store, Auth, Pub/Sub, Tasks, rules evaluator) is not part of this model; the store appears
  only as the environment of the recovery and listener protocols.
- Auth's `normalizeValue`: token decoding, base64 probes and the blanking of opaque keys; the registry it drives is modelled.
- The sorting of Pub/Sub's received messages, streams and pushes: a step has one normalised value.
- PubsubRuns.RecordingsAgree: is about origins that have a `/` and no `@`, and step ids without a `/` of which none is
  another one with a number appended (`a` and `a#2`), since then the names themselves collide; ids without `#` never are.
- `view` and `compareStep` of the replays, which project and classify recorded steps before and after comparing.
- Program tables, route tables, capture drivers, manifest loading, process control, HTTP and gRPC calls, log files.
- Floating-point rounding, NaN and -0: numbers are exact, and in JSON they are identified by their printed numeral.
- Lone surrogates, and the special enumeration order and the special names (`__proto__`) of JavaScript object keys.
- `$` patterns in the replacement string of the digit-only rule: names that `resolve` recognises contain no `$`.
- FitHarmonic: does not return amplitude, phase and hourly trend, which are read off the coefficients it returns.
- `circularPhaseSlopes`, latencies, RSS sampling and the remaining summary criteria of the soak run.
- SeedWorkingSet: takes as inputs which writes are refused and when that is noticed before the batch is drained.
- Listener.RunValid: takes it that a write which failed is not applied afterwards.
- Scheduler.RunPaced: takes it that a timer does not fire before its time.
- RunRecoveryGate: does not model the random kill delay, which only decides how many live commits happen before the kill.
- CollectObservations: keeps the observations in file order and as lines; parsing them and sorting them by a key is left out.
- EachLineOnce: is about files without a surplus; for others ReadsUpToNewline says where each read leaves the cursor.
- BalancedExpression: gives the declarations, not the text around them.
- `sourceWithExactBytes`, `functionDepthSource` and the other rule sources.
