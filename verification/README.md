# Lagrange: verified models of its checkers, analyzers and clock

The repository ships a family of scripts that judge specifications, logs and source code, and
a hybrid logical clock that stamps distributed operations.  This project models the logic of
thirteen of the scripts and of the clock, and proves what their answers mean: each result is
a statement about every input, every run or every reachable state, made without reference to
the loop that computes it.

`dafny verify dfyconfig.toml` checks everything.

| module | system part |
|---|---|
| `LinearFit`, `SeededRandom` | the least-squares fit and the seeded generator of the cost-model calibration |
| `DecisionTables` | the decision-table checker |
| `Statecharts` | the statechart checker |
| `OwnerTraces` | the owner-trace monitor |
| `MonotoneDrain` | the in-flight sweep of the drain characterizer |
| `LeadershipFlap` | the attribution census of leadership flips |
| `HotPathBaseline` | the count baseline of the hot-path check |
| `RedecisionStorm` | the re-decision storm analyzer |
| `LadderCensus` | the partition-class site census |
| `DtProve` | the red-on-revert proof of a test |
| `ClosureLedger` | the closure-ledger parser and its state-block migration |
| `DeadClaims` | the reference tallies behind dead-bound claims |
| `WarningStrikes` | the two-strike rule for soft warnings |
| `HybridClock` | the hybrid logical clock and its text form |
| `Lists`, `Text` | counting, sorting, splitting and numerals, shared by the others |

Where the source updates variables, maps or objects step by step, the model is a `method` or
a `class` proved against a specification function; the theorems are lemmas about those
functions.  Files, directories, processes, clocks and log decompression are parameters: a log
is a list of lines already parsed, a worktree is a map from paths to bytes, a test is a
function of the tree, a syntax tree is a datatype, a wall clock is an input of each step.

## What the proofs found

- Transition keys of statecharts join state and event with a colon, so a chart with a colon in
  a state name can be refused for a pair it does not repeat (`Statecharts.ColonCollision`).
- An outcome with an undeclared key passes when every object inherits a property of that name,
  such as `toString` (`DecisionTables.UndeclaredOutcomeKey`).
- The drain verdict promises that the in-flight count never rose again, but an operation that
  is logged once rises and falls within one timestamp and still counts
  (`MonotoneDrain.InstantOperationOscillates`); `VerdictAgreesWithInFlight` and, for a whole run,
  `RunVerdictAgrees` are the exact conditions.
- Flips replay to the recorded leaders only if no change hides in a gap of the frames
  (`LeadershipFlap.ReplayMeaning`, `LeadershipFlap.GapHidesChange`).
- Restoring undoes reverting only for files that exist in the snapshot and are listed once
  (`DtProve.RestoreUndoesRevert`).
- The ledger's comment says that drift and missing state blocks are zero once the migration
  has run.  The exact condition is `ClosureLedger.LedgerCleanExactly`: a row without a record,
  and a record with a header but without a label, without a row, with a label at or before the
  heading, or with the index word `constructor` can break it.
- The dead-claim scan says that a declaration is no use of its own name, but a quoted key is
  one (`DeadClaims.QuotedKeyRefutesItself`).
- A file that writes a name with an escape sequence is skipped by the dead-claim scan
  (`DeadClaims.EscapedNameIsMissed`).
- The same scan says that it never lets a live bound pass as dead, but a bare name that is read
  as an index, or as a computed key, is no reference to it (`DeadClaims.IndexIsMissed`);
  `DeadClaims.UseRefutes` and `DeadClaims.NameRefutedExactly` say which uses count.
- A timestamp with a negative number does not read back (`HybridClock.RoundTrip`).
- A clock that restarts behind its last stamp can repeat that stamp
  (`HybridClock.RestartExactly`).  The warm-up of partition replicas excludes this for committed
  stamps (`HybridClock.CommittedNeverRepeated`); the clocks of the runtime, the query executor
  and the change feed have no warm-up.
- These clocks may carry one node identity, and then two events can get one timestamp
  (`HybridClock.DistinctExactly`).
- An identity of the hot-path baseline joins file, kind and function with bars, so names with
  bars can share an allowance (`HotPathBaseline.BarCollision`).

## Model

| member | source | states |
|---|---|---|
| `LinearFit.Compute` | scripts/calibrate-cost-model.js:236-257 | For any non-empty point list the returned line has the least squared error of all lines and R squared is in [0, 1]; with two different abscissas it is the only such line and R squared is 1 exactly when it meets every point, otherwise slope and R squared are zero; the empty list gives no number |
| `LinearFit.SumUp` | scripts/calibrate-cost-model.js:238-241 | The first pass yields the four sums that the closed form needs |
| `LinearFit.SumErrors` | scripts/calibrate-cost-model.js:249-254 | The second pass yields the total and the residual sum of squares |
| `LinearFit.DenominatorSign` | scripts/calibrate-cost-model.js:242-243 | The slope denominator is never negative, and zero exactly when all abscissas are equal |
| `LinearFit.Pythagoras` | scripts/calibrate-cost-model.js:246-247 | Leaving a line that meets the normal equations adds exactly the squared values of the difference line to the error |
| `LinearFit.NormalEquationsSuffice` | scripts/calibrate-cost-model.js:246-247 | A line that meets the normal equations is a least-squares line |
| `LinearFit.LeastSquaresUnique` | scripts/calibrate-cost-model.js:246-247 | With two different abscissas no other line does as well |
| `LinearFit.ClosedFormIsLeastSquares` | scripts/calibrate-cost-model.js:246-247 | The quotient formulas for slope and intercept give a least-squares line |
| `LinearFit.MeanIsLeastSquares` | scripts/calibrate-cost-model.js:243-245 | The branch without a slope, the mean ordinate, is a least-squares line too |
| `LinearFit.DeterminationRange` | scripts/calibrate-cost-model.js:248-256 | For a least-squares line R squared lies in [0, 1], and is 1 exactly when the line goes through every point, also in the branch where the total sum of squares is zero |
| `SeededRandom.Generator.constructor` | scripts/calibrate-cost-model.js:38-39 | A new generator is at call zero of its seed |
| `SeededRandom.Generator.Next` | scripts/calibrate-cost-model.js:40-46 | Each call moves the state to seed plus calls times the increment, modulo 2^32, and yields a number in [0, 1) |
| `SeededRandom.KnownOutputs` | scripts/calibrate-cost-model.js:43-45 | The 32 output bits of six states, the first state after seed 0 among them |
| `SeededRandom.StatesAgree` | scripts/calibrate-cost-model.js:42-42 | The states after two numbers of calls agree exactly when the numbers differ by a multiple of 2^32, so the first 2^32 states are pairwise distinct |
| `SeededRandom.EveryStateReached` | scripts/calibrate-cost-model.js:42-42 | Full period: every 32-bit state is reached within the first 2^32 calls |
| `DecisionTables.CartesianProduct` | scripts/check-decision-tables.js:112-122 | The nested loops build the enumeration whose members the next two lemmas characterize |
| `DecisionTables.ProductIsAssignments` | scripts/check-decision-tables.js:112-122 | The enumeration holds exactly the assignments of one declared value to every input |
| `DecisionTables.ProductSize` | scripts/check-decision-tables.js:112-122 | It has as many entries as the product of the domain sizes |
| `DecisionTables.ValidateCoverage` | scripts/check-decision-tables.js:224-238 | It reports exactly the combinations whose number of matching rules is not one, so nothing exactly when every assignment matches one rule |
| `DecisionTables.OverlapMeaning` | scripts/check-decision-tables.js:124-128 | Two rules match no common assignment exactly when some input holds two different values in them |
| `DecisionTables.RuleSizeCounts` | scripts/check-decision-tables.js:124-128 | A rule matches as many combinations as the product over its cells of one, or of the domain size for a wildcard |
| `DecisionTables.CountTwice` | scripts/check-decision-tables.js:124-128 | Counting matches by rule and by combination gives the same total |
| `DecisionTables.CoverageBySizes` | scripts/check-decision-tables.js:124-238 | A well-shaped table is covered if and only if its rules exclude one another and their sizes sum to the number of combinations |
| `DecisionTables.ValidateNamedValues` | scripts/check-decision-tables.js:58-82 | No error exactly when there are entries, their names are distinct, and their domains are non-empty and duplicate-free |
| `DecisionTables.ValidateWhen` | scripts/check-decision-tables.js:178-196 | No error exactly when the cells name the inputs, each with a declared value or the wildcard |
| `DecisionTables.ValidateOutcome` | scripts/check-decision-tables.js:197-217 | No error exactly when the outcome gives every output a declared value and has no further key, other than names that every object inherits |
| `DecisionTables.UndeclaredOutcomeKey` | scripts/check-decision-tables.js:212-217 | A table whose outcome carries a key that no output declares is accepted exactly when every object inherits a property of that name |
| `DecisionTables.ValidateRuleShape` | scripts/check-decision-tables.js:130-222 | No error exactly when there are rules, their ids are distinct, and all cells and outcomes are good |
| `DecisionTables.ValidateDecisionTable` | scripts/check-decision-tables.js:240-273 | The whole check reports nothing exactly for the accepted tables |
| `DecisionTables.AcceptedIsFunction` | scripts/check-decision-tables.js:224-238 | In an accepted table every assignment is decided by one rule, and by only one, with a declared value for every output |
| `DecisionTables.RuleOrderIrrelevant` | scripts/check-decision-tables.js:224-238 | Any reordering of the rules stays accepted and decides every assignment the same way |
| `DecisionTables.AcceptedSizes` | scripts/check-decision-tables.js:124-238 | In an accepted table no two rules overlap and the rule sizes sum to the number of combinations |
| `Statecharts.Pass` | scripts/check-statecharts.js:143-152 | One pass only adds reachable states, and adds none exactly when the set is closed under the transitions |
| `Statecharts.ReachableStates` | scripts/check-statecharts.js:138-155 | The loop terminates and returns exactly the states in which some run ends |
| `Statecharts.KeyMeaning` | scripts/check-statecharts.js:129-135 | Two transition keys are equal exactly when the from/event pairs are, or when one pair is the other shifted past a colon |
| `Statecharts.KeyWithoutColons` | scripts/check-statecharts.js:129-135 | Without a colon in the state names equal keys mean equal pairs |
| `Statecharts.KeysDistinctExactly` | scripts/check-statecharts.js:129-135 | The keys of a chart are distinct if and only if its from/event pairs are and no two transitions are shifted past a colon |
| `Statecharts.ColonCollision` | scripts/check-statecharts.js:129-135 | A family of charts with concrete names that repeat no pair and meet every other demand, and are refused because two keys read alike |
| `Statecharts.ValidateStates` | scripts/check-statecharts.js:56-78 | No error exactly when there are states and their ids are distinct |
| `Statecharts.ValidateTransitionShape` | scripts/check-statecharts.js:108-136 | No error exactly when there are transitions, they join declared states, and their keys are distinct |
| `Statecharts.ValidateTerminals` | scripts/check-statecharts.js:161-175 | No error exactly when there are terminal states, all declared and none with a way out |
| `Statecharts.ValidateReachability` | scripts/check-statecharts.js:176-181 | No error exactly when some run ends in every declared state |
| `Statecharts.ValidateOutgoing` | scripts/check-statecharts.js:182-192 | No error exactly when every other state has a way out |
| `Statecharts.ValidateGraph` | scripts/check-statecharts.js:157-193 | No error exactly when the initial state is declared and the three conditions above hold |
| `Statecharts.ValidateForbiddenTransitions` | scripts/check-statecharts.js:195-228 | No error exactly when the forbidden transitions join declared states and none of them is present |
| `Statecharts.ValidateStatechart` | scripts/check-statecharts.js:230-256 | The whole check reports nothing exactly for the accepted charts |
| `Statecharts.DeterminismMeaning` | scripts/check-statecharts.js:133-135 | Where all states are reachable, the event word determines the run exactly when no two different transitions share a from/event pair |
| `Statecharts.RunGoesOn` | scripts/check-statecharts.js:161-192 | A run of an accepted chart can be extended exactly when its state is not terminal |
| `Statecharts.AcceptedRuns` | scripts/check-statecharts.js:108-228 | Every run of an accepted chart stays in declared states, takes no forbidden transition, is determined by its event word, and goes on exactly in non-terminal states; together the runs end in all declared states |
| `OwnerTraces.KindMeaning` | scripts/check-owner-traces.js:70-120 | The branch that an event takes, by its actor, action, service and follow-up flag |
| `OwnerTraces.FlagsMeaning` | scripts/check-owner-traces.js:99-120 | The flags and sets the loop keeps flag an event exactly when the first-order statement of the invariant fails at its position in the trace |
| `OwnerTraces.FlaggedMeaning` | scripts/check-owner-traces.js:70-121 | An invariant is flagged somewhere in the trace exactly when its statement fails at some position |
| `OwnerTraces.Judge` | scripts/check-owner-traces.js:99-120 | The observer branches add exactly the violations that the remembered state flags |
| `OwnerTraces.CollectTraceViolations` | scripts/check-owner-traces.js:59-124 | The one-pass monitor reports a violation exactly when its statement over trace positions is broken |
| `OwnerTraces.PrefixViolations` | scripts/check-owner-traces.js:59-124 | A violation of a prefix is a violation of every extension |
| `OwnerTraces.ExtraEvidenceIsHarmless` | scripts/check-owner-traces.js:75-98 | One more owner serviceable event, for whatever service, or wake event, anywhere in the trace, adds no violation |
| `OwnerTraces.ValidateInvariants` | scripts/check-owner-traces.js:146-203 | No error exactly when the suite declares invariants with distinct ids and has traces of both kinds |
| `OwnerTraces.ValidateForbidden` | scripts/check-owner-traces.js:216-242 | No error exactly when the trace expects something, expects only ids that the suite declares, and violates all it expects |
| `OwnerTraces.ValidateValid` | scripts/check-owner-traces.js:205-214 | No error exactly when the trace has events and violates nothing |
| `OwnerTraces.ValidateTraceSuite` | scripts/check-owner-traces.js:172-244 | The check of a suite reports nothing exactly when it is well-shaped, valid traces violate nothing, and forbidden traces violate what they expect, which the suite declares |
| `OwnerTraces.ForbiddenIsNoPrefix` | scripts/check-owner-traces.js:205-242 | In an accepted suite no forbidden trace begins a valid one |
| `MonotoneDrain.ScanLines` | scripts/analyze-monotone-drain.js:58-89 | The two maps hold the first creation and the latest mention of each operation |
| `MonotoneDrain.ParseOpLifetimes` | scripts/analyze-monotone-drain.js:57-99 | One lifetime per created operation, from its first creation to its latest mention |
| `MonotoneDrain.CountIsInFlight` | scripts/analyze-monotone-drain.js:105-116 | After all events of a timestamp t the running count is the number of operations with createMs at most t and lastMs after t |
| `MonotoneDrain.SweepEndsAtZero` | scripts/analyze-monotone-drain.js:105-116 | The series moves by one at each event and ends at zero |
| `MonotoneDrain.PeakEndsTimestamp` | scripts/analyze-monotone-drain.js:110-121 | The first peak is a creation and the last event of its timestamp |
| `MonotoneDrain.PeakMeaning` | scripts/analyze-monotone-drain.js:120-121 | The peak is the greatest number of operations in flight at any time, and no earlier time reaches it |
| `MonotoneDrain.RisesBalance` | scripts/analyze-monotone-drain.js:122-127 | Twice the post-peak rises is the number of events after the peak less the peak |
| `MonotoneDrain.RisesAreLaterCreations` | scripts/analyze-monotone-drain.js:122-127 | The post-peak rises are exactly the operations created after the time of the first peak |
| `MonotoneDrain.BuildEvents` | scripts/analyze-monotone-drain.js:105-109 | A creation and an end event for each lifetime, before they are sorted |
| `MonotoneDrain.BuildSeries` | scripts/analyze-monotone-drain.js:111-116 | The series is the running sum of the events |
| `MonotoneDrain.FirstMaximum` | scripts/analyze-monotone-drain.js:120-121 | The greatest element and its first index |
| `MonotoneDrain.CountRises` | scripts/analyze-monotone-drain.js:122-127 | The number of increments after the index |
| `MonotoneDrain.PartitionPostPeakRises` | scripts/analyze-monotone-drain.js:104-129 | Peak and rises in terms of the lifetimes alone: the greatest number in flight, and the creations after it was first reached |
| `MonotoneDrain.NoRisesMeansNoCreation` | scripts/analyze-monotone-drain.js:122-127 | No rise exactly when no operation is created after the first peak |
| `MonotoneDrain.GroupByPartition` | scripts/analyze-monotone-drain.js:133-141 | The groups hold exactly the lifetimes of each partition, in order |
| `MonotoneDrain.OnPartitionIsAll` | scripts/analyze-monotone-drain.js:133-141 | Such a group keeps every lifetime of its partition, in order, and no other |
| `MonotoneDrain.SummarizeTarget` | scripts/analyze-monotone-drain.js:132-165 | The verdict is monotone exactly when on no partition an operation is created after the peak; there is one row for each partition, stating its drain, sorted by rises, and the totals are the sums of the rows |
| `MonotoneDrain.AnalyzeLines` | scripts/analyze-monotone-drain.js:173-190 | The same verdict, rows and totals from the log lines of a run |
| `MonotoneDrain.MonotoneDrainNeverRises` | scripts/analyze-monotone-drain.js:158-162 | No rise of the series means that the in-flight count never rises after the peak |
| `MonotoneDrain.InstantOperationOscillates` | scripts/analyze-monotone-drain.js:158-162 | The converse fails: an operation logged once, after the peak, makes the verdict OSCILLATING while the in-flight count never rises |
| `MonotoneDrain.VerdictAgreesWithInFlight` | scripts/analyze-monotone-drain.js:158-162 | Exactly when verdict and in-flight count agree on a partition: nothing is created after the peak, or at some later time more operations are created than end |
| `MonotoneDrain.TieFreeVerdict` | scripts/analyze-monotone-drain.js:110-110 | They always agree when no creation shares its timestamp with an end |
| `MonotoneDrain.RunVerdictAgrees` | scripts/analyze-monotone-drain.js:158-162 | For a whole run: the verdict says exactly that no in-flight count rises again, unless an operation is created after a peak while on every partition at each later time at least as many operations end as are created |
| `MonotoneDrain.TieFreeRun` | scripts/analyze-monotone-drain.js:158-162 | So the verdict of a run keeps its promise when on no partition a creation shares its timestamp with an end |
| `HotPathBaseline.IdentityMeaning` | scripts/check-guideline-hot-path-diagnostics.js:190-200 | Two findings share an identity exactly when file, kind and function read alike once every bar is a separator |
| `HotPathBaseline.IdentityWithoutBars` | scripts/check-guideline-hot-path-diagnostics.js:190-200 | Without a bar in file and kind the identity tells the triples apart, as the comment in the source promises |
| `HotPathBaseline.BarCollision` | scripts/check-guideline-hot-path-diagnostics.js:190-200 | With one, findings of one kind in two files and two functions share an allowance |
| `HotPathBaseline.LoadBaseline` | scripts/check-guideline-hot-path-diagnostics.js:213-235 | The allowances count the identities of the baseline file; a missing file allows nothing |
| `HotPathBaseline.ApplyBaseline` | scripts/check-guideline-hot-path-diagnostics.js:253-280 | What is reported as new is the part of the report that exceeds the allowance, in report order, and inherited and new findings add up to the report |
| `HotPathBaseline.NewOnesAreDifference` | scripts/check-guideline-hot-path-diagnostics.js:253-280 | As multisets of identities, the new findings are the report minus the baseline |
| `HotPathBaseline.SplitPerIdentity` | scripts/check-guideline-hot-path-diagnostics.js:253-280 | Per identity the smaller of count and allowance is inherited, and the excess is new |
| `HotPathBaseline.OrderIrrelevant` | scripts/check-guideline-hot-path-diagnostics.js:253-280 | Reordering the report changes neither the new identities nor their number |
| `HotPathBaseline.CleanMeaning` | scripts/check-guideline-hot-path-diagnostics.js:253-280 | Nothing is new exactly when the report is a sub-multiset of the baseline |
| `HotPathBaseline.CheckReport` | scripts/check-guideline-hot-path-diagnostics.js:282-291 | The check against a baseline file, present or not, is clean exactly for sub-multisets of it |
| `HotPathBaseline.WrittenBaselineAccepts` | scripts/check-guideline-hot-path-diagnostics.js:309-326 | A baseline written from a report accepts that report |
| `HotPathBaseline.RatchetNeverGrows` | scripts/check-guideline-hot-path-diagnostics.js:309-326 | Over any run that rewrites the baseline from clean reports only, the baseline never grows, and what passes at the end would have passed at the start |
| `HotPathBaseline.RatchetExactly` | scripts/check-guideline-hot-path-diagnostics.js:309-326 | No rewrite of a run enlarges the baseline if and only if all rewrites take clean reports |
| `RedecisionStorm.ParseStormEvents` | scripts/analyze-redecision-storm.js:65-95 | Each list holds the times of its partition in line order |
| `RedecisionStorm.MergeInto` | scripts/analyze-redecision-storm.js:190-199 | Every list is extended by the other list of the same key |
| `RedecisionStorm.ReadTarget` | scripts/analyze-redecision-storm.js:171-188 | Parsing files one by one and merging gives the lists of their concatenation |
| `RedecisionStorm.MedianHalf` | scripts/analyze-redecision-storm.js:107-116 | A median below x puts at least half of the values below x, and more than half of them below x put the median below x; the same for above |
| `RedecisionStorm.MiddlesExist` | scripts/analyze-redecision-storm.js:107-116 | Every non-empty list has a lower and an upper middle value, found by counting the values below and above them, and their mean is the median; for an odd count the two are one |
| `RedecisionStorm.MiddlesUnique` | scripts/analyze-redecision-storm.js:107-116 | There is only one lower and one upper middle value |
| `RedecisionStorm.MedianExactly` | scripts/analyze-redecision-storm.js:107-116 | The median is the mean of the two middle values, and for an odd count the middle value |
| `RedecisionStorm.ComputeGaps` | scripts/analyze-redecision-storm.js:124-127 | The differences of neighbours in the sorted list |
| `RedecisionStorm.ClassifyPartition` | scripts/analyze-redecision-storm.js:121-140 | The row of a partition as a function of its dispatch times: their number and span, the median of the gaps, and the verdict |
| `RedecisionStorm.GapsSumToSpan` | scripts/analyze-redecision-storm.js:124-129 | The gaps add up to the span |
| `RedecisionStorm.OrderIrrelevant` | scripts/analyze-redecision-storm.js:121-140 | Reordering the dispatch times changes no classification |
| `RedecisionStorm.StormedMeans` | scripts/analyze-redecision-storm.js:130-138 | A re-decision verdict implies enough dispatches, at least half of the gaps below the settle window, and at least half of them positive |
| `RedecisionStorm.StormedWhen` | scripts/analyze-redecision-storm.js:130-138 | Enough dispatches with more than half of the gaps positive and more than half below the window make the verdict |
| `RedecisionStorm.StormedExactly` | scripts/analyze-redecision-storm.js:130-138 | The verdict is re-decision exactly when there are enough dispatches and the two middle gaps add up to more than zero and less than twice the settle window |
| `RedecisionStorm.DispatchesAddUp` | scripts/analyze-redecision-storm.js:143-165 | The lists of the partitions hold every dispatch line once |
| `RedecisionStorm.ClassifyAll` | scripts/analyze-redecision-storm.js:143-165 | The rows are the classifications of the partitions with a dispatch, one for each |
| `RedecisionStorm.AnalyzeTarget` | scripts/analyze-redecision-storm.js:143-188 | The verdict is a storm exactly when some partition storms over the concatenated logs; the rows are those of the partitions with a dispatch, each once, sorted, and the total counts every dispatch line |
| `LeadershipFlap.LeadersOf` | scripts/analyze-leadership-flap.js:206-209 | The leader map of a frame holds the last row of each partition |
| `LeadershipFlap.FrameFlips` | scripts/analyze-leadership-flap.js:210-225 | The flips of one frame against the map kept so far |
| `LeadershipFlap.ExtractFlips` | scripts/analyze-leadership-flap.js:201-230 | For every partition the extracted flips are its leader changes between neighbouring frames |
| `LeadershipFlap.ReplayMeaning` | scripts/analyze-leadership-flap.js:201-230 | Replaying the flips from the first leader reproduces the leader of every frame exactly when the partition never comes back from a gap with another leader |
| `LeadershipFlap.PresentEverywhere` | scripts/analyze-leadership-flap.js:201-230 | So it does for a partition that every frame lists |
| `LeadershipFlap.GapHidesChange` | scripts/analyze-leadership-flap.js:201-230 | A partition that misses one frame and comes back with another leader gives no flip, and the replay goes wrong |
| `LeadershipFlap.FlipsChain` | scripts/analyze-leadership-flap.js:201-230 | Where the replay is faithful each flip starts where the one before it ended |
| `LeadershipFlap.KeptIsLatest` | scripts/analyze-leadership-flap.js:140-152 | The row kept of an operation has the greatest update time of all its rows, the last of them where several do |
| `LeadershipFlap.CollectOperations` | scripts/analyze-leadership-flap.js:140-152 | One row per operation id, the kept one |
| `LeadershipFlap.ClassExactly` | scripts/analyze-leadership-flap.js:154-187 | Each of the five classes exactly, on the recorded operations: spontaneous when no replace or remove operation on the partition overlaps the widened interval, a replacement when one of type replace has the gainer as target, else a regain when one has the gainer as source, else a succession when one has the loser as source, else ambiguous |
| `LeadershipFlap.DrainGainExactly` | scripts/analyze-leadership-flap.js:246-253 | The gainer counts as a drain source exactly when an overlapping replace or remove operation, on any partition, has it as source |
| `LeadershipFlap.WideningRaises` | scripts/analyze-leadership-flap.js:154-187 | Widening the join window never lowers a flip in the order spontaneous, ambiguous, stepdown succession, counter-deliberate regain, replacement |
| `LeadershipFlap.RegainIsDrainGain` | scripts/analyze-leadership-flap.js:162-187 | A counter-deliberate regain by a node is a drain-source gain |
| `LeadershipFlap.WideningShiftsCounts` | scripts/analyze-leadership-flap.js:154-187 | Over a whole run widening never lowers the number of flips at or above any rank, nor that of drain gains |
| `LeadershipFlap.SummarizeCounts` | scripts/analyze-leadership-flap.js:232-237 | Per class the number of flips of the class; the classes add up to the flips |
| `LeadershipFlap.JudgeFlips` | scripts/analyze-leadership-flap.js:253-269 | Every flip with its class, drain-source and post-restart flags; regains by a node carry the drain flag |
| `LeadershipFlap.AnalyzeFlips` | scripts/analyze-leadership-flap.js:270-292 | Per class the counts of real flips, restart regains and drain gains, and class counts plus bootstrap fills equal all flips |
| `LeadershipFlap.AnalyzeRun` | scripts/analyze-leadership-flap.js:239-294 | From the frames of a run: flips and operations as above, the bootstrap fills, and the class counts of its flips, restart regains and drain gains |
| `LeadershipFlap.CombinedBalanced` | scripts/analyze-leadership-flap.js:303-317 | What adds up in every run adds up over all runs |
| `LeadershipFlap.CombineRuns` | scripts/analyze-leadership-flap.js:303-317 | The loop adds the runs up |
| `LeadershipFlap.BalancedCensus` | scripts/analyze-leadership-flap.js:321-334 | Undirected plus deliberate drain gains equal the total that decides the answer |
| `LeadershipFlap.BuildVerdict` | scripts/analyze-leadership-flap.js:296-334 | The totals balance, and the answer compares undirected with deliberate gains of that total |
| `LadderCensus.WalkNotes` | scripts/check-partition-class-owner.js:512-512 | The walk notes every node of the tree once, with its call, its other sites and the innermost or-expression around it |
| `LadderCensus.NearestIsInnermost` | scripts/check-partition-class-owner.js:479-482 | The nearest or-expression of a node is the longest proper prefix of its position that is one, and there is none exactly when no prefix is |
| `LadderCensus.EdgesArePositions` | scripts/check-partition-class-owner.js:512-591 | The edges stand one for one for the tree positions that call a predicate, each with the innermost or-expression around it; the other sites are added up over all positions |
| `LadderCensus.CollectVisits` | scripts/check-partition-class-owner.js:512-591 | The loop collects the edges and the number of other sites of a walk |
| `LadderCensus.GroupEdges` | scripts/check-partition-class-owner.js:534-539 | Every group is the set of edges under its or-expression, and every such expression has one group |
| `LadderCensus.LadderCollapses` | scripts/check-partition-class-owner.js:597-601 | A group with both kinds of call suppresses at least two edges |
| `LadderCensus.CollapseLadders` | scripts/check-partition-class-owner.js:593-619 | The suppressed edges and the ladders of the grouped expressions |
| `LadderCensus.SuppressedMember` | scripts/check-partition-class-owner.js:602-607 | An edge is suppressed exactly when it is of one of the two kinds and its or-expression is a ladder |
| `LadderCensus.OnlyOwnEdges` | scripts/check-partition-class-owner.js:616-617 | Of all suppressed edges, those under an expression are its own, so counting them by membership is exact |
| `LadderCensus.SuppressedSize` | scripts/check-partition-class-owner.js:616-623 | The suppressed edges are the collapsed edges plus one for each ladder |
| `LadderCensus.LadderMembers` | scripts/check-partition-class-owner.js:596-619 | Exactly one ladder site for each or-expression with both kinds, and none for others |
| `LadderCensus.LadderCount` | scripts/check-partition-class-owner.js:596-619 | There are as many ladder sites as or-expressions with both kinds |
| `LadderCensus.CollectFileCensus` | scripts/check-partition-class-owner.js:494-631 | The census of a file as a function of its tree: collapsed edges are the edges that a ladder stands for less the ladders, sites are predicate edges plus other sites minus collapsed edges, and every suppressed edge is represented by exactly one ladder |
| `LadderCensus.LadderPositions` | scripts/check-partition-class-owner.js:596-601 | An or-expression is a ladder exactly when a critical and a priority call have it as their innermost one |
| `LadderCensus.CensusByPositions` | scripts/check-partition-class-owner.js:593-631 | The census of a file on the positions of its tree: a site for every call and every other site, but one for all the critical and priority calls directly under a ladder |
| `LadderCensus.CollectCensus` | scripts/check-partition-class-owner.js:654-672 | Sites, predicate edges, other sites and collapsed edges of the whole census are the sums of those of the files, and the sites are accounted for |
| `DtProve.Worktree.constructor` | scripts/dt-prove.js:188-189 | The worktree starts as the snapshot |
| `DtProve.Worktree.Revert` | scripts/dt-prove.js:124-137 | The new tree and the saved entries as functions of the old tree |
| `DtProve.Worktree.Restore` | scripts/dt-prove.js:139-148 | The new tree as a function of the old tree and the saved entries |
| `DtProve.RevertedAt` | scripts/dt-prove.js:124-137 | Reverting takes listed paths to their state at the base and touches no other path |
| `DtProve.RestoredAt` | scripts/dt-prove.js:139-148 | Restoring writes the last content saved for a path, and nothing where none was saved |
| `DtProve.LastSaved` | scripts/dt-prove.js:124-137 | A path listed once saves the snapshot, a path listed again the bytes of the base |
| `DtProve.RoundTripAt` | scripts/dt-prove.js:124-148 | When a single path comes back |
| `DtProve.RestoreUndoesRevert` | scripts/dt-prove.js:124-148 | Revert and restore give back the exact tree if and only if every listed path that the base holds exists in the snapshot and is listed once or unchanged |
| `DtProve.DistinctExistingPaths` | scripts/dt-prove.js:124-148 | So they do for distinct existing paths |
| `DtProve.LostFiles` | scripts/dt-prove.js:139-148 | Otherwise the bytes of the base stay: for a file only the base has, and for one listed twice |
| `DtProve.ChangedMeaning` | scripts/dt-prove.js:150-159 | The byte comparison holds exactly when some listed path differs between snapshot and base |
| `DtProve.Prove` | scripts/dt-prove.js:188-212 | For a test that depends on the tree alone each of the five verdicts has its exact condition; where restoring undoes reverting the verdict is proven exactly when the test passes on the snapshot, some listed bytes change, and it fails on the reverted tree |
| `ClosureLedger.TrimMeaning` | scripts/closure-ledger-state.js:52-52 | Trimming takes away white space at both ends, all of it and nothing else |
| `ClosureLedger.TokenMeaning` | scripts/closure-ledger-state.js:52-53 | The token of a raw status: of the trimmed text without backticks and asterisks, the piece up to the first white space, long dash, parenthesis or comma, in lower case, with dashes for underscores, less the full stops and colons at its end |
| `ClosureLedger.LookupMeaning` | scripts/closure-ledger-state.js:46-54 | A token is looked up as open exactly for open, opened and reopened, as fix-landed exactly for fix-landed, fixed and fix, as unknown exactly for the empty token and unknown; every other word but constructor is its own status |
| `ClosureLedger.StatusMeaning` | scripts/closure-ledger-state.js:50-55 | The same of a raw status by its token, the empty text included |
| `ClosureLedger.NormalizedIsSettled` | scripts/closure-ledger-state.js:50-55 | A normalized status is a plain word: not empty, none of the four synonyms and not constructor, without capitals, marks, separators or underscores, and not ending in a full stop or colon |
| `ClosureLedger.NormalizeIdempotent` | scripts/closure-ledger-state.js:50-55 | Normalizing twice is normalizing once |
| `ClosureLedger.QuotedReadsBack` | scripts/closure-ledger-state.js:50-55 | A normalized word quoted in backticks normalizes to itself |
| `ClosureLedger.CaptureMeaning` | scripts/closure-ledger-state.js:64-67 | What is captured behind a label: the rest of the line from the first character that is not white space, even on a later line, or where only white space follows the last character that does not end a line |
| `ClosureLedger.StateMeaning` | scripts/closure-ledger-state.js:64-64 | The bold label matches at a position exactly when a dash, white space and the label in any case stand there, with the captured text behind them |
| `ClosureLedger.InlineMeaning` | scripts/closure-ledger-state.js:67-67 | The inline status matches exactly at the start of a line, with a dash, white space and the label in any case |
| `ClosureLedger.VerdictMeaning` | scripts/closure-ledger-state.js:69-69 | The gate verdict matches exactly at the start of a line with two hashes, white space and the words in any case, and yields the whole word behind the last long dash of the line that has one |
| `ClosureLedger.Find` | scripts/closure-ledger-state.js:63-71 | The leftmost match: a match, and none before it |
| `ClosureLedger.EarliestSignalDecides` | scripts/closure-ledger-state.js:63-76 | The bold label wins wherever it stands; otherwise the earliest of the inline and gate-verdict signals decides, whatever its kind |
| `ClosureLedger.BlockIsJoined` | scripts/closure-ledger-state.js:218-227 | The printed block is its eight lines, joined: the header, the quoted status of the row, its concern and invariant, and the last gate |
| `ClosureLedger.HeadingMeaning` | scripts/closure-ledger-state.js:229-229 | A line is the heading exactly when it starts with hashes, white space, the letters CL- and a digit |
| `ClosureLedger.MigrationOnlyInserts` | scripts/closure-ledger-state.js:218-232 | The migrated record has the lines of the block in one place and all old lines, unchanged and in order, around them |
| `ClosureLedger.MigratedHasHeader` | scripts/closure-ledger-state.js:210-232 | A migrated record has the header that makes the next run skip it |
| `ClosureLedger.LabelStaysInHead` | scripts/closure-ledger-state.js:64-64 | A status label does not reach over the line break behind the heading |
| `ClosureLedger.PrintedLineStands` | scripts/closure-ledger-state.js:222-222 | The printed status line is a label whose value is the quoted status |
| `ClosureLedger.MigratedIsNormalized` | scripts/closure-ledger-state.js:202-237 | Every migrated record is read from its state block |
| `ClosureLedger.PrintedStatusIsRead` | scripts/closure-ledger-state.js:202-237 | Without a label at or before the heading the parser reads what the migration printed |
| `ClosureLedger.NativeExactly` | scripts/closure-ledger-state.js:54-54 | The token constructor, and no other, finds an inherited function among the synonyms instead of a word |
| `ClosureLedger.NativeFunctionIsMisread` | scripts/closure-ledger-state.js:54-54 | The printed form of that function is read back as another status |
| `ClosureLedger.NoDriftAfterMigration` | scripts/closure-ledger-state.js:188-189 | Without an earlier label a migrated record agrees with the index if and only if the token of the index cell is not constructor |
| `ClosureLedger.EarlierLabelDecides` | scripts/closure-ledger-state.js:63-65 | A label at or before the heading keeps deciding the status, or, left blank, makes the parser read the header of the block |
| `ClosureLedger.BlankLabelMisread` | scripts/closure-ledger-state.js:220-220 | That header line is read as the status ### |
| `ClosureLedger.Ledger.constructor` | scripts/closure-ledger-state.js:205-208 | A ledger of the given records |
| `ClosureLedger.Ledger.MigrateState` | scripts/closure-ledger-state.js:202-237 | The records after the run and the three lists, as functions of the records before; no other record changes |
| `ClosureLedger.SecondFate` | scripts/closure-ledger-state.js:209-216 | A migrated record is skipped by the next run, the others meet the same fate again |
| `ClosureLedger.SecondRunIsIdle` | scripts/closure-ledger-state.js:199-201 | A second run migrates nothing and changes nothing |
| `ClosureLedger.CleanExactly` | scripts/closure-ledger-state.js:153-157 | After a run a record is read from its state block and agrees with its row exactly when a condition on the record and the row before the run holds |
| `ClosureLedger.RowWithoutRecord` | scripts/closure-ledger-state.js:173-195 | An index row without a record is an entry that no run normalizes |
| `ClosureLedger.LedgerCleanExactly` | scripts/closure-ledger-state.js:153-157 | After a run over all records every entry of the joined view is normalized and free of drift if and only if every row has a record and every record meets its condition; the comment in the source promises it outright |
| `ClosureLedger.CleanShowsIndex` | scripts/closure-ledger-state.js:177-193 | A clean entry whose row has a known status shows that status, and is active exactly when it is not a settled one |
| `ClosureLedger.SettledMeaning` | scripts/closure-ledger-state.js:41-55 | A raw status is settled exactly when its token is guarded, closed, parked, fix-landed, fixed or fix |
| `ClosureLedger.EntryExactly` | scripts/closure-ledger-state.js:173-190 | The statuses of an entry by the texts they are read from: the status of the record where its token says anything and else that of the row, and a drift exactly when both tokens say something and the statuses differ |
| `ClosureLedger.ActiveExactly` | scripts/closure-ledger-state.js:173-193 | An entry with a read record is active by the token of the text its status is read from, and by the token of its row where the record says nothing |
| `ClosureLedger.ActiveUnread` | scripts/closure-ledger-state.js:173-193 | A record without any status signal, or no record, leaves the entry active exactly when it has no row or an unsettled one |
| `DeadClaims.ReadStaticChainPrefix` | scripts/check-guideline-decision-boundaries.js:912-919 | The loop yields the dotted name of the longest static prefix |
| `DeadClaims.ChainCountsOnce` | scripts/check-guideline-decision-boundaries.js:892-930 | A member chain counts once exactly when it is outermost and has a static part; of the path references of its walk at most one does not lie beside its spine |
| `DeadClaims.TargetNameMeaning` | scripts/check-guideline-decision-boundaries.js:119-137 | The dotted name of a node joins the names along a chain of static members, and there is none exactly where some member of the chain is not static or has an empty name |
| `DeadClaims.ChainPrefixMeaning` | scripts/check-guideline-decision-boundaries.js:912-919 | A chain reads through its longest static part: what is longer has no static name |
| `DeadClaims.ReadsMeaning` | scripts/check-guideline-decision-boundaries.js:892-930 | A node is a reference to a dotted name exactly when it is an outermost chain whose longest static part has that name, or an identifier that is not part of a chain, a key, the name of a declarator or in a specifier |
| `DeadClaims.UsesMeaning` | scripts/check-guideline-decision-boundaries.js:932-942 | A node uses a leaf exactly when it is a string literal with that text, an access with that property, or a pattern property with that written-out key |
| `DeadClaims.HitMeaning` | scripts/check-guideline-decision-boundaries.js:944-966 | A reference hits a claim exactly when its segments start with the claimed ones, and lets it escape exactly when they are a proper part of them from the start |
| `DeadClaims.TallyByPositions` | scripts/check-guideline-decision-boundaries.js:986-1002 | The tally of a tree counts the positions, each once, that read the claimed path or more and those that use its leaf, and notes whether any reads only a part |
| `DeadClaims.RefutedExactly` | scripts/check-guideline-decision-boundaries.js:971-976 | A claim is refuted exactly by a read of its path, or of more, at any depth of any file, or by a read of a part of it together with a use of its leaf |
| `DeadClaims.UseRefutes` | scripts/check-guideline-decision-boundaries.js:876-882 | Wherever a file holds a chain whose static part is the claimed path or goes on from it, inside a longer chain or not, or a bare name that is, the claim is refuted, unless the bare name is an index, a key, a declaration or in a specifier; the comment in the source promises that no live bound passes as dead |
| `DeadClaims.NameRefutedExactly` | scripts/check-guideline-decision-boundaries.js:896-910 | A claim on a bare name is refuted exactly by a use of the name, anywhere in the files, that is none of these |
| `DeadClaims.IndexIsMissed` | scripts/check-guideline-decision-boundaries.js:898-910 | A name that is used only as an index, or only as a computed key, passes as dead |
| `DeadClaims.DeclaringNodes` | scripts/check-guideline-decision-boundaries.js:898-910 | Wherever they stand, a declarator with its name, and a property with its written-out key outside a pattern, report nothing themselves but the text of a quoted key as a leaf; everything else they report comes from the initializer or the value |
| `DeadClaims.DeclarationCounts` | scripts/check-guideline-decision-boundaries.js:971-972 | For every tree, at any depth and below any construct: the tally of its walk is that of the walk without its declaring nodes plus one leaf reference for each quoted declared key that is the leaf; declaring adds no path reference and no escape. The comment in the source promises that a declaration is no leaf occurrence either |
| `DeadClaims.QuotedKeyRefutesItself` | scripts/check-guideline-decision-boundaries.js:932-935 | A claim on a member of an escaped constant that nothing else uses is refuted by its own declaration exactly when the key is quoted there |
| `DeadClaims.TallyCounts` | scripts/check-guideline-decision-boundaries.js:958-969 | A tally is the number of path hits and leaf hits, and whether a prefix escaped |
| `DeadClaims.FileOrderIrrelevant` | scripts/check-guideline-decision-boundaries.js:986-1000 | The order of the files does not matter |
| `DeadClaims.MoreFilesRefuteMore` | scripts/check-guideline-decision-boundaries.js:973-976 | A further file never clears a refuted claim |
| `DeadClaims.WalkMade` | scripts/check-guideline-decision-boundaries.js:923-942 | Every path or leaf a walk reports is put together from names and literals of the tree |
| `DeadClaims.HitStartsWithNeedle` | scripts/check-guideline-decision-boundaries.js:988-989 | Whatever counts for a claim holds a word that starts with one of the sought names |
| `DeadClaims.SkippingIsSafe` | scripts/check-guideline-decision-boundaries.js:992-994 | Leaving out a file whose text holds nothing sought changes no tally, if every sought name that a word of its tree starts with stands in its text |
| `DeadClaims.TallyNode` | scripts/check-guideline-decision-boundaries.js:958-969 | One visit entered into every tally |
| `DeadClaims.TallyFile` | scripts/check-guideline-decision-boundaries.js:995-999 | The walk over one file enters all its visits into every tally |
| `DeadClaims.TallyDeadClaimReferences` | scripts/check-guideline-decision-boundaries.js:986-1002 | The tallies over the files that hold something sought |
| `DeadClaims.FastScanIsExact` | scripts/check-guideline-decision-boundaries.js:986-1002 | When all files spell out the sought names that their words start with, the tallies are those of scanning every file |
| `DeadClaims.UnchangedExactly` | scripts/check-guideline-decision-boundaries.js:992-994 | A file leaves a fresh tally unchanged exactly when none of its visits hits the claim |
| `DeadClaims.FastScanExactly` | scripts/check-guideline-decision-boundaries.js:992-994 | Whatever the files look like, the fast scan gives the tally of the full one exactly when no skipped file holds a path or leaf hit, nor the only escape |
| `DeadClaims.FastScanNeverOverRefutes` | scripts/check-guideline-decision-boundaries.js:992-994 | In any case the fast scan counts no more than the full one and refutes no claim that the full one would not |
| `DeadClaims.EscapedNameIsMissed` | scripts/check-guideline-decision-boundaries.js:992-994 | A name written with an escape sequence is missed: the full scan refutes the claim and the fast one does not |
| `WarningStrikes.GroupRunsByScenario` | scripts/analyze-soft-warning-strikes.js:90-108 | Each timeline holds the timestamps of its scenario once, with the codes of all copies merged |
| `WarningStrikes.StruckCodesMeaning` | scripts/analyze-soft-warning-strikes.js:112-132 | The codes found on a timeline are those in the merged sets of its two greatest timestamps |
| `WarningStrikes.DetectStrikes` | scripts/analyze-soft-warning-strikes.js:112-132 | A strike is reported exactly when its code is in the merged sets of the two greatest timestamps of its scenario |
| `WarningStrikes.SetOfRunsDecides` | scripts/analyze-soft-warning-strikes.js:90-132 | The strikes depend on the set of runs only: order and repeated copies change nothing |
| `WarningStrikes.FilteredStrikes` | scripts/analyze-soft-warning-strikes.js:194-203 | Filtering the runs by scenario first is filtering the strikes afterwards |
| `WarningStrikes.AnalyzeSoftWarningStrikes` | scripts/analyze-soft-warning-strikes.js:180-204 | With or without a scenario filter, exactly the strikes of the corpus that pass it |
| `HybridClock.Clock.constructor` | src/hlc/hlc-clock-service.js:30-46 | A clock starts at its wall clock with counter zero |
| `HybridClock.Clock.Now` | src/hlc/hlc-clock-service.js:63-83 | The new stamp is after the old clock, not behind the wall clock, with its counter in range |
| `HybridClock.Clock.Update` | src/hlc/hlc-clock-service.js:90-143 | The new stamp is after the old clock and after the remote stamp, not behind the wall clock; its counter stays in range for any remote counter that is not negative |
| `HybridClock.TickAdvances` | src/hlc/hlc-clock-service.js:63-83 | A local step moves the clock strictly forward and keeps the counter in range, also when it overflows |
| `HybridClock.MergeAdvances` | src/hlc/hlc-clock-service.js:117-140 | A merge moves past both the clock and the remote stamp, whatever the remote counter |
| `HybridClock.Causality` | src/hlc/hlc-clock-service.js:63-143 | In every run of any number of clocks, with restarts that do not fall behind, an event that happened before another has the smaller stamp; the sending of a message and the commit that a restart merges count as causes |
| `HybridClock.StampsDistinct` | src/hlc/hlc-clock-service.js:63-143 | Two events of such a run carry different timestamps, unless they were stamped by two clocks with one node identity |
| `HybridClock.SharedIdentityCollides` | src/query/query-executor-base.js:48-50 | Two clocks with one node identity give one timestamp to two events once both read the same physical time ahead of themselves |
| `HybridClock.DistinctExactly` | src/lagrange-runtime-startup.js:724-727 | The timestamps of all runs of a set of clocks are distinct if and only if no two of the clocks carry one node identity |
| `HybridClock.TwoClocksOneIdentity` | src/cdc/cdc-integration-service.js:79-81 | The same with two clock objects: their stamps at one physical time are equal |
| `HybridClock.WarmFromWitnesses` | src/partition/partition-hlc-warmup.js:34-46 | The warm-up merges the greatest readable stamp of the committed commands and the compacted snapshot, after which the clock is past every one of them; without any it leaves the clock alone |
| `HybridClock.WarmBootPasses` | src/partition/partition-hlc-warmup.js:34-46 | A restarted clock is past the stamp it merged before its first event |
| `HybridClock.NeverFallsBack` | src/hlc/hlc-clock-service.js:63-143 | A clock that is past a reading stays past it through all restarts that do not start behind it |
| `HybridClock.WitnessedStaysBehind` | src/partition/partition-hlc-warmup.js:3-9 | After a restart that merges a stamp not behind a reading, and later ones that do, no stamp of the clock comes back to the reading, whatever the physical clock |
| `HybridClock.CommittedNeverRepeated` | src/partition/partition-service-raft-init-base.js:429-433 | When every restart merges the greatest committed stamp, a restarted clock never issues a stamp at or below one committed before the restart |
| `HybridClock.RankOrder` | src/hlc/hlc-clock-service.js:74-79 | The order of readings is the order of their ranks, physical times the counter range plus counter |
| `HybridClock.RunAheadBound` | src/hlc/hlc-clock-service.js:63-143 | A stamp runs ahead of the fastest wall clock by at most one millisecond for every full range of the smallest counter limit that the moves of the clocks, events and warm-ups, have used up, whatever the limits and restarts |
| `HybridClock.MovesAreEvents` | src/hlc/hlc-clock-service.js:63-143 | Without warm-ups the moves are the events, so the bound is one millisecond for every full range of events |
| `HybridClock.EqualLimitsBound` | src/hlc/hlc-clock-service.js:63-143 | For a clock with the smallest limit the bound is one on the rank, counter included |
| `HybridClock.StampInRange` | src/hlc/hlc-clock-service.js:74-79 | In every run the counters stay within the limits of their clocks |
| `HybridClock.FrozenClock` | src/hlc/hlc-clock-service.js:70-80 | The bound is tight: a single clock whose physical clock stands still reaches it |
| `HybridClock.NeverRestarted` | src/hlc/hlc-clock-service.js:30-37 | Runs without restarts have no restart that falls behind |
| `HybridClock.RestartExactly` | src/hlc/hlc-clock-service.js:30-37 | A run can go on, with a restart of a clock and any events after it, to a second event of that clock with the stamp of an earlier one exactly when the restarted clock, after whatever it merges, is behind that stamp |
| `HybridClock.RunExtends` | src/hlc/hlc-clock-service.js:63-143 | A run goes on with any local event, any receipt of a message sent in it, and any restart |
| `HybridClock.RunExists` | src/hlc/hlc-clock-service.js:63-143 | Every sequence of steps that delivers only sent messages has a run |
| `HybridClock.RoundTrip` | src/hlc/hlc-timestamp.js:31-59 | Printing and parsing a timestamp gives it back exactly when neither of its numbers is negative |
| `HybridClock.ParsedIsUnsigned` | src/hlc/hlc-timestamp.js:41-59 | No text reads as a timestamp with a negative number |
| `Text.SignedReads` | src/hlc/hlc-timestamp.js:50-51 | White space, a sign or none, digits and then no digit read as the signed number |
| `Text.PrintReads` | src/hlc/hlc-timestamp.js:50-51 | A printed integer reads back, negative ones included, so only the separator of the timestamp form stands in the way of its round trip |

## Left out

- LinearFit.Compute: works over exact reals; rounding of the results and floating-point error are not modelled.
- DecisionTables.ValidateDecisionTable: takes a well-typed table; the JSON shape errors, the schema, id and invariant fields (lines 84-110 and 241-262) and the wording of messages are not modelled.
- Statecharts.ValidateStatechart: takes a well-typed chart whose texts are concrete, so neither blank nor a placeholder; the schema, evidence, reason and invariant fields are not modelled.
- OwnerTraces.ValidateTraceSuite: takes well-typed traces; the schema, id, owner, boundary, statement, actor and action fields are taken as present, and the violations are a set where the source sorts them.
- MonotoneDrain.ParseOpLifetimes: a line is already parsed to an operation id, a time, a creation flag and a partition.
- HotPathBaseline.CheckReport: the per-file summary of lines 237-251 and the scan that finds the violations are not modelled.
- RedecisionStorm.ClassifyAll: partitions come in any order, where the source follows the order of insertion before it sorts.
- LeadershipFlap.AnalyzeRun: the restart boundaries of nodes are a parameter; driver operation ids and the nearest CPU sample are not modelled.
- LadderCensus.CollectFileCensus: which calls are predicate edges and which nodes are other sites is given; alias resolution, the owner module and the order of the sites are not modelled, nor is the running sum of lines 608-609, which line 620 overwrites.
- DtProve.Prove: the test is a function of the tree; the artifact, the ledger entry and directories among the paths are not modelled, and paths are in resolved form, so that two spellings of one file are the same path listed twice.
- ClosureLedger.NormalizeIdempotent: case folding is modelled on ASCII letters only.
- ClosureLedger.Ledger.MigrateState: the last gate of a record is a parameter function of its text, and the index is a map of rows; the table pattern of lines 124-141 is not modelled.
- DeadClaims.TallyDeadClaimReferences: the parser and the tree walker are given by the datatype; a shorthand property is two nodes.
- WarningStrikes.AnalyzeSoftWarningStrikes: timestamps are numbers with their order, where the source compares texts; the report files and the order of the strikes are not modelled.
- HybridClock.StampsDistinct: compares physical part, counter and node identity for equality; the locale order of identities is not modelled.
- HybridClock.WarmFromWitnesses: takes the stamps of the committed commands as already read; among stamps with equal readings it does not follow the order of identities, which does not affect the merge.
- HybridClock.Clock.Update: the drift warning and its rate limit are not modelled.
- The database runtime other than the clock (consensus, rebalancer, query engine): not modelled.
- Ratchet scripts with fixed thresholds, naming and documentation audits: would only add single-branch facts.
- Command lines, reading and writing files, git, compression and rendering of reports: not modelled.
