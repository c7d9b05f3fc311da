# Verified model of the Atlas native client

The Atlas native client records measurements, consolidates them into reporting windows, and evaluates the
subscriptions a server sends it: small stack programs that select measurements by tag queries, group them and
aggregate them. This project models the parts of that client that carry its correctness and proves what they promise.

- `Query.dfy`, `Dnf.dfy`, `QueryIndex.dfy`: query trees, their equality and hash, the simplifying constructors, the
  splitting into clauses, and the query index. The index is proved to return exactly the values of the entries whose
  query matches, for every entry list, every tag map and every iteration order of tags, filters and hash tables, also
  when the memo of built nodes misses.
- `XxHash.dfy`, `XxHashWords.dfy`, `XxHashAnswers.dfy`: the streaming state machine of the two hashes, proved equal to the one-shot hash for
  every chunking. The buffering is proved once for any rounds and word type, and then instantiated with the real
  constants, which published hashes pin down.
- `BucketTable.dfy`, `Percentiles.dfy`: the generated bucket table with its 64-bit overflow, the lookup into it, the
  interpolated percentiles, and their error bound against the nearest-rank percentile of the recorded amounts.
- `StepNumber.dfy`, `StepNumberConcurrent.dfy`: lazily rolled windows, proved against the timestamped history of
  operations for any clock, and then with each atomic access a step of its own, for every interleaving.
- `Consolidation.dfy`, `Schedule.dfy`, `Statistics.dfy`, `Expiry.dfy`, `Runs.dfy`: the consolidation registry with its
  shifted clock, what it reports on an aligned schedule of updates and measurements, its expiry after two silent
  measurements, and what it holds, reports and drops over any run at all, in terms of the calls made.
- `Tokenizer.dfy`, `Interpreter.dfy`, `Programs.dfy`: tokenizer, stack machine and words; the postfix form of a query
  tree is proved to read back as a query with the same meaning.
- `Aggregation.dfy`, `Grouping.dfy`, `Evaluator.dfy`: aggregation and grouping of tagged values, and the way from the
  text of an expression to its results: what the results of a grouping add up to, and that their tags are distinct.
- `Collections.dfy`, `Doubles.dfy`, `Arithmetic.dfy`: shared helpers.

Code that works by changing state is a class or a loop proved against a function on values; the properties are then
proved about that function. Conventions: an interned string is its text, so two interned strings are the same object
exactly when their texts are equal. A regular expression is an arbitrary predicate of pattern, flag and value. A double
is an exact real or not-a-number. Iteration over a hash table takes its elements in an arbitrary order.

Places where the code does less than one might read into it, each with the exact condition under which it does what it
should:

- `query::dnf_list` is described as converting to a list of clauses to be OR-ed, which it does, but it strips a double
  negation without splitting what is under it, so the clauses need not be conjunctions of literals:
  `Dnf.CleanIffConjunctions`.
- The bucket lookup finds a bucket whose value exceeds the amount, but not always the first such: amounts up to three
  below a power of four, and 15, go one further: `BucketTable.OvershootsIff`.
- The interpolated percentile is near the true one, whatever was recorded with it, exactly for amounts outside the last
  bucket: `Percentiles.AlwaysNearIff`.
- A counter's reports add up to its updates, none lost, exactly when no window's updates add up to less than nothing:
  `Schedule.CounterConservationIff`.
- A percentile request at p = 0 has an answer exactly when the first bucket is not empty: `Percentiles.AnswerIff`.
- Off the aligned schedule a measurement can drop a pending update, report one twice, or report a step other than the
  one it found a value in: `Runs.RemovalDiscardsIff`, `Runs.ReportedTwiceIff`, `Runs.TornIff`.

## Model

| member | source | states |
|---|---|---|
| Collections.VectorCrossProduct | util/collections.h:29-40 | the nested loop yields the row-major cross product |
| Collections.CrossProductElements | util/collections.h:29-40 | its elements are exactly the combinations, as many as the product of the lengths |
| Queries.ComparisonsSelect | interpreter/query.cc:51-82 | `:eq` matches iff the key has that value, `:lt` iff its value is smaller in dictionary order (at some place it ends or has the smaller character, and up to there both agree), `:gt` the other way round, `:le` and `:ge` iff either |
| Queries.LeavesSelect | interpreter/query.cc:18-25 | `:has`, `:in` and `:re` match iff the key has some value, one of the list, one the pattern accepts |
| Queries.EqualsReflexive | interpreter/query.h:66-71 | every query equals itself |
| Queries.EqualsSymmetric | interpreter/query.h:270-275 | `Equals` is symmetric, swapped operands of `Or` and `And` included |
| Queries.EqualsTransitive | interpreter/query.h:299-305 | `Equals` is transitive across any mixture of swaps, so it is an equivalence |
| Queries.EqualsCongruent | interpreter/query.h:270-305 | operands may be swapped and replaced by equal ones at every level; different connectives are never equal, and leaves only to themselves |
| Queries.EqualsHash | interpreter/query.h:253-279 | equal queries have equal hashes under 64-bit wrap-around, whatever the string hashes are |
| Queries.RelopKeySeparates | interpreter/query.h:106-111 | with equal values, equal hashes of comparisons mean equal hashes of their keys |
| Queries.RelopValueSeparates | interpreter/query.h:106-111 | with equal keys, of their values |
| Queries.PatternSeparates | interpreter/query.h:145-150 | with equal keys, equal hashes of regex queries mean equal hashes of their patterns |
| Queries.NotSeparates | interpreter/query.h:253 | the operand enters the hash of a negation, under wrap-around |
| Queries.OrSeparates | interpreter/query.h:277-279 | each operand enters the hash of a disjunction |
| Queries.AndSeparates | interpreter/query.h:307-309 | each operand enters the hash of a conjunction |
| Queries.EqualsMatches | interpreter/query.h:403-409 | equal queries match the same tags, so a hashed container may keep either |
| Queries.SmartConstructors | interpreter/query.cc:317-374 | `not_q`, `or_q`, `and_q` mean negation, disjunction, conjunction on all tags |
| Queries.SmartOperands | interpreter/query.cc:341-373 | what they build has the given operands, neither constant nor equal, and an expensive one is never put before a cheap one |
| Queries.AndQueriesMatches | interpreter/query.cc:376-381 | `and_queries` matches iff every query of the list does, the empty list always |
| Queries.QueryTagsHold | interpreter/query.cc:293-298 | every tag a query reports is carried by whatever it matches |
| QueryIndex.QueryTagsExactly | interpreter/query.cc:293-298 | a query reports a tag for exactly the keys of its `:eq` conjuncts, with the value of one of them |
| Dnf.MeasureNegated | interpreter/query.cc:399-412 | each query `dnf_list` recurses into under a negation is smaller than the negation: it terminates |
| Dnf.DnfListMatches | interpreter/query.cc:385-421 | the clauses, OR-ed, match exactly the tags the query matches, nested negations included |
| Dnf.DnfListNonempty | interpreter/query.cc:385-421 | there is always at least one clause |
| Dnf.CleanIffConjunctions | interpreter/query.cc:385-421 | every clause is a conjunction of literals iff a syntactic check on the query passes |
| Dnf.FullDnf | interpreter/query.cc:399-416 | with no negation beneath another, the clauses are a full disjunctive normal form |
| Dnf.NestedNotEscapes | interpreter/query.cc:411-412 | a doubly negated disjunction comes back as one unsplit clause |
| QueryIndex.SplitMatches | interpreter/query_index.h:362-386 | some clause of `split` matches iff the query does, for the empty `:in` and for five values or more too |
| QueryIndex.SplitExpands | interpreter/query_index.h:370-381 | an `:in` of five values or more is left whole, and of those with fewer none is left |
| QueryIndex.ConjunctionListMatches | interpreter/query_index.h:389-399 | the query matches iff all its conjuncts do |
| QueryIndex.Distinct | interpreter/query_index.h:406 | the hash set keeps one representative of each class of equal queries |
| QueryIndex.Annotate | interpreter/query_index.h:404-425 | the entry matches iff all extracted `:eq` filters and the rebuilt remainder do, in any visiting order; a remainder of `:true` when there is nothing else |
| QueryIndex.ToQueryAnnotatedList | interpreter/query_index.h:31-43 | one pair per filter: the filter, and the entry without it |
| QueryIndex.GroupByFilter | interpreter/query_index.h:310-316 | each filter's group is exactly the entries that have it, without it, in order |
| QueryIndex.MaxFiltersStep | interpreter/query_index.h:318-320 | following a filter shrinks the largest filter set, so `create_impl` terminates |
| QueryIndex.RepresentsEqual | interpreter/query_index.h:129-142 | a node may be shared by any list equal to the one it was built for |
| QueryIndex.IndexMemo.Find | interpreter/query_index.h:295-298 | a memo hit represents the list asked for; a lookup may miss |
| QueryIndex.IndexMemo.Insert | interpreter/query_index.h:327 | inserting keeps every stored node a trie for its key; a key found present is not replaced |
| QueryIndex.CreateImpl | interpreter/query_index.h:293-329 | the node built is a trie for its list, and every memoised node stays one |
| QueryIndex.SlowMatchesLeaf | interpreter/query_index.h:331-339 | a node's own entries yield exactly the values of filterless matching entries |
| QueryIndex.MatchingEntriesCorrect | interpreter/query_index.h:341-359 | a node yields exactly the values of the entries whose filters are among the remaining tag queries and whose remainder matches, for any order and repetition |
| QueryIndex.Create | interpreter/query_index.h:164-178 | the index answers every tag map, in any tag order, with exactly the matching entries' values |
| QueryIndex.CreateAndMatch | interpreter/query_index.h:190-203 | building and querying gives the set of values of the matching entries; `Matches` iff some entry matches |
| XxHash.SplitAnywhere | util/xxhash.c:770-803 | consuming stripes and keeping the leftover may be interrupted at any byte |
| XxHash.StripeLoop | util/xxhash.c:787-792 | the do/while loop consumes all whole stripes and stops at the leftover |
| XxHash.TailLoop | util/xxhash.c:841-858 | the three tail loops mix the remaining bytes as words, a half word and bytes |
| XxHash.OneShot | util/xxhash.c:626-692 | the one-shot loops compute the reference hash of the whole input |
| XxHash.LanesAreFolds | util/xxhash.c:647-652 | for every input, lane j is the fold of the round over the words j, j + 4, j + 8 and so on, from its own start |
| XxHash.Buffer.Feed | util/xxhash.c:764-803 | after an update, lanes and memory are the stripes and leftover of all bytes fed so far |
| XxHash.State64.Reset | util/xxhash.c:738-748 | a reset state has seen no bytes |
| XxHash.State64.Update | util/xxhash.c:750-806 | an update appends its input to the bytes seen; a null input is an error and changes nothing |
| XxHash.State64.Digest | util/xxhash.c:818-867 | the digest is the one-shot hash of all bytes seen, up to 2^64 bytes and beyond; only when the length has wrapped to less than a stripe is it the short-input hash with lane 3 for the seed |
| XxHash.StickyLength | util/xxhash.c:390-391 | the 32-bit length and the sticky bit decide correctly whether a stripe was ever complete, past any number of wraps |
| XxHash.State32.Update | util/xxhash.c:378-437 | as above, for the 32-bit hash, with the wrapped length and the sticky bit |
| XxHash.State32.Digest | util/xxhash.c:451-484 | the 32-bit digest is the one-shot hash for inputs of any length |
| XxHash.Stream64 | util/xxhash.h:196-214 | reset, any chunks, digest: equal to the hash of their concatenation |
| XxHash.Stream32 | util/xxhash.h:196-214 | the same for the 32-bit hash, with no bound on the length |
| XxHashWords.HashBothWays64 | util/xxhash.c:604-692 | with the real primes and rounds, streaming and one-shot XXH64 agree |
| XxHashWords.HashBothWays32 | util/xxhash.c:249-317 | with the real primes and rounds, streaming and one-shot XXH32 agree |
| XxHashWords.EmptyInput | util/xxhash.c:660-692 | the published hashes of the empty input, by both algorithms and with two seeds |
| XxHashWords.SeededLanes | util/xxhash.c:642-645 | where the four lanes start from a given seed |
| XxHashAnswers.Ishmael64 | util/xxhash.c:604-692 | the published XXH64 of 63 bytes of text, through a stripe, words, a half word and bytes |
| XxHashAnswers.Ishmael32 | util/xxhash.c:249-317 | the published XXH32 of the same text, through three stripes, words and bytes |
| XxHashAnswers.Alphabet64 | util/xxhash.c:666-671 | the published XXH64 of "abcdefgh", through one word |
| XxHashAnswers.A64 | util/xxhash.c:679-683 | the published XXH64 of "a", through one byte |
| XxHashAnswers.Abc32 | util/xxhash.c:304-308 | the published XXH32 of "abc", through three bytes |
| BucketTable.Generate | gen_perc_bucket_values.cc:12-32 | the generator's loops, with int64 wrap-around at exponent 62, yield 276 values given by a closed form and the index of each power of four |
| BucketTable.ValueIncreasing | gen_perc_bucket_values.cc:12-32 | the table climbs strictly |
| BucketTable.TableValues | gen_perc_bucket_values.cc:13-31 | what each value is: from each power of four on in steps of a third of it, 11 from 4 and 9 from each other |
| BucketTable.QuotientIsDivision | meter/percentile_buckets.cc:30 | repeated subtraction, which gives the bucket offset, equals integer division |
| BucketTable.PowerBelowIs | meter/percentile_buckets.cc:19-29 | the bit shifts find the power of four at or below the value |
| BucketTable.IndexOfBracket | meter/percentile_buckets.cc:12-33 | the value is below its bucket, at most 3 under the previous one, and its bucket is within a third plus 4 |
| BucketTable.OvershootsIff | meter/percentile_buckets.cc:28-32 | a value lands above the bucket it belongs to iff it is 15 or at most 3 below a power of four from 64 up to 4^30 |
| BucketTable.IndexOfMonotone | meter/percentile_buckets.cc:12-33 | the index never decreases as the value grows, over all int64 |
| Percentiles.Percentiles | meter/percentile_buckets.cc:48-87 | the nested loops answer each sorted request by interpolating in the first bucket that reaches it |
| Percentiles.AnswerIff | meter/percentile_buckets.cc:63-71 | for every legal request there is an answer iff something was counted and, for p = 0, the first bucket is not empty; otherwise not-a-number |
| Percentiles.ZeroPercent | meter/percentile_buckets.cc:67-71 | at p = 0 the answer is 0, or 0/0 when the first bucket is empty |
| Percentiles.PercentileFromCounts | meter/percentile_buckets.cc:89-94 | the same for one request |
| Percentiles.Proportion | meter/percentile_buckets.cc:64-70 | the answer divides its bucket's range in the proportion in which the request divides the counts of the bucket |
| Percentiles.WholeBucket | meter/percentile_buckets.cc:64-70 | a request equal to the share of the counts through a bucket is answered by that bucket's value |
| Percentiles.NearestRankExists | meter/percentile_buckets.cc:35-47 | every non-empty history has a nearest-rank percentile |
| Percentiles.NearestRankUnique | meter/percentile_buckets.cc:35-47 | and only one |
| Percentiles.RankBucket | meter/percentile_buckets.cc:63-79 | the loop stops in the bucket of the nearest-rank amount |
| Percentiles.PercentileInBucket | meter/percentile_buckets.cc:67-71 | interpolation stays above the previous bucket's value and at most the bucket's own |
| Percentiles.ErrorBound | meter/percentile_buckets.cc:48-94 | outside the last bucket the answer is within x/3 + 4 of the true percentile x |
| Percentiles.AlwaysNearIff | meter/percentile_buckets.cc:32-78 | the answer is within x/3 + 4 of the true percentile x in every history and for every p exactly when x is not in the last bucket |
| Percentiles.PercentileDistributionSummary.CounterFor | meter/percentile_dist_summary.cc:30-39 | filling the array lazily changes no count and no other slot |
| Percentiles.PercentileDistributionSummary.Record | meter/percentile_dist_summary.cc:20-23 | each counter holds the number of recorded amounts of its bucket |
| Percentiles.PercentileDistributionSummary.Percentile | meter/percentile_dist_summary.cc:41-47 | for every p from 0 to 100 there is an answer iff something was recorded and, for p = 0, an amount at or below 0; the error bound, for the whole recorded history |
| StepNumbers.RunRefinesHistory | meter/stepnumber.h:81-93 | for any clock and any gaps, `current_` is the fold of the operations recorded in the step in force and `previous_` of those in the step before |
| StepNumbers.MonotoneReadings | meter/stepnumber.h:81-94 | under a clock that never goes back, the step in force is the one the clock shows |
| StepNumbers.ReadsUnderMonotoneClock | meter/stepnumber.h:43-52 | then a read at `now` sees exactly the operations of step now/step, or of the one before |
| StepNumbers.StepNumber.constructor | meter/stepnumber.h:34-40 | starts with an empty history in the clock's step |
| StepNumbers.StepNumber.RollCount | meter/stepnumber.h:81-93 | rolls the fields as the value-level roll does |
| StepNumbers.StepNumber.Poll | meter/stepnumber.h:43-46 | returns the fold of the last completed step's operations |
| StepNumbers.StepNumber.Current | meter/stepnumber.h:49-52 | returns the fold of the step in force |
| StepNumbers.StepNumber.Add | meter/stepnumber.h:55-58 | appends an addition to the history |
| StepNumbers.StepNumber.UpdateCurrentMax | meter/stepnumber.h:61-69 | appends a maximum to the history, however often the weak exchange fails spuriously |
| StepNumberConcurrent.AtMostOneRollPerStep | meter/stepnumber.h:81-93 | in every interleaving the successful exchanges of `last_init_pos_` climb strictly: one roll per step number |
| StepNumberConcurrent.Conservation | meter/stepnumber.h:81-106 | in every interleaving `current_` plus what was taken out balances the refills, completed adds and lifts by maxima |
| StepNumberConcurrent.AddsAreConserved | meter/stepnumber.h:96-106 | for a counter, the completed adds equal `current_` plus everything exchanged out |
| StepNumberConcurrent.ReturnedMaxWasReached | meter/stepnumber.h:61-69 | a returned `UpdateCurrentMax(v)` saw `current_` at v or above at some instant of the call |
| StepNumberConcurrent.SoloCallIsSequential | meter/stepnumber.h:42-106 | an undisturbed call returns, having done exactly what the sequential object does, and a read returns what it would |
| Consolidation.WrappedClock.SetOffset | meter/clock.h:24-38 | readings are from then on the wrapped clock's, which is untouched, plus the offset |
| Consolidation.ConsolidationRegistry.UpdateFrom | meter/consolidation_registry.cc:39-68 | every update is folded in at the clock one update step back, and the offset is put back to 0 |
| Consolidation.ConsolidationRegistry.Visit | meter/consolidation_registry.cc:77-92 | one entry is asked whether it has a value and then for it, at two readings of a running clock: its value, mark and expiry |
| Consolidation.ConsolidationRegistry.Measurements | meter/consolidation_registry.cc:70-99 | each entry with a value is reported once, silent ones are marked, twice-silent ones removed, in any map order and whatever the clock shows for each entry |
| Consolidation.OneStepIsOneReading | meter/consolidation_registry.cc:77-92 | as long as no step turns during a measurement, it is as good as instantaneous |
| Schedule.RunInvariant | meter/consolidation_registry.cc:39-68 | with one update in each update step, at any time in it, the registry always holds exactly the updates since the last complete window |
| Schedule.ReportsCorrect | meter/consolidation_registry.cc:70-82 | one report per complete window; an id is in it iff its fold over that window's own updates is positive, and then with that fold |
| Schedule.CounterWindow | meter/consolidation_registry.h:20-31 | a counter's fold is the sum of its updates in the window over the number of updates in a window |
| Schedule.GaugeWindow | meter/consolidation_registry.h:20-31 | a gauge's fold is the maximum of its updates in the window |
| Statistics.ReportByStatistic | meter/consolidation_registry.cc:12-27 | what a window reports by the statistic tag alone: counts, totals and percentiles the sum of the updates over their number, iff that is above 0; anything else the greatest update, iff one is above the lowest double |
| Schedule.CounterConservationIff | meter/consolidation_registry.cc:39-99 | for every counter the reports add up to at least its updates over all complete windows, and to exactly those iff no complete window's updates add up to less than 0: then none is lost and none counted twice, removals included |
| Schedule.CounterConservation | meter/consolidation_registry.cc:39-99 | in particular for a counter never updated by a negative amount |
| Schedule.NegativeWindowLost | meter/consolidation_registry.h:20-24 | an instance: a window whose one update is -1 goes unreported |
| Schedule.RemovalLosesNothing | meter/consolidation_registry.cc:95-97 | what a measurement removes held nothing of the window then open and nothing reportable of the one it closes |
| Schedule.Drive | meter/consolidation_registry.cc:39-99 | the object itself, driven through the schedule, returns those reports, with the time of the tick that completed the window |
| Expiry.MarkedIffStruck | meter/consolidation_registry.cc:77-92 | in every run of calls an entry is marked iff the last measurement that saw it found no value |
| Expiry.RemovedAfterTwoStrikes | meter/consolidation_registry.cc:82-97 | an id is removed iff this measurement finds no value and so did the previous one |
| Runs.EntriesRefineLives | meter/consolidation_registry.cc:39-99 | in every run of calls an entry is there iff its history says so, and its fields are those of a step number run through its own updates and polls since it was created |
| Runs.ReportedOnAnyRun | meter/consolidation_registry.cc:77-80 | in every run an id is reported iff the step before the one in force holds a value; the value is the fold of the step before the one in force at the second reading |
| Runs.TornIff | meter/consolidation_registry.cc:78-80 | the value reported is that of the step found to hold one iff no step turned between the two readings, or the next one happens to hold the same; otherwise it is that of the next step so far, or the initial one if two turn |
| Runs.TornReport | meter/consolidation_registry.cc:78-80 | an instance: a counter updated by x > 0 is reported as 0 when a minute turns between the two readings |
| Runs.ReportedTwiceIff | meter/consolidation_registry.cc:77-80 | two measurements report the same step iff no reading after the first shows a later one, and then the same value |
| Runs.ReportedTwice | meter/consolidation_registry.cc:77-80 | an instance: two measurements in the minute after an update both report it |
| Runs.RemovalDiscardsIff | meter/consolidation_registry.cc:86-97 | removal loses something iff the measurement comes in no later a step than some earlier reading of the entry, and the step in force holds something |
| Expiry.EarlyMeasurementsDiscard | meter/consolidation_registry.cc:86-97 | an instance: two measurements inside one window drop a fresh entry with its update |
| Tokenizer.AddNonempty | interpreter/interpreter.cc:11-27 | pushes the field without its trailing spaces unless that is empty |
| Tokenizer.Split | interpreter/interpreter.cc:30-49 | the index-moving loops yield exactly the trimmed non-empty comma fields |
| Tokenizer.SplitUndoesJoin | interpreter/interpreter.cc:29-49 | splitting undoes joining clean tokens with commas |
| Tokenizer.PaddingIgnored | interpreter/interpreter.cc:29-49 | blanks of any of the six kinds around the tokens change nothing |
| Tokenizer.TokensAreClean | interpreter/interpreter.cc:29-49 | no token is empty, holds a comma, or has a space at an end |
| Interpreter.Context.PopExpression | interpreter/context.cc:16-21 | pops the top, or underflows and changes nothing |
| Interpreter.Context.PopStr | interpreter/context.cc:34-40 | pops a string; anything else is lost and throws |
| Interpreter.Context.AddToList | interpreter/context.cc:42-48 | appends to the list on top, or throws |
| Interpreter.Context.ExecuteWord | interpreter/vocabulary.cc:13-327 | each word has its stack effect, in the error cases too |
| Interpreter.DoProgram | interpreter/interpreter.cc:56-97 | the loop over the tokens runs the stack machine, to the end or to where it stops |
| Interpreter.RunConcat | interpreter/interpreter.cc:65-96 | programs compose by concatenation |
| Interpreter.GetQuery | interpreter/interpreter.cc:105-128 | the query of the one result; false for any other number of results |
| Programs.SimplifiedMatches | interpreter/query.cc:317-374 | a tree built by the smart constructors means the same |
| Programs.CompileCorrect | interpreter/vocabulary.cc:13-166 | on any stack, running the postfix form of a tree leaves that stack plus the simplified tree |
| Programs.GroupedCorrect | interpreter/vocabulary.cc:168-327 | a tree, an aggregation, a list and `:by`, `:keep-tags` or `:drop-tags` leave the grouping they spell |
| Programs.RunList | interpreter/interpreter.cc:67-83 | a list in parentheses is collected as it is, nested parentheses included |
| Programs.StrayParenthesis | interpreter/interpreter.cc:74-80 | a parenthesis that closes nothing stops the program with the stack as it is |
| Programs.SpelledEqual | interpreter/vocabulary.cc:333 | `:eq` as it is spelled compares for equality |
| Programs.SpelledDownward | interpreter/vocabulary.cc:336-337 | `:lt` and `:le` as they are spelled |
| Programs.SpelledUpward | interpreter/vocabulary.cc:334-335 | `:gt` and `:ge` as they are spelled |
| Programs.SpelledAggregates | interpreter/vocabulary.cc:347-351 | the five aggregations as they are spelled |
| Programs.AllCorrect | interpreter/vocabulary.cc:260-271 | a tree followed by `:all` selects by it |
| Programs.BareIsSummed | interpreter/vocabulary.cc:239-258 | a tree grouped without an aggregation is grouped as with `:sum` |
| Programs.LiteralIsConstant | interpreter/vocabulary.cc:239-245 | a literal is grouped as the number it reads as, and throws if it is none |
| Programs.WordsTouchOperands | interpreter/vocabulary.cc:13-327 | no word reaches below its operands or leaves more than one expression in their place |
| Programs.ThrowsIff | interpreter/vocabulary.cc:13-327 | exactly when each word throws |
| Programs.ReadBack | interpreter/interpreter.cc:99-128 | reading the text of a tree back gives a query that matches exactly what the tree matches |
| Programs.ReadBackGrouped | interpreter/interpreter.cc:105-128 | the query read from the text of a grouping is that of its tree |
| Programs.RelopSwallows | interpreter/vocabulary.cc:23-102 | unless its operands are two strings, a comparison word drops what it popped and goes on, where the regex words throw |
| Aggregation.MatchesAgree | interpreter/tags_value.h:61-85 | matching a tagged value key by key agrees with matching its full tags |
| Aggregation.TagPrecedence | interpreter/tags_value.h:78-83 | the name overrides the tags of the id, and those the common tags |
| Aggregation.SumAf | interpreter/aggregation.cc:35-48 | the sum of the values of the chosen measurements, not-a-number if none is |
| Aggregation.AvgAf | interpreter/aggregation.cc:50-65 | that sum over how many are chosen |
| Aggregation.ChosenExactly | interpreter/aggregation.cc:39 | chosen are exactly the measurements with a value that match, each as often as it occurs |
| Aggregation.CountAf | interpreter/aggregation.cc:67-76 | how many measurements with a value match, not-a-number if none |
| Aggregation.MinAf | interpreter/aggregation.cc:81-90 | a value iff some matching one is below the largest double, and then the least of the matching values |
| Aggregation.MaxAf | interpreter/aggregation.cc:92-101 | a value iff some matching one is above the lowest double, and then the greatest of the matching values |
| Doubles.LargestDouble | interpreter/aggregation.cc:78-79 | the sentinel of the minimum is (2^53 - 1) * 2^971 |
| Aggregation.Apply | interpreter/aggregation.cc:103-125 | the aggregate under the tags its filter implies |
| Grouping.GroupByValues | interpreter/group_by.cc:38-46 | the values of all keys, or nothing if one is missing |
| Grouping.ByRetains | interpreter/group_by.cc:38-54 | `:by` keeps exactly the measurements with all the keys, each under its values for exactly them |
| Evaluator.KeepRetains | interpreter/keep_drop_tags.cc:14-33 | `:keep-tags` keeps exactly the measurements with a name and all the keys |
| Grouping.DropKeys | interpreter/keep_drop_tags.cc:27-39 | the name and every tag key not listed |
| Grouping.DropRetainsNamed | interpreter/keep_drop_tags.cc:41-63 | `:drop-tags` keeps exactly the measurements with a name, under all their other tags |
| Grouping.GroupAll | interpreter/group_by.cc:40-54 | each group holds exactly the measurements with its tags, in order |
| Grouping.ApplyToGroups | interpreter/group_by.cc:38-74 | one result per group with a value, in any order of the groups |
| Evaluator.ConstantGroups | interpreter/group_by.cc:58-71 | a constant is the value of every group, under the group's own tags |
| Grouping.GroupsPartition | interpreter/group_by.cc:40-54 | the groups together are exactly the retained measurements, each once |
| Grouping.GroupingConserves | interpreter/group_by.cc:58-71 | sums, counts, minima and maxima of the groups re-aggregate to that of all retained measurements |
| Grouping.ResultTagsHold | interpreter/group_by.cc:59-70 | a result's tags, the filter's included, hold of every measurement that contributed |
| Grouping.ResultTagsDistinct | interpreter/group_by.cc:59-70 | two groups with values get different tags although the filter's tags override |
| Grouping.GroupByTagsDistinct | interpreter/group_by.cc:58-71 | the results of `:by` over an aggregation carry pairwise distinct tags |
| Grouping.KeepDropTagsDistinct | interpreter/keep_drop_tags.cc:65-77 | so do the results of `:keep-tags` and `:drop-tags` |
| Evaluator.ApplyAll | interpreter/all.cc:10-25 | `:all` yields the measurements with a value that match, and every one for `:true` |
| Evaluator.AllExactly | interpreter/all.cc:10-25 | each as often as it occurs, and no other |
| Evaluator.ApplyExpr | interpreter/group_by.cc:12-26 | what each kind of expression on the stack yields, nothing for the others |
| Evaluator.Eval | interpreter/evaluator.cc:10-33 | the results of all expressions on the stack, top first |
| Evaluator.YieldsTwo | interpreter/evaluator.cc:23-30 | of two expressions the later one's results come first |
| Evaluator.EvalAll | interpreter/evaluator.cc:10-33 | the text of a tree and `:all` yields exactly what the tree itself selects |
| Evaluator.EvalAggregate | interpreter/singleton_value_expr.cc:9-16 | the text of an ungrouped aggregation yields its one value under the tags of its filter, or nothing |
| Evaluator.EvalGrouped | interpreter/evaluator.cc:10-33 | from text to numbers: evaluating a written grouping never fails; it yields one result for each group that has a value, the unsimplified query's aggregate of its members under tags true of all that contribute; the results re-aggregate to the aggregate over the retained measurements, over all of them for `:drop-tags` when each has a name; no two carry the same tags |

## Left out

- QueryIndex.CreateAndMatch: `Build`, which indexes queries by themselves, is not modelled; values are compared by equality.
- QueryIndex.IndexMemo.Find: the hash of an annotated list depends on set iteration order, so a lookup may miss in the model whenever it likes; the hash itself is not modelled.
- XxHash.State64.Digest: equality with the one-shot hash is not claimed past 2^64 bytes when the wrapped length is below a stripe, where the code takes the short-input branch; the contract says what it returns.
- XxHash.Buffer.Feed: the sum of the buffered size and the input length does not wrap in the model; an input that long cannot exist in memory.
- XxHash.OneShot: alignment and big-endian variants, and a null input to the one-shot functions, are not modelled.
- Percentiles.ErrorBound: arithmetic is over exact reals, so rounding of doubles is not captured; this holds for sums, means and interpolation throughout.
- Percentiles.PercentileDistributionSummary.Record: the companion distribution summary, the sharing of counters through the registry and the wrap of a count past 2^63 are not modelled.
- StepNumberConcurrent.Conservation: memory orders are not modelled, every access is sequentially consistent; which step a racing add is attributed to and the value of `previous_` under races are not claimed, as the code promises neither.
- StepNumbers.RunRefinesHistory: values are exact, while the code also stores the step number itself in the value type, a double for consolidated values.
- Consolidation.ConsolidationRegistry.UpdateFrom: the clock is read once per update call where the code reads it for each measurement; the lock and the log lines are left out, of measurements too.
- Consolidation.WrappedClock.SetOffset: the offset is a mathematical integer where the code narrows it to an int; the monotonic time is not modelled.
- Schedule.ReportsCorrect: the thread that calls the registry is replaced by the stated schedule of updates and measurements, which may drift within each update step.
- Tokenizer.Split: a NUL character inside a program, which would end a token early, is not modelled.
- Interpreter.GetQuery: an exception that escapes a word ends the process, since the callers are `noexcept`; the model returns None.
- Interpreter.Context.ExecuteWord: the text of error messages, which the caller drops, and a literal that reads as an infinite or not-a-number constant are left out.
- Grouping.GroupingConserves: averages are excluded, since averages of groups do not re-aggregate.
- Evaluator.Eval: logging of expressions that are not results is left out.
- Regular expressions, string comparison of bytes above 127 and the interning pool are not modelled.
- The bucket functions, simple meters, registry plumbing, validation, timers, name expansion, and all network, file, JSON, compression and configuration code are left out: easy members, or no logic of their own.
