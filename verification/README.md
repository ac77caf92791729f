# Verification of Lura's request pipeline

Lura (proxy framework of API gateways) turns one incoming request into calls to several backends and
their responses into one. This project models the parts of it where that is subtle, as Dafny programs
and transition systems, and proves what they promise:

* **Fan-out, merge and race.** The parallel merger and the concurrent middleware are transition systems
  whose steps are those of the forking loop, of every worker goroutine, of the collector and of the
  contexts; everything is proved of every interleaving. The accumulator, the default combiner and the
  sequential merger are classes that update shared, aliased maps as the source does; the sequential
  merger carries a ghost log of its run, about which the lemmas speak.
* **Request cloning.** Headers, parameters and bodies as objects, copied through a pooled buffer; and,
  at the grain of single bytes, any interleaving of the calls that clone any number of requests, each any
  number of times, through one pool.
* **Response filters.** Allow and deny lists compiled into dictionaries and applied in place, against a
  specification per path; renaming and target extraction.
* **SRV records to slots to picks.** Weight scaling, sorting, slots, the cached list, and the exact share
  of calls every record gets from the round-robin balancer.
* **URL templates.** The checks of the configuration, and the filling of the pattern for a request.

Modules import each other; `dafny verify dfyconfig.toml` checks everything. What each file is about:

| file | content |
|---|---|
| `Options`, `Arith`, `Permutations`, `Sorting` | optional values; arithmetic facts; multisets, enumerations and permutations of sequences; insertion sort for total orders |
| `Weights`, `SrvSubscriber`, `RoundRobin` | sd/dnssrv/subscriber.go, sd/subscriber.go, sd/loadbalancing.go |
| `JsonTree`, `DictHeap` | response data as values and as dictionaries in the heap, with the shape that ties the two |
| `DenyFilter`, `AllowFilter`, `FilterHeap`, `EntityFormatter` | proxy/formatter.go: meaning of the filters, the in-place code, the whole formatter |
| `PathTemplate`, `UrlMappings` | `GeneratePath` of proxy/request.go, the URL checks of config/config.go |
| `Merging` | accumulator and default combiner of proxy/merging.go, and any sequence of merges |
| `WorkerPool`, `ParallelMerge`, `Race` | the worker shape shared by proxy/merging.go and proxy/concurrent.go, and the two protocols over it |
| `SequentialRun`, `SequentialLedger`, `SequentialLog` | the sequential merger: runs and lookups as values; the accumulator and the parts as objects, seen as values; the log of a run and what it tells |
| `SequentialMerge`, `SequentialConfig`, `SequentialTemplate` | its loop as it is; its configuration; from a placeholder in a URL pattern to the generated path |
| `RequestClone`, `ClonePool` | `CloneRequest` of proxy/request.go on objects; its interleavings |

Some facts about the code that the model brought out:

* The loops over maps are modelled with an arbitrary iteration order, which the contracts return.
* A mapping of a key to itself makes the formatter delete the key, and renaming is simultaneous on every
  response and for every order exactly if the targets are pairwise distinct and none is a source
  (`EntityFormatter.RenameIsSimultaneousIff`).
* The sequential merger's parameter lookup stops where the path fails and then still tries the last key
  in the dictionary it reached. It is right exactly if the path exists or that dictionary does not happen
  to have the last key (`SequentialRun.LookupRightIff`, and an input where it is wrong in
  `SequentialRun.LookupTakesFromAbove`).
* The combiner writes into one of the responses' maps, the first with data unless two without data came
  before. Key by key, that map holds the value of the last response that brings the key, and every other
  map what its backend delivered (`SequentialRun.DataAfterKey`). A lookup finds the backend's own value
  exactly if the top-level key is shielded (the map is another's, or no later response brings the key), or
  what took its place leads to the same value (`SequentialRun.LookupFindsOwnValueIff`).
* With its caller's context done, the concurrent middleware may return neither a response nor an error:
  exactly if all its turns were spent on that context (`Race.NothingReturnedIff`). A caller rules it out
  exactly by passing a context that cannot end (`Race.ContextDecides`).
* Over any window of as many consecutive tickets as slots, every slot is taken once exactly if the window
  does not contain the wrap of the 64-bit counter or the number of slots divides 2^64
  (`RoundRobin.FairIff`). A single record may get its exact share across the wrap all the same; when it
  does is `RoundRobin.WeightedFairnessIff`.
* `uniqueOutput` leaves the last name out of its count; that is harmless (`UrlMappings.CountCheckIsImplied`).
* Records follow RFC 2782, "The format of the SRV RR", with two deviations of the code. Only records of
  the lowest priority are used at all. And a record owns no slot exactly if its weight is 0 or, where
  weights are scaled, 100 times its weight (or, above 100 records, their number times it) is below the sum
  of the weights (`SrvSubscriber.OwnsNothingIff`): weight 1 beside a weight of 100 or more is never picked,
  beside less it is (`SrvSubscriber.PositiveWeightStarves`). If all weights are 0 there are no slots, and
  the balancer answers with its error for an empty list.
* A response that a proxy returned reaches the parallel merger as it is, or it is lost to a done context;
  before the merger's own context ends nothing is lost (`ParallelMerge.NothingLost`).
* The comment on `CleanPath` promises to trim all extra slashes; the code trims one at most, and the model
  follows the code (`UrlMappings.CleanPathIs`).
* Rewriting the placeholders of a URL pattern touches nothing else exactly if no name spells, with a
  leading dot, a hole that is there at its turn (`UrlMappings.RewritingIsRightIff`; two names for which it
  goes wrong are in `UrlMappings.DotSpellsHole`).
* Filling a path replaces the holes of one parameter after the other, and nothing else, exactly if no
  parameter finds at its turn that text between its holes spells one more (`PathTemplate.FillingIsRightIff`);
  a value that spells a hole makes the path depend on the order (`PathTemplate.BracesMakeOrderMatter`).
  Whoever checks the values alone may rely on this: if every opening brace of every value is followed by
  something other than an opening brace, as in a JSON text that quotes no such braces, all holes are filled
  at once, in every order (`PathTemplate.TameFillsCleanly`, `UrlMappings.TameRequestEndToEnd`).
* The merged data are the same for every arrival order exactly if responses agree on the top-level keys that
  they share (`Merging.OrderIrrelevantIff`).

## Model

| member | source | states |
|---|---|---|
| `Weights.Normalize` | sd/dnssrv/subscriber.go:185-204 | scaling: weights that sum to at most max(100, n) stay, others become floor(w * scale / sum) through the 16-bit conversion |
| `Weights.NormalizeNeverTruncates` | sd/dnssrv/subscriber.go:201 | the 16-bit conversion never loses anything: every scaled weight is at most the weight |
| `Weights.NormalizeFitsInt64` | sd/dnssrv/subscriber.go:191-201 | for fewer than 2^47 weights neither the 64-bit sum nor any product overflows |
| `Weights.NormalizeKeepsOrder` | sd/dnssrv/subscriber.go:185-204 | a record with no larger weight gets no larger scaled weight |
| `Weights.NormalizedTotal` | sd/dnssrv/subscriber.go:185-204 | weights that sum to at most 100, or to at most their number, stay; otherwise n weights come to more than 100 - n and at most 100, and above 100 weights to at most n |
| `Weights.NormalizedShare` | sd/dnssrv/subscriber.go:185-204 | when scaling happens every weight becomes the floor of 100, or above 100 weights their number, times its share of the sum |
| `Weights.LocalGcd` | sd/dnssrv/subscriber.go:211-216 | Euclid's loop on two 16-bit numbers |
| `Weights.Gcd` | sd/dnssrv/subscriber.go:206-224 | the fold over a slice, 0 for the empty one |
| `Weights.GcdIsGreatestCommonDivisor` | sd/dnssrv/subscriber.go:206-224 | the fold is the greatest common divisor: a number divides it exactly if it divides every weight |
| `Weights.Compact` | sd/dnssrv/subscriber.go:170-183 | the loop that divides the scaled weights by their common divisor, unless that is below 2 |
| `Weights.CompactIsExact` | sd/dnssrv/subscriber.go:177-180 | the division leaves no remainder: compacted weight times divisor is the scaled weight |
| `Weights.StarvedIff` | sd/dnssrv/subscriber.go:170-204 | a weight is compacted to nothing exactly if it is zero or, where weights are scaled, 100 (above 100 weights their number) times it is below the sum |
| `Weights.CompactKeepsRatios` | sd/dnssrv/subscriber.go:170-183 | ratios of any two scaled weights are kept exactly |
| `Weights.CompactIsCoprime` | sd/dnssrv/subscriber.go:170-183 | compacted weights have common divisor 1 unless all are zero |
| `Weights.CompactIsIdempotent` | sd/dnssrv/subscriber.go:170-183 | compacting compacted weights changes nothing |
| `Weights.CompactTotal` | sd/dnssrv/subscriber.go:170-204 | the total is at most 100, or above 100 weights their number, and zero exactly if all weights are zero |
| `SrvSubscriber.SrvLessIsTotalOrder` | sd/dnssrv/subscriber.go:134-148 | the four-key comparison is a total order, so that sorting has one result |
| `SrvSubscriber.Resolve` | sd/dnssrv/subscriber.go:128-168 | sort in place, leading run of equal priority, compaction, expansion: the slot list of the records, and the records left in the array in sorted order |
| `SrvSubscriber.CollectTop` | sd/dnssrv/subscriber.go:150-159 | the loop that stops at the first record of higher priority collects weights and hosts of the leading run |
| `SrvSubscriber.FillSlots` | sd/dnssrv/subscriber.go:161-166 | every host as often as its count, in order |
| `SrvSubscriber.ResolveIgnoresOrder` | sd/dnssrv/subscriber.go:128-168 | any permutation of the lookup's answer gives the same slot list |
| `SrvSubscriber.TopIsLowestPriority` | sd/dnssrv/subscriber.go:153-159 | the records used are exactly those of the lowest priority, each as often as it was answered |
| `SrvSubscriber.SlotsByDescendingWeight` | sd/dnssrv/subscriber.go:134-168 | the records used come in descending order of weight, of one priority, and a heavier one never gets fewer slots |
| `SrvSubscriber.TiesByTargetThenPort` | sd/dnssrv/subscriber.go:134-148 | of two records used that have one weight, the one with the lower target comes first, and of one target the one with the lower port |
| `SrvSubscriber.SlotsDescend` | sd/dnssrv/subscriber.go:161-167 | the slots, from first to last, belong to records of descending weight |
| `SrvSubscriber.NumberOfSlots` | sd/dnssrv/subscriber.go:161-167 | the number of slots is the total of the compacted weights: at most 100, or the number of records used above that, and none exactly if all weights used are zero |
| `SrvSubscriber.SlotsFollowOwners` | sd/dnssrv/subscriber.go:161-166 | the k-th slot is the host of the record that owns it |
| `SrvSubscriber.OwnerCounts` | sd/dnssrv/subscriber.go:161-166 | every record owns exactly its compacted weight in slots |
| `SrvSubscriber.OwnsNothingIff` | sd/dnssrv/subscriber.go:161-204 | which of the records used own no slot: weight 0, or 100 (above 100 records their number) times the weight below the sum where that is scaled |
| `SrvSubscriber.PositiveWeightStarves` | sd/dnssrv/subscriber.go:185-204 | of a record of weight w and one of weight 1, the second owns none exactly if w is 100 or more |
| `SrvSubscriber.NewRandomFixedSubscriber` | sd/subscriber.go:41-49 | the shuffled list is the rearrangement of the hosts by the permutation drawn |
| `SrvSubscriber.CachedOrder` | sd/dnssrv/subscriber.go:117-125 | the cached list is the slots in their order if there are at most 100, and else in that of the permutation drawn |
| `SrvSubscriber.Subscriber.Hosts` | sd/dnssrv/subscriber.go:97-110 | a fresh copy of the cached list |
| `SrvSubscriber.Subscriber.Update` | sd/dnssrv/subscriber.go:112-126 | a failed lookup keeps the cache; otherwise it is the slot list, rearranged by a permutation if longer than 100 |
| `RoundRobin.RoundRobinLB.Host` | sd/loadbalancing.go:54-62 | the pick is the host at the ticket modulo the list's length, with the counter's wrap; errors and empty lists take no ticket |
| `RoundRobin.TicketsAreConsecutive` | sd/loadbalancing.go:55-62 | in every interleaving of callers that fetch first and draw later, the k-th draw has ticket start + k, wrapped |
| `RoundRobin.FairIff` | sd/loadbalancing.go:60-61 | a window of as many consecutive tickets as slots takes every slot once exactly if it does not cross the wrap or the slots divide 2^64 |
| `RoundRobin.WeightedFairness` | sd/loadbalancing.go:55-62 | end to end: in every interleaving over a fixed cache, such a window gives every record exactly its compacted weight in calls, shuffled cache or not |
| `RoundRobin.WeightedFairnessIff` | sd/loadbalancing.go:55-62 | exactly when a record gets its weight in a window: no wrap, or what the draws before the wrap serve has it as often as the last as many slots |
| `RoundRobin.RecordOfSlotServesHost` | sd/dnssrv/subscriber.go:161-166 | a pick counted for a record serves that record's host |
| `DenyFilter.InsertAllDenyCovers` | proxy/formatter.go:158-194 | the compiled dictionary covers exactly the listed paths and what is below them |
| `DenyFilter.DeniedKinds` | proxy/formatter.go:196-213 | the walk removes exactly what the dictionary covers and leaves the kind of every other path |
| `DenyFilter.DenyFilterKinds` | proxy/formatter.go:215-225 | compiled and applied, a path disappears exactly if a listed path is a prefix of it, all else is unchanged |
| `DenyFilter.DenyFilterIsDeletion` | proxy/formatter.go:158-225 | compiling and walking once equals deleting the listed paths one at a time in any order |
| `FilterHeap.BuildDenyTree` | proxy/formatter.go:158-194 | the in-place insertion is the insertion on values; the branch that should never happen is proved dead |
| `FilterHeap.RecDelete` | proxy/formatter.go:196-213 | the in-place walk, over two dictionaries with any iteration order, is the walk on values and leaves the compiled dictionary alone |
| `FilterHeap.NewDenylistingFilter` | proxy/formatter.go:215-225 | the list is split at dots and compiled |
| `AllowFilter.AllowTreeLeaves` | proxy/formatter.go:121-156 | the keep marks are exactly the listed paths that no later entry strictly above or below has displaced |
| `AllowFilter.PrunedKinds` | proxy/formatter.go:97-119 | pruning keeps a path exactly if it is at, below or on the way to a mark that exists in the input, and unchanged |
| `AllowFilter.AllowFilterKinds` | proxy/formatter.go:97-136 | end to end, in terms of the listed entries; an atom stays exactly if an effective entry is a prefix of its path |
| `AllowFilter.AllowFilterEmpty` | proxy/formatter.go:118-134 | the walk reports nothing left exactly if no effective entry exists in the input |
| `AllowFilter.PruneIsIdempotent` | proxy/formatter.go:97-119 | pruning twice is pruning once |
| `FilterHeap.AllowlistPrune` | proxy/formatter.go:97-119 | the in-place walk is pruning on values, and its result says whether nothing is left |
| `FilterHeap.BuildDictPath` | proxy/formatter.go:138-156 | walking as far as dictionaries go, then making the rest, replacing marks: the dictionary in which the last step is bound |
| `FilterHeap.NewAllowlistingFilter` | proxy/formatter.go:121-128 | the list is split at dots and compiled in order |
| `FilterHeap.ApplyAllow` | proxy/formatter.go:129-135 | the filter on a response, with the clearing of what is left |
| `EntityFormatter.RenameKeys` | proxy/formatter.go:68-75 | the in-place rename loop, in the iteration order it returns |
| `EntityFormatter.RenameIsSimultaneousIff` | proxy/formatter.go:68-75 | renaming is simultaneous on every response and for every order exactly if targets are distinct and none is a source |
| `EntityFormatter.FormattedIgnoresOrder` | proxy/formatter.go:61-80 | with such a mapping the whole formatter does not depend on the iteration order |
| `EntityFormatter.ExtractTarget` | proxy/formatter.go:82-95 | the loop along the target path |
| `EntityFormatter.TargetIsValueAtPath` | proxy/formatter.go:82-95 | it yields the dictionary at the path, or an empty one |
| `EntityFormatter.Formatter.constructor` | proxy/formatter.go:36-58 | the allow list, if there is one, else the deny list, is compiled |
| `EntityFormatter.Formatter.Format` | proxy/formatter.go:61-80 | target, filter, renaming and group in this order: the value is that of which `FormattedKinds` tells; the compiled filter is as it was |
| `EntityFormatter.FormattedKinds` | proxy/formatter.go:36-80 | end to end by paths, for a simple mapping: at group, then the key or the first part of its new name, then any path, the result has what the input has at target, key and path if the allow entries, or else the deny entries, let it through; nothing at names given up or outside the group |
| `EntityFormatter.NoTargetNothing` | proxy/formatter.go:61-95 | where the input has no dictionary at the target, nothing is below the group |
| `JsonTree.SplitJoins` | proxy/formatter.go:124-125 | splitting a dotted name loses nothing and leaves no dot in a part |
| `JsonTree.JoinSplits` | proxy/formatter.go:124-125 | joining parts without the separator and splitting again gives the parts |
| `PathTemplate.Request.GeneratePath` | proxy/request.go:24-39 | the byte-level replacement loop, in the iteration order it returns |
| `PathTemplate.ReplaceIsSubstitute` | proxy/request.go:36 | replacing the text of one token at byte level replaces exactly that token, everywhere, if none clashes with it, and for a longer replacement only then |
| `PathTemplate.FillingOneIsRightIff` | proxy/request.go:36 | on any template and with any value, replacing the text of a hole replaces exactly the holes of its key if and only if no text between them spells one more, or the value is the hole |
| `PathTemplate.FillingIsRightIff` | proxy/request.go:29-37 | after every parameter the text is that of the template with the holes so far filled, exactly if at its turn no parameter finds its hole spelled elsewhere: any template, values and order |
| `PathTemplate.GeneratePathIsSimultaneous` | proxy/request.go:24-39 | then the generated path is simultaneous substitution |
| `PathTemplate.TameFillsCleanly` | proxy/request.go:29-37 | keys without braces and values that open no hole meet the condition, in every order |
| `PathTemplate.TameOrderIrrelevant` | proxy/request.go:29-37 | and then the path does not depend on the order |
| `PathTemplate.BracesMakeOrderMatter` | proxy/request.go:29-37 | with a value that spells a hole two orders give two paths |
| `PathTemplate.SpelledHoleIsNotClean` | proxy/request.go:29-37 | and the first of these orders fails the condition |
| `UrlMappings.UniqueOutput` | config/config.go:680-698 | in place: the front is the set of names, strictly increasing; the count leaves out the last name and sequential ones |
| `UrlMappings.FromSetToSortedSlice` | config/config.go:671-678 | the keys of a set, strictly increasing |
| `UrlMappings.CountCheckIsImplied` | config/config.go:637-647 | pigeonhole: what the count check rejects, the membership check would reject |
| `UrlMappings.CleanPathIs` | config/uri.go:92-95 | a cleaned pattern starts with a slash that was there or was added, is otherwise the input, and stays when cleaned again |
| `UrlMappings.KeysAre` | config/config.go:664 | the key of every name is its first character in title case and the rest as it is |
| `UrlMappings.Backend.InitBackendURLMappings` | config/config.go:630-669 | it succeeds exactly if every placeholder that is not sequential is declared, and fails the count check exactly if more names than there are parameters, the last left out, are not sequential; what the pattern and the keys are then, after a failed count check, and after a name that fails; what the errors carry |
| `UrlMappings.RewritingIsRightIff` | config/config.go:651-666 | after every name the text is that of the template with the placeholders so far turned into holes, exactly if no name spells a hole at its turn |
| `UrlMappings.RewrittenIsAsHoles` | config/config.go:664-666 | then the rewriting turns every placeholder into the hole of its key, all at once |
| `UrlMappings.DotlessSpellNoHole` | config/config.go:664-666 | names without a leading dot never spell one |
| `UrlMappings.DotSpellsHole` | config/config.go:664-666 | two names that can both be declared, of which the second does, and what the rewriting makes of their template |
| `UrlMappings.TemplateEndToEnd` | config/config.go:630-669 | configured, rewritten and filled: every placeholder takes the value of its key, under the two exact conditions |
| `UrlMappings.TameRequestEndToEnd` | config/config.go:630-669 | the same whatever the orders, for names without a leading dot and values that open no hole |
| `Merging.CombineData` | proxy/merging.go:591-615 | the default combiner on two parts: value, flag, and which map object the result has and writes |
| `Merging.IncrementalMergeAccumulator.Merge` | proxy/merging.go:455-473 | one merge: value, which response and map it holds now, which flags it touched |
| `Merging.IncrementalMergeAccumulator.Result` | proxy/merging.go:475-484 | the verdict: incomplete if something is pending or failed |
| `Merging.ResultSummary` | proxy/merging.go:447-484 | any sequence of merges: errors and responses account for every call; present exactly if a response came; complete exactly if nothing is pending, nothing failed, all complete, and all with data if two or more |
| `Merging.ErrorMembers` | proxy/merging.go:455-465 | the errors are exactly those merged, with the one for a nil response |
| `Merging.UnionIsLast` | proxy/merging.go:604-606 | every key of the merged data has the value of the last response that has it |
| `Merging.LastArrivalWins` | proxy/merging.go:447-484 | the same, of the final result |
| `Merging.EveryKeyHasLastArrival` | proxy/merging.go:447-484 | every key of every response that carried data is in a merged result, with its last arrival's value |
| `Merging.ArrivalOrderIrrelevant` | proxy/merging.go:447-484 | presence, flag and errors as a multiset are the same for every arrival order, and if responses agree on shared keys the data too |
| `Merging.OrderIrrelevantIff` | proxy/merging.go:447-484 | the whole result is the same for every arrival order exactly if they do |
| `WorkerPool.StepKeepsInv` | proxy/merging.go:486-506 | every step of every worker keeps: a posted message is in exactly one place, on the right channel |
| `WorkerPool.SendNeverBlocks` | proxy/merging.go:486-506 | until a worker has posted, messages sent and received together are fewer than the workers, so both channels have room |
| `WorkerPool.PostedFrom` | proxy/merging.go:486-506 | what a worker posted goes back to a state in which it held its proxy's outcome: a response is that outcome; an error is the proxy's own, that for a nil response, or that of a context done by then |
| `WorkerPool.DeliversIff` | proxy/merging.go:486-506 | a worker ends with a response posted exactly if its proxy returned it and it got through |
| `WorkerPool.FailedIff` | proxy/merging.go:486-506 | and with an error exactly if the proxy failed with it, returned nil, or lost its response to the context |
| `ParallelMerge.NoSendBlocks` | proxy/merging.go:285-310 | in every state of every run: channels within capacity, no send blocks, each worker posts at most once |
| `ParallelMerge.FinishedIsQuiet` | proxy/merging.go:297-310 | at the end every called backend's one message was received once, both channels are empty, nothing is pending |
| `ParallelMerge.ParallelMergeResult` | proxy/merging.go:279-310 | at the end of every run: a result is there exactly if a called proxy returned a response that got through; complete exactly if every called proxy returned a complete response, with data if two or more were called, and none was lost to the context; errors and responses account for every call |
| `ParallelMerge.ParallelMergeErrors` | proxy/merging.go:297-310 | the errors are exactly those the called proxies failed with |
| `ParallelMerge.ParallelMergeData` | proxy/merging.go:297-310 | with two or more responses, every key is there that a proxy returned, with the value of the one heard last |
| `ParallelMerge.ParallelMergeSingle` | proxy/merging.go:466-472 | with one response, the data are the ones its proxy returned |
| `ParallelMerge.NothingLost` | proxy/merging.go:492-503 | if the context did not end before the merger was through, every response returned got through |
| `ParallelMerge.InterleavingIrrelevant` | proxy/merging.go:279-310 | runs with the same messages end alike, however they interleave |
| `ParallelMerge.RunsAreBounded` | proxy/merging.go:279-310 | no run is longer than a bound in the number of backends: it terminates if every proxy returns |
| `ParallelMerge.NeverStuck` | proxy/merging.go:279-310 | as long as it is not finished some step is possible |
| `ParallelMerge.Collect` | proxy/merging.go:297-309 | the collector on objects: errors, presence, flag and whether there are data are those of the messages, whatever responses share; the data too if they share nothing |
| `Race.RaceOutcome` | proxy/concurrent.go:31-61 | with the caller's context never done: it is won exactly if a complete response that a proxy returned is heard, and the answer is that response without an error; otherwise all were heard once, and the answer is the last response heard, as its proxy returned it, and the last error heard, not both missing |
| `Race.NothingReturnedIff` | proxy/concurrent.go:48-60 | neither response nor error comes back exactly if every turn was spent on the caller's context |
| `Race.NothingReturnedHappens` | proxy/concurrent.go:48-60 | for every number of calls, a run in which that happens |
| `Race.ContextDecides` | proxy/concurrent.go:31-61 | a call may return nothing exactly if the caller's context may end |
| `Race.LeftBehindCanFinish` | proxy/concurrent.go:73-93 | also after an early return every worker about to send can do so at once |
| `Race.RunsAreBounded` | proxy/concurrent.go:31-61 | runs are bounded |
| `Race.NeverStuck` | proxy/concurrent.go:31-61 | as long as the call has not returned some step is possible |
| `SequentialRun.SequentialVerdict` | proxy/merging.go:410-437 | of any list of events: the accumulated result is complete exactly if every backend had its event and every message is a complete response, with data if two or more are |
| `SequentialRun.WalkReaches` | proxy/merging.go:341-354 | the walk ends in the dictionary at the longest prefix of the path that leads to one |
| `SequentialRun.LookupOfWholePath` | proxy/merging.go:341-374 | where the whole path exists the lookup takes its value |
| `SequentialRun.LookupRightIff` | proxy/merging.go:341-374 | exactly when the lookup agrees with the path: it exists, or the dictionary where the walk stops lacks the last key |
| `SequentialRun.LookupTakesFromAbove` | proxy/merging.go:343-374 | an input where it does not agree |
| `SequentialRun.RenderedIsText` | proxy/merging.go:377-403 | the text of a value: a string as it is, number and truth value in their own formats, the items of a list joined by commas, nothing for an empty list, all else in the general format |
| `SequentialRun.ListSplits` | proxy/merging.go:380-392 | splitting the text of a list at its commas gives the texts of the items, if those have none |
| `SequentialRun.DataAfterKey` | proxy/merging.go:601-606 | what every map of a run holds for every key: its own value, or in the map that is written, the last value brought |
| `SequentialRun.UnwrittenStays` | proxy/merging.go:601-606 | a map that is not the accumulator's is what its backend delivered |
| `SequentialRun.KeyKeepsOwnValueIff` | proxy/merging.go:601-606 | exactly when a key keeps the value its backend delivered |
| `SequentialRun.LookupAfter` | proxy/merging.go:341-374 | what the lookup for a backend finds, from what the backends delivered |
| `SequentialRun.LookupFindsOwnValueIff` | proxy/merging.go:341-374 | exactly when it finds the backend's own value of a path that exists there |
| `SequentialRun.LaterKeyWins` | proxy/merging.go:601-606 | a run in which it finds another backend's |
| `SequentialLedger.Ledger.LeaveOut` | proxy/merging.go:408-412 | the stand-in for a backend left out: part, pending count and a new empty map, nothing else |
| `SequentialLedger.Ledger.MergeReply` | proxy/merging.go:466-472 | a merged response: value, the map the result is over, what that map holds now, and that no flag changes |
| `SequentialLedger.LeftOutBalanced` | proxy/merging.go:408-412 | leaving a backend out keeps the account of accumulator, parts and maps |
| `SequentialLedger.MergedBalanced` | proxy/merging.go:422-428 | so does merging a complete response and keeping it as the part; responses still to come stay as they were |
| `SequentialLog.MessageIsOwn` | proxy/merging.go:413-423 | what a call is recorded with is what its backend's response was before the run: flag always, data if no map is shared |
| `SequentialLog.LogGrows` | proxy/merging.go:330-433 | every turn keeps the log: order of calls, filters, own messages, supplied and served parameters, genuine captures |
| `SequentialLog.CalledInOrder` | proxy/merging.go:330-413 | the calls recorded are in strictly increasing order of index, so each backend is called at most once |
| `SequentialLog.FilterDecides` | proxy/merging.go:408-412 | a backend is left out exactly if its filter rejects the parameters it would see |
| `SequentialLog.RunVerdict` | proxy/merging.go:410-437 | the verdict in terms of the backends: present exactly if one that was called answers; complete exactly if all had their turn and each one let through answers with a complete response, with data if two or more were called |
| `SequentialLog.RunErrors` | proxy/merging.go:414-437 | the errors of a run are exactly those the calls made ended with |
| `SequentialLog.RunData` | proxy/merging.go:414-437 | with two or more responses, the data have every key delivered, with the value of the last backend that did, and no other |
| `SequentialLog.CapturedOwnValue` | proxy/merging.go:341-405 | a value captured for a path that exists in what backend j delivered, with a shielded top-level key, is the rendering of that value |
| `SequentialLog.DestinationKeeps` | proxy/merging.go:356-359 | a destination that received a value keeps it in every later backend that lists it |
| `SequentialLog.OwnValueArrives` | proxy/merging.go:331-405 | every backend that lists such a value has its rendering in the parameters when its turn comes, if the key is shielded up to the first turn that lists it; up to this turn, if the rendering is empty |
| `SequentialLog.WholeResponseArrives` | proxy/merging.go:361-372 | a captured whole response that is not empty is the body as delivered, and is in the parameters of every later backend that lists it |
| `SequentialLog.WholeResponseOfBackend` | proxy/merging.go:361-372 | every backend that lists the whole response of an earlier one has that one's body in its parameters, as delivered, if it can be read and goes by one name |
| `SequentialMerge.Transaction.constructor` | proxy/merging.go:320-328 | new channels, registry, accumulator and parts, all empty, over the backends' responses as they are |
| `SequentialMerge.Begin` | proxy/merging.go:320-328 | this is the head of the loop before the first turn |
| `SequentialMerge.Serve` | proxy/merging.go:318-437 | a call of the proxy writes to nothing but the request and what the backends hand over; its result is that of `Run` |
| `SequentialMerge.Transaction.Propagate` | proxy/merging.go:332-405 | one replacement: skipped for the own and later backends, the registry's value if found, else body or looked-up value rendered; every part it reads is there |
| `SequentialMerge.Transaction.PropagateAll` | proxy/merging.go:331-406 | all replacements of a turn: found destinations are supplied; lookups that find something and bodies that can be read are served, in parameters and registry alike, with a value found before or their own; what is captured is genuine |
| `SequentialMerge.Render` | proxy/merging.go:379-403 | the type switch and its loop over the items of a list compute the text of which `RenderedIsText` tells |
| `SequentialMerge.WalkDown` | proxy/merging.go:342-354 | the loop that follows the path as far as dictionaries go |
| `SequentialMerge.Channels.SequentialRequestPart` | proxy/merging.go:508-523 | exactly one send on exactly one of the two channels |
| `SequentialMerge.Transaction.FinishTurn` | proxy/merging.go:408-433 | the filter alone leaves a backend out; otherwise what is recorded is this backend's own message; how the turn ends |
| `SequentialMerge.Transaction.RunStops` | proxy/merging.go:412-431 | every event but the last is a backend left out or a complete response; a run that ends before the last backend ends with a failure or an incomplete response |
| `SequentialMerge.Transaction.Run` | proxy/merging.go:320-437 | the whole loop and its answer: raw error exactly if the first backend is called and fails; otherwise calls in index order, at most once, none after a failure or incomplete response, every turn as configured, on messages that have the flags and, with unshared maps, the data the responses had before; whole responses are the bodies as delivered if no reader is shared; answer and verdict of the accumulator; channels empty |
| `SequentialConfig.SequentialMergerConfig` | proxy/merging.go:192-256 | per backend: the holes of its own pattern, whatever backend they name, then for all but the first the propagated parameters that name an existing one |
| `SequentialConfig.ListedIff` | proxy/merging.go:218-255 | a backend's list is the replacements that its own holes describe, then, for all but the first, those that propagated parameters naming an existing backend describe, and nothing else |
| `SequentialConfig.NumberOfDecimal` | proxy/merging.go:221 | the number of a hole is that of its decimal digits, leading zeros or not |
| `SequentialConfig.DestKeyDetermines` | proxy/merging.go:210-216 | the name of a destination determines backend and path |
| `SequentialConfig.ConfigurationIsSound` | proxy/merging.go:218-255 | what the merger relies on: no empty list of keys, one meaning per destination |
| `SequentialConfig.PropagatedExist` | proxy/merging.go:236-250 | a listed backend that does not exist comes from a URL pattern, never from propagated parameters |
| `SequentialConfig.ConfiguredDestinationKeeps` | proxy/merging.go:356-359 | with a configuration, `DestinationKeeps` without further conditions |
| `SequentialTemplate.MatchArrives` | proxy/merging.go:218-255 | a value that a hole of backend i's pattern names is in the parameter of that name at backend i's turn |
| `SequentialTemplate.PlaceholderKey` | config/config.go:664 | the name of a sequential placeholder, as written in a pattern, has as its key the parameter the merger fills |
| `SequentialTemplate.SequentialPlaceholder` | proxy/request.go:24-39 | end to end: at backend i's turn the generated path has, in place of a configured placeholder for an earlier response, the text (`RenderedIsText`) of the value that backend delivered |
| `RequestClone.Clone` | proxy/request.go:46-60 | everything shared but the URL, which is parsed again |
| `RequestClone.CloneRequestHeaders` | proxy/request.go:98-106 | a new map of new slices with the same values; a nil map becomes an empty one |
| `RequestClone.CloneRequestParams` | proxy/request.go:109-115 | a new map with the same values |
| `RequestClone.Buffer.ReadFrom` | proxy/request.go:81 | the rest of the body is appended, the slice replaced if too short |
| `RequestClone.SplitBody` | proxy/request.go:78-92 | one body becomes two with its bytes, neither reachable from the pool |
| `RequestClone.CloneRequest` | proxy/request.go:72-95 | own headers, header slices, parameters, body and body slice; equal values; shared query; the original's body renewed |
| `RequestClone.FanOut` | proxy/concurrent.go:37-43 | n - 1 clones and the original: n requests with the original values that pairwise share no header map or slice, parameter map, body or body slice, and nothing with the pool |
| `RequestClone.UnsharedMeans` | proxy/request.go:72-95 | what unshared requests have apart: header maps and slices, parameter maps, bodies and the bytes these read |
| `ClonePool.StepKeeps` | proxy/request.go:64-95 | every step of every call keeps: a buffer is in the pool or with one call, slices have one purpose, bytes read so far are the request's own, and so are its body and all its clones |
| `ClonePool.ClonesAreFaithful` | proxy/concurrent.go:37-43 | in every state of every interleaving the body of a request and all clones made of it so far hold exactly its bytes, no buffer writes to their slices, and all of them are distinct, within a request and across |
| `ClonePool.NeverStuck` | proxy/request.go:78-92 | a request that lacks clones can always take a step |
| `ClonePool.RunsAreBounded` | proxy/request.go:78-92 | no run is longer than a bound in the lengths of the bodies and the numbers of clones, so that all clones get made |

## Left out

- HTTP clients and servers, routers, encoding, plugins, logging, the register package, shadow proxies, static data, backoff: I/O or wrappers, or properties that would only add easy members.
- Flatmap operations of the formatter (`processOps`): their behaviour is in a library that is not part of this model.
- Custom combiners, mergers and backend filter factories: the default combiner is fixed; a filter is any predicate on the request's parameters.
- Regular expressions: the placeholders found in a pattern, the test for sequential names, and the groups of a match are inputs; of a match only that its first group is digits is assumed.
- Title casing, number and value formatting (`%v`), URL printing and parsing, random permutations and the DNS lookup: parameters of the members that use them. Strings are sequences of characters; byte-level encodings of non-ASCII text are not modelled.
- Real time: a timeout or cancellation is an event that may happen at any step; the sequential merger takes, per backend, whether a done context wins the select.
- Library sorting: an insertion sort stands for `sort.Slice` and `sort.Strings`; for total orders the result is the same.
- `randomLB`, `nopBalancer` and the start position of the round-robin counter: the counter starts anywhere; the quality of random numbers is not modelled.
- Filters treat a list in a response as an atom, as the source does; response data are trees (no dictionary reachable twice).
- Nil maps in the formatter: the data of a response is a dictionary, possibly empty; Go's nil map reads the same. In merging, nil data of responses are modelled; in request cloning, nil headers, parameters and bodies. The sequential merger's request has parameters that are not nil: on a nil map the source panics at its first write.
- Data races of backends that keep and change a response after returning it: a delivered response is changed by the merger only.
- SequentialMerge.Transaction.Run: what the maps hold, and that recorded data are those delivered, is claimed when the backends' responses share no data map; order of calls, filters, channels, flags and verdict are claimed always. Backends that share the request may change its parameters in any way.
- SequentialLog.WholeResponseOfBackend: for a backend whose whole response goes by one name. Under two names (`resp0` and `resp00`) the second one gets what is left of the body after the first has read it, nothing (`WholeResponseArrives`). A reader that fails is never captured.
- ParallelMerge.Collect: on response objects that share an object or a data map, what the data are is not claimed.
- PathTemplate.FillingIsRightIff: for keys whose hole has no end that is also a start of it, as all keys without braces; with braces in a key two matches may overlap.
- UrlMappings.TemplateEndToEnd: for names that spell no hole and parameters that fill cleanly, which is exactly when every step of the rewriting and of the filling is right.
- ClonePool.ClonesAreFaithful: the clones of one request are made one after the other, as the loops of the source do; that a clone is itself cloned in a further call is the case of another request.
- RequestClone.CloneRequest: a reader that fails half-way delivers what it delivered until then, since the source ignores the error; closing the body is not modelled.
