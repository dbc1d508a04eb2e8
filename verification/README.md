# Verified models of xorbie

xorbie is a Kademlia library whose parts are state machines without clocks: `Advance(now, event)` changes
the machine and returns what its owner should do next. This project models the parts with the most state and
proves what they keep over every run.

Each stateful part is written twice. A class has the fields, loops and branches of the Go code; a module of
functions gives the step as a value. The class's methods are proved to take that step, and the theorems are
proved about the step and about runs of steps. The files named `Laws` say once more, without the functions that
define the step, what it does: which nodes are known, asked and reported, which regions there are, who waits
and until when.

| files | what they model |
|---|---|
| `Keys` | keys as bit strings, XOR distance, prefixes as regions; times with zero for none |
| `Lookup`, `LookupProofs`, `LookupResults`, `LookupRuns`, `LookupLaws`, `LookupAnswers`, `Query` | the iterative lookup, for the closest nodes or for a whole region |
| `PoolSpec`, `PoolProofs`, `PoolLaws`, `PoolBound`, `Pool` | the pool that runs many lookups under a bound |
| `RegionTable`, `RegionProofs`, `RegionLaws`, `RegionRuns`, `Table` | the map of regions, split and merged as surveys report |
| `Keystore` | the keys stored under the regions |
| `Heap`, `Schedule` | the indexed heap, and the survey schedule kept in one |
| `SurveySpec`, `SurveyProofs`, `SurveyLaws`, `SurveyWait`, `SurveyReach`, `SurveyExact`, `Survey` | surveying the regions in turn |
| `ProbeSpec`, `ProbeRuns`, `ProbeLaws`, `Probe` | connectivity checks of the routing table's nodes |
| `Explore` | the schedule for exploring the routing table's buckets |
| `Network`, `NetworkProofs`, `NetworkLaws` | request slots shared by goroutines, one queue a node |
| `Ready` | waking the event loop of the query behaviour |
| `OptimisticSpec`, `OptimisticLaws`, `Optimistic` | publishing a record while the walk towards its key is under way |

The main results, and what each of them joins:

- A lookup reports the right nodes. `LookupResults.ClosestCorrect` and `LookupResults.CoverageComplete` follow
  from an invariant of every run and, for regions, from `Keys.RegionPrecedesRest`.
  `LookupRuns.LookupTerminates`, `LookupRuns.AskedOnce` and `LookupResults.SleepIsSafe` hold whatever the events.
- A lookup ends when it must and not before. `LookupLaws.FinishesExactly` and `LookupLaws.AsksExactly` say when on
  the nodes alone. Through the pool and the survey, `PoolLaws.FinishedAnswered` and `SurveyLaws.FoundAnswered`
  say that whoever is reported has answered that very query, and `SurveyLaws.PollsEnd` that silence ends a survey.
- A survey records what there is. `SurveyProofs.SurveyRecordsWhatItFound` carries the lookup's result through
  the table's splits and merges to the population of each region.
- A due region is surveyed soon. `SurveyWait.BoundedWait` counts the regions that are due, a count that
  `SurveyWait.RaisedExactly` says exactly when a split or merge raises; `SurveyProofs.AlwaysAgrees` keeps the
  schedule and the map in step.
- `RegionLaws.MergesExactly` and `RegionLaws.SplitsExactly` say which regions a report leaves, from the leaves
  before it and the members found.
- The region map tiles the keyspace, conserves population and dates every region by its stalest key; with the
  key store, every stored key is published exactly once.
- `RegionRuns.NormalFormExactly`, `SurveyExact.NormalExactly`, `PoolBound.BoundExactly` and
  `SurveyExact.BoundExactly` give the exact condition for a property that nothing in the code enforces.
- No interleaving leaks a slot, exceeds a capacity, blocks on a queue or discards a request by eviction
  (`NetworkProofs`), requests are sent first in, first out (`NetworkLaws`), and no wake-up is lost (`Ready`).
  Goroutines are steps with a program counter; a step is what happens between two points at which another
  goroutine can be seen.
- Probe checks: `ProbeSpec.WakeUpIsExact`, `ProbeRuns.ChecksSpaced` and `ProbeLaws.NodeExactly`. Explore:
  `ExploreSpec.FirstRoundOrder`.
- An optimistic publish asks nobody twice and nobody without cause (`OptimisticSpec.NeverAskedTwice`,
  `OptimisticLaws.AskedForCause`), finishes (`OptimisticLaws.PublishFinishes`), and accounts for every node
  (`OptimisticSpec.FinishedAccount`).

The properties that nothing in the code enforces, in words:

- The region map's normal form takes 2 MinPopulation <= MaxPopulation, or a keyspace too small to split: no
  more than MaxPopulation keys, or one more where the reports are those of surveys, which never find self.
  `Config.Validate` asks only for MaxPopulation above MinPopulation.
- The pool's bound on active queries takes room for two. With room for one, the query an event was for is
  counted and then passed over with `continue`, which also passes over the check (`PoolBound.OneIsPassedOver`);
  a reply that comes twice is enough (`PoolBound.OneIsNotEnough`).
- A region due by D is picked before as many others as were due by D, unless a region due by D is split. That
  takes a survey that outlives its interval (`SurveyWait.ClearRuns`), and from any state where it can happen it
  can break the bound (`SurveyExact.BreaksExactly`). Over all runs the bound holds only where the keyspace is
  too small to split, self aside.

`dafny verify dfyconfig.toml` checks the whole project.

## Model

| member | source | states |
|---|---|---|
| `Keys.PrefixIsBall` | query/query.go:238-240 | A key shares at least p leading bits with the target exactly when its XOR distance is below the width of that region. |
| `Keys.RegionPrecedesRest` | query/query.go:339-372 | In XOR order every key of the target's region comes before every key outside it, which is what lets a coverage walk stop at the first node outside. |
| `Keys.SharedPrefixIsRegion` | query/query.go:212-240 | The test made on common prefix length is the test that a key carries the region's prefix. |
| `Keys.DistanceInjective` | query/iter.go:41-61 | Two nodes at the same distance from the target are the same node, so the walk's order has no ties. |
| `Clock.Earlier` | behaviour.go:121-132 | The earlier of two times where zero stands for none: it is zero only when both are, and otherwise is the least of those that are set. |
| `Lookup.InsertMembers` | query/iter.go:41-43 | Adding a node adds one uncontacted entry for an unknown key, keeps the existing entry of a known one, and touches no other. |
| `Lookup.InsertAscending` | query/iter.go:50-61 | Adding keeps the nodes in strictly ascending XOR distance, each key once. |
| `LookupProofs.AdvanceKeepsInv` | query/query.go:278-469 | Every advance keeps: inFlight is the number of Waiting nodes and at most Concurrency, Requests = Success + Failure + inFlight, self is not among the nodes, every request out has a deadline; and unless only the due time changes, it spends one of a bounded number of changes. |
| `LookupProofs.ApplyKeepsInv` | query/query.go:517-592 | A response or failure keeps the accounting, whether the node was waited for, given up on, never asked, already answered or unknown; one that has any effect uses up a change. |
| `LookupProofs.SweepKeepsInv` | query/query.go:341-358 | Giving up on expired requests keeps the accounting and uses up exactly one change for each request given up on. |
| `LookupResults.AsksNearest` | query/query.go:360-399 | The node a request goes to was not contacted before and is nearer to the target than every node still not contacted. |
| `LookupResults.ClosestCorrect` | query/query.go:401-432 | A closest-nodes query that finishes by itself reports the nearest min(NumResults, #Succeeded) nodes that succeeded, in strictly ascending distance; every known node it left open lies beyond a full list of results. |
| `LookupResults.CoverageComplete` | query/query.go:339-433 | A coverage query that finishes by itself reports exactly the nodes of the region that succeeded, and every node of the region it heard of is resolved. |
| `LookupResults.ReportableAscending` | query/query.go:487-514 | The reported nodes are in strictly ascending distance and none lies beyond the part of the list they were taken from. |
| `LookupResults.ReportedDistinct` | query/query.go:487-514 | A query that finishes by itself reports nobody twice. |
| `LookupResults.SleepIsSafe` | query/query.go:439-458 | After either waiting report, NextDue is the least deadline of the Waiting nodes, and a poll at any time up to it changes nothing and reports the same. |
| `LookupRuns.LookupTerminates` | query/query.go:278-469 | Whatever the events, among n nodes a query's state changes at most 4n + 1 times, not counting changes to nothing but the recorded wake-up time. |
| `LookupRuns.AskedOnce` | query/query.go:257-266 | Over any run no node is sent two requests and self is sent none, and the Requests counter is the number of nodes asked. |
| `LookupRuns.FinishedIsFinal` | query/query.go:285-292 | A finished query never changes again and asks nobody, whatever happens. |
| `LookupRuns.FinishReported` | query/query.go:285-292 | The result a query finishes with is the one it reports to every later event. |
| `LookupLaws.LearnedExactly` | query/query.go:517-592 | Which nodes are known, and how, after an answer or a failure: an answer counts from a node waited for or given up on, and so do the nodes it names but self; a failure from any node that has not answered or failed. |
| `LookupLaws.NodesExactly` | query/query.go:339-419 | An advance leaves each of these nodes as it was, given up on if its request has expired and the walk reaches it, or asked; nothing else. |
| `LookupLaws.FinishesExactly` | query/query.go:354-469 | A query finishes if and only if its search is over: every node is resolved; or, for the closest, NumResults have answered with every nearer node resolved; or, for a region, the nearest node to ask lies outside, every nearer one is resolved, and a member was found or NumResults have answered. |
| `LookupLaws.CoverageFinishes` | query/query.go:378-392 | A coverage query that finishes by itself has resolved every node it knows, or reports somebody, or had NumResults nodes answer. |
| `LookupLaws.CoverageAsksBeyond` | query/query.go:378-419 | It asks a node outside its region only while a nearer one is waited for, or when no nearer member was found and fewer than NumResults nearer nodes have answered. |
| `LookupLaws.AsksExactly` | query/query.go:393-458 | A query that goes on asks if and only if there is a node to ask and room for a request, and otherwise waits, at capacity exactly when there is no room. |
| `LookupLaws.CountersExactly` | query/query.go:394-401 | What an advance adds to Requests, Success and Failure, and when start, end, deadline and due time are set: the deadline is Timeout after the first request. |
| `LookupLaws.CancelReports` | query/query.go:295-302 | A cancelled query finishes with the nearest nodes that have answered, or the members that have. |
| `LookupLaws.OnlyAnswersSucceed` | query/query.go:517-544 | A node comes to count as answered only on its own answer, and only such nodes are reported. |
| `LookupLaws.AnswerNoted` | query/query.go:517-592 | A node waited for has answered after its answer and failed after its failure; one that has done either stays so. |
| `LookupLaws.PollAsksOne` | query/query.go:393-419 | A poll that asks leaves exactly one node fewer to be asked. |
| `Query.ClosestNodesIter.Add` | query/iter.go:41-43 | The loop that finds the place and splices the node in leaves the list that Insert describes. |
| `Query.ClosestNodesIter.Find` | query/iter.go:45-48 | Finds the one entry for a key, or reports that there is none. |
| `Query.ClosestNodesIter.SetState` | query/query.go:341-358 | Changes the state of one entry and nothing else. |
| `Query.Query.constructor` | query/query.go:250-276 | A new query knows its seeds without self, each once in order, and has sent nothing. |
| `Query.Query.Advance` | query/query.go:278-469 | The walk over the mutable node list computes exactly the step that the lookup theorems are about. |
| `Query.Query.DoWalk` | query/query.go:330-433 | The walk's loop, with its counters updated as it goes, stops where and as the step says. |
| `Query.Query.Visit` | query/query.go:339-432 | One node of the walk: it is passed over, given up on, asked, or ends the query, as its state and the counters so far require. |
| `Query.Query.AfterWalk` | query/query.go:435-469 | Past the last node visited the query waits at or with capacity, or finishes, according to what is in flight. |
| `Query.Query.MarkFinished` | query/query.go:487-514 | Records the end time once, clears the due time and computes the results. |
| `Query.Query.OnNodeResponse` | query/query.go:517-562 | Closer nodes are added without self and the node succeeds if it was waited for or given up on; any other response changes nothing. |
| `Query.Query.OnNodeFailure` | query/query.go:565-592 | The node fails unless it has already answered; the counters change only if it was waited for. |
| `Query.Query.EarliestNodeDeadline` | query/query.go:475-485 | The earliest deadline over the Waiting nodes, zero when there are none. |
| `Query.Query.GiveUpOn` | query/query.go:341-358 | An expired request frees its slot, counts as a failure and leaves the node unresponsive. |
| `Query.Query.Contact` | query/query.go:374-399 | A request to a node takes a slot, sets the node's deadline and, if it is the first, the query's own. |
| `RegionProofs.Tiling` | prefix/table.go:141-150 | Every key falls in exactly one region: the one Locate finds is named by the trie, and no other region's prefix is carried by the key. |
| `RegionProofs.PrefixFree` | prefix/table.go:153-166 | No region's prefix extends another's. |
| `RegionProofs.RegionsAreLeaves` | prefix/table.go:153-166 | Regions lists exactly the leaves, each with its own prefix, population and freshness. |
| `RegionProofs.PrefixesAreLeaves` | prefix/table.go:260-273 | The list of leaf prefixes holds exactly the prefixes that name a region. |
| `RegionProofs.ObserveDepth` | prefix/table.go:188-242 | No split goes deeper than a key's length. |
| `RegionProofs.AppliedIffNamed` | prefix/table.go:188-204 | A report is applied exactly when its prefix names a region. |
| `RegionProofs.PopulationConserved` | prefix/table.go:188-242 | An applied report changes the total population by exactly the members found less the region's old population, through any split and any cascade of merges. |
| `RegionProofs.BuildLeafCounts` | prefix/table.go:227-242 | Each leaf of a surveyed region holds exactly the members that lie under it, with the time of the survey. |
| `RegionProofs.EveryRegionAfter` | prefix/table.go:188-242 | What every region of the table is after an applied report: at or below the reported prefix, exactly the members under it; above it, the sum of what it merged; anywhere else, as it was. |
| `RegionProofs.ObserveFresh` | prefix/table.go:206-222 | Each leaf's lastSurveyed stays the least, over the keys of its region, of the time each was last covered. |
| `RegionProofs.ObserveNormal` | prefix/table.go:208-242 | With 2 MinPopulation <= MaxPopulation a report leaves no two sparse surveyed sibling leaves and no leaf over MaxPopulation that could still be split. |
| `RegionProofs.OnlySurveyedSplits` | prefix/table.go:188-222 | A report leaves every other region whole: it stays, or is taken into a larger one. |
| `RegionProofs.NothingFiner` | prefix/table.go:227-242 | A report that does not split its region leaves no region finer than those before it. |
| `RegionProofs.SplitAlone` | prefix/table.go:206-222 | A report that splits its region changes no other: the regions after it are the parts and the rest, and nothing merges. |
| `RegionProofs.MergedWereSurveyed` | prefix/table.go:208-222 | Only regions that a survey has reported on are merged, and what they merge into counts as surveyed. |
| `RegionLaws.MergesExactly` | prefix/table.go:208-222 | How far a reported region merges, from the leaves beside it alone: level by level while its sibling is a surveyed leaf of at most MinPopulation and so is what it has become, and no further; it then holds the sum, and every region outside it is as it was. |
| `RegionLaws.SameRegions` | prefix/table.go:208-242 | A report of more than MinPopulation and at most MaxPopulation members leaves the same prefixes naming regions. |
| `RegionLaws.MergesExactlyWhenSparse` | prefix/table.go:208-257 | A reported region merges with its sibling if and only if both are surveyed leaves of at most MinPopulation. |
| `RegionLaws.MergedIsSmall` | prefix/table.go:208-222 | A region that a report makes by merging lies above the reported one and holds at most twice MinPopulation. |
| `RegionLaws.PartsExactly` | prefix/table.go:227-242 | The parts of a region that splits are the shortest prefixes with at most MaxPopulation of its members, or whole keys. |
| `RegionLaws.SplitsExactly` | prefix/table.go:206-242 | After a report that splits its region, those parts name regions there and everywhere else the same prefixes do. |
| `RegionRuns.TilingAndFreshness` | prefix/table.go:173-222 | After any sequence of reports the regions tile the keyspace and each region's freshness is the coverage of its stalest key. |
| `RegionRuns.LocateFindsTheRegion` | prefix/table.go:141-166 | After any reports Locate(k) is the one element of Regions whose prefix k carries. |
| `RegionRuns.DiffCoversSameKeys` | prefix/table.go:276-296 | The removed regions and the added ones cover the same keys. |
| `RegionRuns.PrefixesDistinct` | prefix/table.go:260-273 | Each leaf prefix is listed once and there is at least one. |
| `RegionRuns.NormalFormExactly` | prefix/table.go:60-65 | Over all sequences of survey reports, each of distinct nodes of the region it is about, the table is in normal form if and only if 2 MinPopulation <= MaxPopulation or the whole keyspace has no more than MaxPopulation keys; the Max > Min that Validate asks for does not give it. |
| `RegionRuns.AlwaysNormal` | prefix/table.go:208-242 | With 2 MinPopulation <= MaxPopulation the table is in normal form after any reports, of whatever members. |
| `RegionRuns.SmallAlwaysNormal` | prefix/table.go:227-242 | So it is where the keyspace, less a key that is never reported if there is one, has no more than MaxPopulation keys, after any survey reports; and no region is recorded as holding more than its width, less that key. |
| `RegionRuns.AbnormalReports` | prefix/table.go:208-242 | For every other configuration, survey reports that break the normal form: the map merges into one region, which then splits into two sparse halves. |
| `RegionRuns.RegionHolds` | prefix/table.go:227-242 | Distinct members of a region are no more than the region's width. |
| `Table.Table.constructor` | prefix/table.go:109-138 | A new table is a full trie of the initial depth with no region surveyed. |
| `Table.Table.Locate` | prefix/table.go:141-150 | The loop down the trie ends at the region that holds the key. |
| `Table.Table.Observe` | prefix/table.go:173-184 | Replaces the root by the trie with the report applied, and returns the exact differences of the leaf lists, in order. |
| `Table.DiffPrefixes` | prefix/table.go:276-296 | The two passes over sets give the prefixes only in the old list and those only in the new one. |
| `Keystore.KeysUnder` | keystore/keystore.go:68-85 | The walk down to the prefix collects the keys stored under it. |
| `Keystore.UnderIsFilter` | keystore/keystore.go:68-110 | A key is yielded under a prefix exactly when it is one of the keys in the trie and carries that prefix. |
| `Keystore.EveryKeyOnce` | keystore/keystore.go:68-110 | The keys of the regions below a prefix, region after region, are the keys under that prefix in order, none twice and none left out. |
| `Keystore.UnderInOrder` | keystore/keystore.go:68-96 | The keys yielded for a prefix are in ascending order. |
| `Keystore.AllRegionsYieldAllKeys` | keystore/keystore.go:68-96 | Over all regions of a table the keys yielded are exactly the keys in the trie, in ascending order and each once. |
| `HeapOrder.RootIsLeast` | publish/survey.go:670-687 | In an ordered heap nothing comes before the entry at the root. |
| `HeapOrder.MoveUp` | publish/survey.go:682-693 | Swapping an entry with its parent moves the only violation of heap order up. |
| `HeapOrder.MoveDown` | publish/survey.go:682-693 | Swapping an entry with its lesser child moves the only violation of heap order down. |
| `Heap.Heap.Swap` | publish/survey.go:689-693 | Swaps two entries and keeps every entry's recorded index right. |
| `Heap.Heap.Push` | publish/survey.go:695-699 | Adds one entry and restores order and indices. |
| `Heap.Heap.Fix` | publish/survey.go:634-648 | After one entry's rank has changed, restores order with the same entries, every index right. |
| `Heap.Heap.Remove` | publish/survey.go:651-658 | Takes out the entry at an index and leaves the rest ordered and indexed. |
| `Heap.Heap.Pop` | routing/probe.go:647-658 | Drops the last entry and marks it as in no heap. |
| `Schedule.DueLessOrders` | publish/survey.go:682-687 | Due time first and prefix second is a strict weak order, as a heap needs. |
| `Schedule.StringLessExactly` | publish/survey.go:682-687 | A prefix comes before those that extend it and those it parts from at a bit that it has clear. |
| `Schedule.RegionSchedule.Add` | publish/survey.go:634-643 | Schedules a region or moves one already scheduled; no other due time changes, and index, entry and heap position stay in step. |
| `Schedule.RegionSchedule.Remove` | publish/survey.go:651-658 | Takes exactly that region off the schedule, and nothing if it is not on it. |
| `Schedule.RegionSchedule.DueOf` | publish/survey.go:661-667 | The due time of a scheduled region, or none. |
| `Schedule.RegionSchedule.Peek` | publish/survey.go:670-675 | A region of least due time, the least prefix among equals; none exactly when nothing is scheduled. |
| `SurveySpec.FirstUnique` | publish/survey.go:373-387 | The region picked is determined by the due times alone. |
| `SurveySpec.ReportedKeys` | publish/survey.go:439-486 | The members a finished survey hands to the table are keys of the keyspace. |
| `SurveyProofs.SeededAgrees` | publish/survey.go:392-406 | Seeding schedules exactly the table's regions, each due within one interval from now. |
| `SurveyProofs.RescheduledAgrees` | publish/survey.go:491-516 | After a report the schedule again holds exactly the table's regions, and a region in both keeps its due time. |
| `SurveyProofs.TakenOver` | publish/survey.go:491-516 | Every added region takes over the due time of a removed region it overlaps, the least among those. |
| `SurveyProofs.SplitInheritsMergeTakesLeast` | publish/survey.go:491-516 | A part of a split region inherits its due time; a merged region takes the least due time of all it replaced. |
| `SurveyProofs.ScheduleAgrees` | publish/survey.go:334-388 | Every advance leaves the scheduled regions equal to the table's leaf prefixes, and a survey under way on a region the table names. |
| `SurveyProofs.AlwaysAgrees` | publish/survey.go:334-388 | In every reachable state after the first advance the schedule's domain is the set of leaf prefixes and every due time is set. |
| `SurveyProofs.SurveyRecordsWhatItFound` | publish/survey.go:439-486 | A survey that finishes reports exactly the nodes of its region that answered, with every node of the region heard of resolved; the table then holds, in each region it made of that one, the nodes found there, and its population changes by the number found less what the region held. |
| `SurveyProofs.ReportsOfRun` | publish/survey.go:439-486 | The map a run of surveys leads to is the one a sequence of reports leads to, each of distinct nodes of the region it is about, never self. |
| `SurveyProofs.AlwaysNormal` | publish/survey.go:439-486 | Within these limits, 2 MinPopulation <= MaxPopulation or no more than MaxPopulation + 1 keys in the keyspace, the map is in normal form in every reachable state: a survey never finds self. |
| `SurveyWait.ObserveKeepsBound` | publish/survey.go:491-516 | Recording a survey of a region that is due after D, or is not split, never raises the number of regions due by D, through any merge. |
| `SurveyWait.SplitRaises` | publish/survey.go:491-516 | Splitting a region due by D raises it: the parts are due with it and no other region changes. |
| `SurveyWait.RaisedExactly` | publish/survey.go:491-516 | Recording a survey of p raises the number of regions due by D if and only if p is due by D, is shorter than a key, and more than MaxPopulation members were found. |
| `SurveyWait.StillPending` | publish/survey.go:491-516 | Whatever is split or merged, the region that holds a key is due no later than the region that held it before. |
| `SurveyWait.StepRaisesExactly` | publish/survey.go:334-388 | In every reachable state an advance at or after D raises the number of regions due by D if and only if it records a survey that splits a region due by D. |
| `SurveyWait.StepKeepsBound` | publish/survey.go:373-387 | An advance that does not pick the region of k leaves it due by D; the number of regions due by D drops with every region picked and rises by no more than such a split adds. |
| `SurveyWait.BoundedWait` | publish/survey.go:373-387 | Over any run from any reachable state, once k's region is due it is picked before as many others as were due with it and as splits of due regions have added, even if it is split or merged meanwhile; and if no due region is split, before as many others as were due with it. |
| `SurveyWait.NeverRaised` | publish/survey.go:373-387 | A run raises the number of regions due if and only if some step of it splits a region that is due. |
| `SurveyWait.ClearRuns` | publish/survey.go:373-387 | A run that starts with no survey under way, or one of a region not yet due again, never does. |
| `SurveyLaws.AdvanceExactly` | publish/survey.go:334-388 | One advance in full: a survey under way gets the event as what it is; otherwise the region due first is put off by one interval and its survey starts, or is reported to have failed; or the survey is idle until the first due time. Due times are seeded once, the i-th region at i / n of the interval. |
| `SurveyLaws.QueryExactly` | publish/survey.go:439-486 | What each report of the query leads to: one that asks goes on; one that finishes is recorded; one that waits past its deadline is given up, with map and due times as they were; one that waits in time goes on, until the earlier of its deadline and its requests' deadlines. |
| `SurveyLaws.LaunchedFresh` | publish/survey.go:409-437 | A survey starts as a coverage query of the region's length for the key minted, with the survey's own bounds and timeouts, knowing its seeds but self and having asked nobody. |
| `SurveyLaws.FirstExactly` | publish/survey.go:682-687 | The region picked is due no later than any other and comes first as a string of those due with it. |
| `SurveyLaws.WaitingMeans` | publish/survey.go:466-483 | If an advance reports Waiting, a survey is under way and now is no later than RegionTimeout after its first request. |
| `SurveyLaws.Overdue` | publish/survey.go:467-483 | Past that time a survey asks once more, is recorded, or is reported as timed out, and never waits; when it times out none is under way and map and due times are unchanged. |
| `SurveyLaws.PollsEnd` | publish/survey.go:466-483 | Over any run, polls alone end a survey whose nodes stay silent: past its time it takes no more polls than it has nodes still to be asked, and one. |
| `SurveyLaws.FoundAnswered` | publish/survey.go:347-366 | Over any run from the start, every node that a survey finds in its region has answered that very survey. |
| `SurveyLaws.AlwaysBegun` | publish/survey.go:409-437 | Over any run a survey under way has asked somebody, and its deadline is RegionTimeout after that. |
| `SurveyLaws.SurveySleeps` | publish/survey.go:373-387 | A poll before the time that a waiting or idle report gives changes nothing and reports the same. |
| `LookupAnswers.OneMoreAnswer` | query/query.go:278-469 | In a query for all nodes that none has failed or timed out, an answer leaves it with one fewer to come, and finishes it only when it was the last. |
| `LookupAnswers.AnswerNames` | query/query.go:517-562 | An answer that names an unknown node keeps such a query going, and it then knows all it knew and all that were named, self aside. |
| `LookupAnswers.LastAnswer` | query/query.go:435-469 | The last answer to come finishes the query with every node it knows, however late it is. |
| `SurveyReach.OneRegion` | prefix/table.go:208-222 | From the start of any configuration, surveys that find nobody lead to a map of one region. |
| `SurveyReach.Finds` | publish/survey.go:409-437 | From there any nodes but self can be what a survey is about to find, with one answer still to come: it is seeded with one of them, which names the others. |
| `SurveyReach.LastFinds` | publish/survey.go:439-486 | That answer, at any time, finishes the survey with exactly those nodes, and the map and schedule record them. |
| `SurveyExact.NormalExactly` | prefix/table.go:60-65 | The map is in normal form in every state that a run of surveys leads to, in order of time, if and only if 2 MinPopulation <= MaxPopulation or the keyspace has no more than MaxPopulation + 1 keys. |
| `SurveyExact.SplitBreaksBound` | publish/survey.go:373-387 | A run that splits a region due by D continues to one that leaves some region due by D waiting while as many others are picked as were due by D at first. |
| `SurveyExact.BreaksExactly` | publish/survey.go:373-387 | From any reachable state, some run leaves a region waiting so if and only if some run splits a region due by D. |
| `SurveyExact.BoundExactly` | publish/survey.go:373-387 | In every reachable state and over every run from there, a region due by D is picked before as many others as were due by D, if and only if the keyspace has no more than MaxPopulation + 1 keys. |
| `Survey.Survey.constructor` | publish/survey.go:192-312 | A new survey has an empty schedule, no query and the given table. |
| `Survey.Survey.Advance` | publish/survey.go:334-388 | The class, its heap, index map, table and query together take exactly the step the survey theorems are about. |
| `Survey.Survey.StartDue` | publish/survey.go:373-387 | With nothing running, reports when the first region is due or puts it off by one interval and starts its survey. |
| `Survey.Survey.SeedSchedule` | publish/survey.go:392-406 | The loop spreads the regions over one interval from now, once. |
| `Survey.Survey.StartSurvey` | publish/survey.go:409-437 | Starts a coverage query for the region, or reports failure when no key inside it can be had. |
| `Survey.Survey.AdvanceQuery` | publish/survey.go:439-486 | Advances the query and records, times out or waits as its report requires. |
| `Survey.Survey.Conclude` | publish/survey.go:446-485 | Each of the query's reports leads to the survey's own report and change of state. |
| `Survey.Survey.Reconcile` | publish/survey.go:491-516 | The two loops, one computing the due times taken over and one editing the heap and the map, leave the due times Reconciled describes. |
| `Survey.Survey.LeastDue` | publish/survey.go:494-507 | The least due time over the removed regions that overlap an added one. |
| `Survey.Survey.ClearQuery` | publish/survey.go:518-523 | Drops the query and the region it was for. |
| `ProbeSpec.AdvanceKeepsInv` | routing/probe.go:209-337 | Every advance keeps the partition: a monitored node is pending or being checked, not both; checks under way are distinct and at most Concurrency; monitored nodes are in the routing table. |
| `ProbeSpec.AlwaysPartitioned` | routing/probe.go:209-337 | The partition holds in every state of every run, with other hands adding to the routing table meanwhile. |
| `ProbeSpec.AdvanceExists` | routing/probe.go:592-605 | There is always a node that comes first, so an advance is always possible. |
| `ProbeSpec.NextDeadlineIsLeast` | routing/probe.go:577-590 | The least deadline of the checks under way, zero exactly when there are none. |
| `ProbeSpec.WakeUpIsExact` | routing/probe.go:303-337 | After a waiting or idle report NextDue is zero or later than now; a poll before it, or any poll when it is zero, changes nothing; a poll at or after it fails an expired check or starts a due one. |
| `ProbeRuns.ChecksSpaced` | routing/probe.go:219-301 | Over any run no node is checked within one check interval of its last check, or of the probe's having heard from it. |
| `ProbeLaws.NodeExactly` | routing/probe.go:219-337 | What one advance does to any node: it leaves the list and the routing table only on Remove, on a failed check, or when it is reported for a check it has not answered in time; a monitored node heard from is next due exactly one interval from now; a check begins for a node that is due; any other node is as it was. |
| `ProbeLaws.OutcomeExactly` | routing/probe.go:303-337 | Which report is made: a lapsed check first; then WaitingAtCapacity if as many are being checked as may be; then a check of a node that is due, of those due first, and of these the closest to self; then waiting or idle. |
| `ProbeLaws.AlwaysClose` | routing/probe.go:219-236 | The closeness recorded for a monitored node is the common prefix length of its key and self. |
| `Probe.NodeValueList.Put` | routing/probe.go:467-488 | The node takes the new value, waits in the heap at its recorded index, and is no longer among the checks under way. |
| `Probe.NodeValueList.Get` | routing/probe.go:490-497 | The value held for a node, or none. |
| `Probe.NodeValueList.Remove` | routing/probe.go:513-524 | The node leaves the map, the heap and the checks under way. |
| `Probe.NodeValueList.RemoveFromOngoing` | routing/probe.go:545-560 | Removes one entry by moving the last into its place. |
| `Probe.NodeValueList.FindCheckPastDeadline` | routing/probe.go:528-543 | The first check under way that is past its deadline, or none. |
| `Probe.NodeValueList.NextDeadline` | routing/probe.go:577-590 | The loop finds the least deadline of the checks under way. |
| `Probe.NodeValueList.NextDue` | routing/probe.go:566-573 | The earlier of the head's due time and the least deadline. |
| `Probe.NodeValueList.PeekNext` | routing/probe.go:592-605 | The pending node that comes first, if it is due. |
| `Probe.NodeValueList.MarkOngoing` | routing/probe.go:609-619 | Moves a pending node from the heap to the checks under way with its deadline. |
| `Probe.Probe.constructor` | routing/probe.go:154-206 | A new probe monitors nothing. |
| `Probe.Probe.Advance` | routing/probe.go:209-337 | The class takes a step the probe theorems are about. |
| `Probe.Probe.Note` | routing/probe.go:219-301 | Adding, success, a dropped check and a notification each put the node's next check off by one interval, if it is monitored or to be. |
| `Probe.Probe.DropNode` | routing/probe.go:245-251 | The node leaves the routing table and the list. |
| `Probe.Probe.Housekeep` | routing/probe.go:303-337 | One expired check is failed; otherwise, below capacity, one due check is started; otherwise the wait is reported. |
| `NetworkProofs.StepKeepsInv` | network.go:283-524 | Every atomic step of Notify, a handler's run loop, idle eviction and Close keeps the slot accounting. |
| `NetworkProofs.AlwaysInv` | network.go:189-219 | The slot accounting holds in every state of every interleaving. |
| `NetworkProofs.SlotsConserved` | network.go:189-219 | In every state the global count is the number of requests holding a slot and within Capacity, each node's count is its own holders and within NodeCapacity, and an accepted request holds both until it is sent or discarded, between whose two releases it holds the global one. |
| `NetworkProofs.NoSlotLeaks` | network.go:401-456 | When nothing is under way no slot is held, and every accepted request was sent or discarded. |
| `NetworkProofs.SendNeverBlocks` | network.go:435-450 | Whenever a caller of Notify has both slots its handler's queue has room. |
| `NetworkProofs.EvictionDiscardsNothing` | network.go:298-310 | An accepted request is discarded only by closing the behaviour; a handler evicted as idle has an empty queue and its goroutine asks for nothing but the eviction. |
| `NetworkProofs.ClosedStaysEmpty` | network.go:510-524 | A handler once closed never again holds a queued request. |
| `NetworkProofs.GiveBackKeepsInv` | network.go:435-450 | The global slot given back when the node is full was held. |
| `NetworkProofs.FinishSendKeepsInv` | network.go:401-425 | A node slot released after a send was held by the request sent. |
| `NetworkProofs.FinishReleaseKeepsInv` | network.go:453-456 | So was the global slot. |
| `NetworkProofs.DrainNodeKeepsInv` | network.go:510-524 | A node slot released while draining a closed handler was held by the request drained. |
| `NetworkProofs.DrainGlobalKeepsInv` | network.go:510-524 | So was the global slot. |
| `NetworkProofs.RemoveKeepsInv` | network.go:298-310 | Taking an idle handler out of the map loses no slot and no request. |
| `NetworkProofs.LockHolderCanMove` | network.go:283-350 | Whoever holds the behaviour's mutex can always take its next step: no deadlock. |
| `NetworkProofs.NotifyIsShort` | network.go:283-293 | A caller of Notify gives the mutex back after a bounded number of its own steps. |
| `NetworkLaws.FirstInFirstOut` | network.go:401-450 | A node's requests leave the queue in the order in which they were accepted, through whatever handlers the node has had meanwhile. |
| `NetworkLaws.SendsFirst` | network.go:401-425 | What a handler begins to send was the first of its queue. |
| `NetworkLaws.AlwaysOneLive` | network.go:283-310 | In every state a node has at most one handler that is not stopped. |
| `NetworkLaws.SentToItsNode` | network.go:283-293 | A request is queued with, and sent by, only a handler of the node it was handed over for. |
| `NetworkLaws.RefusedWhenFull` | network.go:435-450 | A request is refused exactly when as many requests hold a slot as may, of all or of its handler's. |
| `NetworkLaws.EvictedWhenIdle` | network.go:298-310 | A handler that asks to be evicted is, exactly when it is still its node's and no request holds a slot of it; otherwise it goes on. |
| `NetworkLaws.CloseStopsAll` | network.go:342-350 | When Close ends every handler is stopped with an empty queue, and no node has one. |
| `Ready.PerformKeepsInv` | query.go:280-314 | The loop's steps from waking to advancing the pool keep the wake-up invariant. |
| `Ready.FinishKeepsInv` | query.go:444-456 | So do its last steps: a token is put back, or the timer armed, as the work left requires. |
| `Ready.OtherStepKeepsInv` | query.go:230-245 | So does every step of a caller of Notify or of the timer. |
| `Ready.NoLostWakeUp` | query.go:444-524 | In every interleaving, when nobody is mid-step, work that is pending implies a ready token; with no token, the pool's last advance was a poll, and the timer is armed for the NextDue it gave, or that was zero. |
| `Ready.EventsInOrder` | behaviour.go:40-73 | The events accepted are the events performed followed by those still queued, in order, and the queue never exceeds its capacity. |
| `Ready.OutboundFirst` | query.go:298-322 | Every outbound event is handed out once, and an inbound event is taken only when none waits. |
| `Ready.PerformIsShort` | query.go:280-314 | A Perform takes at most eight steps, to which no other goroutine adds. |
| `ExploreSpec.CplInterval` | routing/explore.go:601-606 | The interval for a bucket is never below the base interval, whatever the jitter. |
| `ExploreSpec.HeadHasTurn` | routing/explore.go:454-461 | In the first round the entry at the head is the bucket whose turn it is. |
| `ExploreSpec.RunInFirstRound` | routing/explore.go:565-598 | For any call times, whatever the jitter, the first maxCpl+1 returns are each bucket once. |
| `ExploreSpec.FirstRoundOrder` | routing/explore.go:565-598 | The order of the first round: descending when the interval is at least maxCpl+1 ticks, ascending when it is less and all start due together. |
| `ExploreSpec.ReturnsSpaced` | routing/explore.go:588-606 | Returns of one bucket are at least interval * (1 + (maxCpl - cpl) * multiplier), rounded down, apart. |
| `ExploreSpec.CallExactly` | routing/explore.go:588-606 | One call returns the bucket due first, the lowest of those due together, exactly when it is due, and puts it and no other off by interval * (1 + (maxCpl - cpl) * multiplier), and at most interval * jitter more. |
| `ExploreSpec.FirstRoundSpread` | routing/explore.go:565-575 | At first neighbouring buckets are due an equal share of one interval apart, the highest one share after the start and all within the interval. |
| `Explore.DynamicExploreSchedule.constructor` | routing/explore.go:536-578 | The heap starts with every bucket once, the due times spread over the interval. |
| `Explore.DynamicExploreSchedule.NextDue` | routing/explore.go:581-586 | The least due time of all buckets. |
| `Explore.DynamicExploreSchedule.NextCpl` | routing/explore.go:588-598 | Returns a bucket of least due time if it is due and puts that one off by its interval; no other due time changes and every bucket stays in the heap. |
| `PoolProofs.AdvanceOk` | query/pool.go:113-193 | With room for two or more, every advance leaves the queries with requests out a prefix of the list no longer than Concurrency, ids distinct; Idle is reported only when the pool is empty, and after a waiting report each of these queries waits within its deadline. |
| `PoolProofs.PollFromOk` | query/pool.go:167-193 | The loop over the list keeps the bound, and waits only when all that could be advanced has been. |
| `PoolProofs.PoolSleeps` | query/pool.go:203-216 | After a waiting report, NextDue is at or before every query's due time and deadline, and a poll up to it changes nothing and reports the same. |
| `PoolProofs.AlwaysBounded` | query/pool.go:113-193 | The bound holds in every state of every run. |
| `PoolProofs.NextDueIsLeast` | query/pool.go:203-216 | The pool's due time is at or before every query's. |
| `PoolProofs.NextDueAttained` | query/pool.go:203-216 | It is the due time or the deadline of one of them, and zero only when none has either. |
| `PoolLaws.AdvanceExactly` | query/pool.go:113-265 | One advance in full: the query an event is for gets it as what it is, and any other is polled or left alone; each that is advanced asks and is reported, finishes or is past its deadline and leaves, or waits in time; and the report is one query's, unless the pool waits or is idle. |
| `PoolLaws.ReplyNoted` | query/pool.go:138-159 | After a reply from a node waited for, its query has it as answered or failed, as the reply says, or is gone. |
| `PoolLaws.FinishedAnswered` | query/pool.go:138-159 | Over any run from an empty pool, every node that QueryFinished reports has answered that very query. |
| `PoolLaws.StopReports` | query/pool.go:130-137 | A query stopped leaves the pool and reports the nearest nodes that have answered it. |
| `PoolLaws.AddedExactly` | query/pool.go:293-346 | A query of an unused id joins the end of the list as it was asked for, with 20 results if no number was given and the pool's bounds and timeouts, knowing its seeds but self and having asked nobody. |
| `PoolLaws.AlwaysAsAdded` | query/pool.go:293-346 | Over any run from an empty pool, every query in it is as the event that added it asked. |
| `PoolBound.OneIsPassedOver` | query/pool.go:167-185 | With room for one, a reply that leaves its query waiting is passed over without the bound being checked, and the next query starts. |
| `PoolBound.OneIsNotEnough` | query/pool.go:167-185 | For every pool with room for one, a run in which only nodes that were asked reply, one of them twice, and two queries come to have requests out. |
| `PoolBound.BoundExactly` | query/pool.go:167-185 | Over all runs the bound holds if and only if Concurrency is at least two, whether any node may reply to a started query or only one it has asked. |
| `Pool.Pool.constructor` | query/pool.go:97-110 | A new pool is empty. |
| `Pool.Pool.Advance` | query/pool.go:113-193 | List, index and counter together take exactly the step the pool theorems are about. |
| `Pool.Pool.AdvanceQuery` | query/pool.go:218-265 | Advances one query, and removes it when it finishes or is past its deadline. |
| `Pool.Pool.RemoveQuery` | query/pool.go:267-279 | Takes one query out of the list and the index, the others keeping their order. |
| `Pool.Pool.NextDue` | query/pool.go:203-216 | The loop finds the earliest due time or deadline. |
| `Pool.Pool.Add` | query/pool.go:293-346 | A query of an unused id joins the end of the list; one of a used id changes nothing. |
| `Pool.Pool.PollList` | query/pool.go:167-193 | The loop over the list computes the poll. |
| `OptimisticSpec.NeverAskedTwice` | publish/optimistic.go:264-342 | No node is asked twice, whatever happens: a stop, and outcomes nobody waits for, included. |
| `OptimisticSpec.AlwaysAskedOnce` | publish/optimistic.go:264-342 | Over every run on any inputs, found nodes lie in strictly ascending distance without repeats and the nodes asked are distinct and were found. |
| `OptimisticSpec.StoresOnce` | publish/optimistic.go:264-342 | With nothing stopped and one outcome for a node asked: at Finished every node found that was near enough on its own has been asked, Errors names only nodes asked, and nothing is open. |
| `OptimisticSpec.FinishedAccount` | publish/optimistic.go:264-342 | Over any run, the nodes contacted at Finished are, each once, those that stored the record and those that refused it; Errors is exactly the latter; and whenever the walk ended, the ReplicationFactor nodes nearest at that moment are among them. |
| `OptimisticSpec.AlwaysAccounted` | publish/optimistic.go:347-400 | In every state of every run, whatever the query pool reports: found nodes lie in strictly ascending distance without repeats, and each node asked has stored the record, refused it, or is waited for. |
| `OptimisticSpec.Remembers` | publish/optimistic.go:447-471 | Every node named in a response or as a seed is found, and stays found. |
| `OptimisticSpec.NearestIsNearest` | publish/optimistic.go:495-516 | The nodes to be asked at the end of a walk are the ReplicationFactor nearest found, or all if fewer. |
| `OptimisticSpec.WalkEndsAtNearest` | publish/optimistic.go:495-516 | When the walk ends, the nodes nearest at that moment have been asked or are queued. |
| `OptimisticSpec.OwedEverAfter` | publish/optimistic.go:495-516 | They stay so in every later state. |
| `OptimisticLaws.AdvanceExactly` | publish/optimistic.go:264-443 | One advance in full: which nodes are found and queued after the event, whether the walk is abandoned, whether the query pool is consulted and what its report adds, and then what is reported: the pool's request, the end of a stopped publish, a queued node to ask, the wait, or the end. |
| `OptimisticLaws.WalkEnds` | publish/optimistic.go:428-435 | On every event but a store's outcome and a stop, a report that the walk has finished or timed out ends it; every node with fewer than ReplicationFactor nearer ones has then been asked or is queued. |
| `OptimisticLaws.ThresholdExactly` | publish/optimistic.go:479-490 | The walk is abandoned early if and only if at least ReplicationFactor nodes are known and the distances of the nearest, together, are below ReplicationFactor times the set threshold. |
| `OptimisticLaws.AskedForCause` | publish/optimistic.go:447-516 | Over any run on any inputs, a node is asked, or queued, only if it is near enough on its own or was among the ReplicationFactor nearest when the walk was over. |
| `OptimisticLaws.PublishFinishes` | publish/optimistic.go:312-342 | Over any run that nothing stops: once the walk is over and nothing new comes, each queued node has been asked after as many advances as there were, and the publish finishes on the advance by which every node asked has had its outcome. |
| `OptimisticSpec.SortAscending` | publish/optimistic.go:462-470 | Sorting distinct nodes gives the same nodes in strictly ascending distance. |
| `OptimisticSpec.DiscoverKeepsInv` | publish/optimistic.go:447-471 | Discovery keeps found sorted and without repeats, and leaves no near enough node unasked and not queued. |
| `OptimisticSpec.PolledKeepsInv` | publish/optimistic.go:264-300 | An event, the early end of the walk and the pool's report all keep the invariant. |
| `Optimistic.Optimistic.constructor` | publish/optimistic.go:218-254 | Nothing is found, asked or failed. |
| `Optimistic.Optimistic.Advance` | publish/optimistic.go:264-342 | The fields together take exactly the step the publish theorems are about, for some choice of the node asked. |
| `Optimistic.Optimistic.HandleEvent` | publish/optimistic.go:347-400 | What each event changes, and whether the pool is to be advanced. |
| `Optimistic.Optimistic.AdvancePool` | publish/optimistic.go:408-443 | What each report of the pool changes. |
| `Optimistic.Optimistic.DiscoverNodes` | publish/optimistic.go:447-471 | The loop over the nodes and the sort that follows leave what Discover describes. |
| `Optimistic.Optimistic.IsSetThresholdMet` | publish/optimistic.go:479-490 | Whether the mean distance of the nearest ReplicationFactor nodes is below the set threshold; false while fewer are found. |
| `Optimistic.Optimistic.EndTheWalk` | publish/optimistic.go:495-516 | The loop queues exactly those of the nearest that have not been asked. |

## Left out

Statements weaker than one might expect:

- PoolProofs.AlwaysBounded: asks for Concurrency of at least two, ids that are not empty and replies only for queries with requests out. Any node may send them, asked or not, once or again.
- PoolBound.BoundExactly: keys have at least two bits, so that a query can know two nodes besides self.
- OptimisticSpec.StoresOnce: asks for no Stop and one outcome for each node asked, as do PolledKeepsInv and what follows from it. After a Stop, Errors can name nodes that were not contacted. NeverAskedTwice and AlwaysAskedOnce ask for neither. What the query pool reports is an input, so the results hold for any pool.
- OptimisticSpec.AlwaysAccounted: likewise.
- OptimisticSpec.PolledKeepsInv: likewise.
- OptimisticSpec.FinishedAccount: asks for no Stop and one outcome for each node asked. The target is a constant, and Start comes before the events of the walk, as the publish behaviour arranges.
- LookupResults.ClosestCorrect: is about queries that finish by themselves. A cancelled query reports what it has so far.
- LookupRuns.LookupTerminates: bounds changes of state other than those of the recorded wake-up time alone. It does not say that a query makes progress after NextDue: at capacity the walk stops at the first Waiting node that has not expired.
- OptimisticLaws.PublishFinishes: likewise, and the pool has nothing more to ask; that the pool's query ends is the pool's matter.
- PoolLaws.AdvanceExactly: which of the queries that the event is not for are polled is left to PoolProofs.AdvanceOk.
- SurveyLaws.PollsEnd: the polls come without answers between them. An answer can name new nodes, each of which takes one poll more.
- NetworkLaws.FirstInFirstOut: of requests left in the queue when Close comes some are discarded; they leave it in order like the rest.
- Ready.NoLostWakeUp: one event loop; the armed timer may fire at any time, and what the pool reports is arbitrary.
- NetworkProofs.SlotsConserved: the idle timer may fire at any time, a request whose context is cancelled counts as sent, and the `done` channel is not modelled. Which requests were accepted, sent and discarded is history kept beside the program's state.
- Heap.Heap.Remove: takes the entry out before it sifts the one moved into its place, where `container/heap` sifts within a shorter bound first. The outcome is the same.
- Heap.Heap.Pop: marks the entry as in no heap, as the probe's list does. The survey's schedule leaves the index of an entry it drops; nothing refers to that entry any more.
- Explore.DynamicExploreSchedule.constructor: pushes the entries one by one instead of appending them and calling `heap.Init`. Entries are totally ordered, so the head is the same. The entries' unused index field comes from the shared heap.
- Explore.DynamicExploreSchedule.NextCpl: multiplier and jitter are exact reals and the random number is a parameter.
- Survey.Survey.Advance: the keys minted inside a region and the seeds taken from the routing table, WalkInBound at most, are parameters of each advance, and the table has no other writer.
- Probe.Probe.Advance: which of several nodes equally due and equally close is checked first is left open.
- Probe.NodeValueList.PeekNext: takes a ghost copy of the routing table, only to name the state it describes.
- Optimistic.Optimistic.Advance: the query pool is not part of the object; what it reports is an argument. Which queued node is asked first is left open, as Go's map order leaves it. Thresholds are given, and distances are whole numbers compared with them as reals.
- Optimistic.Optimistic.AdvancePool: takes the pool's report as an argument, and does not keep the query statistics in it.
- Table.Table.Observe: the mutex and the atomic root are not modelled; one caller at a time.
- Keystore.KeysUnder: yields to a list. A consumer that stops early, and the snapshot taken while others write, are not modelled. The stored trie is assumed well formed.

Not modelled at all:

- Telemetry, tracing, logging, metrics, configuration checks, contexts, generics and the routers: nothing of interest to prove.
- The contents of messages, and most statistics carried in reports.
- Network size estimation and the quantiles behind the thresholds: floating-point statistics.
- go-libdht's tries: adding is taken to keep an existing entry and iteration to go by distance. Node identity is the node's key, and all keys have one length.
- 64-bit times: a time is a whole number, zero for none, and every real now is positive.
- `SequentialIter`: it admits a node twice, so at most one request a node is false there. Production lookups use `ClosestNodesIter`.
- Static, FollowUp, RegionPublish, Include and Bootstrap: mostly bookkeeping over sets.
- Running several FollowUp or Optimistic publishes on one query pool: a finished lookup's ActivityID is not compared, so they are not independent.
- The wake-up of the publish behaviour: its `advancePool` resets the flag a survey sets, so the statement proved for the query behaviour is not true of it.
- Progress events and the draining of notifiers: a drained `pending` is not cleared, so exactly-once delivery is not true.
