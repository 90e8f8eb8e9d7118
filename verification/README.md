# A model of the league site's gate and write core

This project models the parts of the repository that make hard promises in little code, and proves those promises for
every input, every run or every interleaving.

| module | models |
|---|---|
| `ShardLoads`, `ShardPlan` | the longest-first shard scheduler, its approximation bound, and which plans leave a shard empty |
| `AddressAnchor`, `SnapshotStore` | storing an address against erasing it, over a snapshot-isolated store whose first committer wins |
| `ActionLog` | the write helpers and the log rows they leave, and replaying the log backwards |
| `DailyCounts`, `DailyCeiling` | the daily write ceiling: the keyed counts, and runs of requests, reruns, address changes and erasures |
| `ConstraintLanes` | applying declared constraints concurrently, one lane a namespace |
| `NginxReaders`, `NginxAgreement`, `NginxPrinting` | the flat scanner and the recursive parser of one nginx configuration, and what both read of a printed one |
| `PublicRoutes`, `RouteAccount` | a route file's URL, nginx's choice of location, and the accounting of every handler |
| `GateTable`, `GateRows`, `GateRoundTrip`, `GateRatchet`, `GateFindings`, `GateFigures`, `GateStamp`, `GateCuts`, `GateProposal` | the gate's budget table: parser, printer, ratchet over histories, figures, proposals and what `--stamp` does with one |
| `FixtureScopes`, `FixtureCalls` | fixture scopes as sets of tests, the nearest supplier, and the search through calls |
| `StopSweep`, `StopRuns` | the wind-down of a process tree, listing by listing, with reused pids |
| `PoolHandshake` | pools naming themselves against a stop marking and reading, and the relay of their notices |
| `QuotingClass`, `QuotingUnits` | reading and spelling the console format's character class |
| `Ordering`, `PythonText`, `Results` | Python's `sorted`, the string methods the checkers use, and answers that may be absent or refused |

A loop of the source is a method proved against a function of its inputs; an object whose methods change it is a class.
The lemmas then say what that function, or every run of those methods, keeps.

## Where the code does less than its words

Each of these is proved of an input, beside what the code does promise: "exactly" marks a condition proved both ways.

- `plan`'s caller refuses more shards than files so that no shard is empty. A row of cost zero, which the table admits,
  still empties one (`ShardPlan.FreeFilesLeaveAShardEmpty`): a plan has no empty shard exactly where the files are
  enough and all but one of the shards can have a file of positive cost (`ShardPlan.PlanHasNoEmptyShardIff`).
- `--stamp` parses what it is about to write, so it writes nothing another mode refuses (`GateProposal.StampMain`); but
  that parse raises uncaught, exactly where the total is not the table's last row or its own budget is under the sum the
  attempts give (`GateProposal.ProposalReadsBackIff`). A table with its total first ends so
  (`GateProposal.TotalFirstCrashes`), and one whose total's budget its re-cut reference passes
  (`GateProposal.BudgetPassedCrashes`).
- A proposed total floor is said never to be one `check_total_floor` refuses. It is exactly where every reference is cut
  from these attempts and one population, the floor over them rises, and some row already carries the stamp text the
  attempts give it (`GateStamp.StampTable`, `Order.FloorRefused`; such a table in `GateProposal.ProposedFloorRefused`).
  What the whole ratchet finds of a proposal is empty exactly where `GateProposal.Held` says so of the order
  (`GateProposal.AcceptedIff`).
- The log's images do not undo a fan-out or an erasure: two collections an erasure empties alike leave one log
  (`ActionLog.ErasureForgets`). One write's own row undoes it exactly where it keeps images or changed nothing
  (`ActionLog.UndoneIff`).
- A write leaves no row exactly where it changed nothing and is no patch outside a transaction
  (`ActionLog.RowIffChanged`); there, a patch that changes nothing is logged unread (`ActionLog.UnchangedPatchLogged`).
- A class carrying a character past U+FFFF is spelled with a braced escape that this reader refuses
  (`QuotingClass.SpellingReadsBackIff`, and U+10000 in `QuotingClass.PastFourDigitsRefused`).
- A day that ends past its ceiling has named its person exactly where no carry joined two counts from within the ceiling
  past it (`DailyCeiling.DayNamedIff`), which the two counts say before the carry; a run of ten joined by one names
  nobody (`DailyCeiling.CarryOntoCountsNamesNobody`). Carried onto their own pseudonym, a person's counts are deleted
  (`DailyCeiling.CarryOntoItselfForgets`): an input of the helper alone, since both routes that start an address change
  refuse an unchanged folded address (`find_unveraendert_refusal`).
- `announce` is said to answer where the gate has ended. A pool that looks runs exactly where no stop has marked yet, or a
  removal has taken the mark or the registry (`PoolHandshake.LookRunsIff`); a removal that takes the mark between naming
  and look leaves a pool running unnamed (`PoolHandshake.RemovedBetweenRunsUnnamed`). A running pool goes unnamed only
  where a removal took the mark, that pool's entry or the registry (`PoolHandshake.EveryRunningPoolIsNamed`).
- Python's `isspace` takes more characters for blanks than nginx and the lexer do. On accepted text that opens no quote
  outside its comments, the two readers agree exactly where no word holds one (`NginxAgreement.ReadersAgreeIff`), and
  each such character parts them (`NginxAgreement.OtherWhitespaceParts`).

## What it rests on

- That a stop leaves trap work alone rests on the system keeping a pid while a handle on it is open. Without it a listing
  would end such work: `StopRuns.UnheldPidsReachTrapWork` reaches that in two listings of a world no system produces.

## Model

| member | source | states |
|---|---|---|
| `ShardPlan.Plan` | scripts/gate/shard_plan.py:58-74 | The loop over the files, costliest first and ties by name, is the greedy assignment the results below are about, each shard sorted |
| `ShardPlan.PriceIs` | scripts/gate/shard_plan.py:64-70 | A listed file costs its row; any other costs the mean of the candidates' rows, so that times their number it is their sum, and one second where they have none |
| `ShardPlan.OrderIs` | scripts/gate/shard_plan.py:70 | The dearer file is placed first, and of two that cost alike the one whose path comes first |
| `ShardPlan.Lightest` | scripts/gate/shard_plan.py:71-72 | The shard chosen is the lightest, and the first of those that are |
| `ShardPlan.PlanIsSplit` | scripts/gate/shard_plan.py:58-74 | Every file goes to exactly one shard, and each shard is in name order |
| `ShardPlan.PlanIgnoresOrder` | scripts/gate/shard_plan.py:58-74 | Every arrangement of the same files gets the same plan |
| `ShardPlan.PlanNearOptimal` | scripts/gate/shard_plan.py:58-74 | The heaviest shard is at most 4/3 - 1/(3m) times the heaviest of any other split of the files over m shards |
| `ShardPlan.PlanMoveStable` | scripts/gate/shard_plan.py:58-74 | Taking any file off its shard leaves that shard no heavier than any other |
| `ShardPlan.PlanHasNoEmptyShardIff` | scripts/gate/shard_plan.py:124-132 | No shard is empty exactly where the files are enough and at least count - 1 of them cost something |
| `ShardPlan.FreeFilesLeaveAShardEmpty` | scripts/gate/shard_plan.py:124-132 | Two files of no cost over two shards, which the caller lets through, leave one empty |
| `ShardPlan.SplitAssigns` | scripts/gate/shard_plan.py:58-74 | Any split of the files is some assignment of them with the same loads, so the bound is over all splits |
| `Ordering.StringLeqIff` | scripts/gate/shard_plan.py:70-74 | A path comes before another exactly where it is a prefix of it or smaller at the first character they differ in |
| `ShardLoads.GreedyBound` | scripts/gate/shard_plan.py:70-73 | The bound on one shard's load, for any greedy assignment against any other assignment |
| `ShardLoads.LargeFilesFit` | scripts/gate/shard_plan.py:70-73 | While every file is above a third of another assignment's heaviest shard, the greedy one stays within it |
| `ShardLoads.NoMoveHelps` | scripts/gate/shard_plan.py:70-73 | No one move betters a greedy assignment in descending order |
| `ShardLoads.NoShardEmpty` | scripts/gate/shard_plan.py:70-73 | A greedy assignment fills every shard exactly where files and costly files suffice |
| `AddressAnchor.Session.Put` | fl_backend/app/core/crud.py:216-218 | A write that leaves its document as it was joins no write set |
| `AddressAnchor.Session.AnchorById` | fl_backend/app/core/crud.py:226-248 | The anchor of each id given is written, created where there is none, and nothing else |
| `AddressAnchor.Session.AnchorTheAddresses` | fl_backend/app/core/adressanker.py:35-47 | Exactly the anchors of the addresses given are written, an empty slot anchoring nothing |
| `AddressAnchor.Session.StoreRecord` | fl_backend/app/api/schiedsrichter/admin_router.py:113-136 | A transaction that anchors the address and then stores the record keeps the discipline the store's safety rests on, and touches no other record |
| `AddressAnchor.Session.Erase` | fl_backend/app/api/identitaet/crud.py:637-643 | An erasure anchors its address before it reads, and removes exactly the records it sees naming it |
| `SnapshotStore.NoRecordSurvivesErasure` | fl_backend/app/core/adressanker.py:35-47 | In every run of snapshot-isolated transactions, no record names the address the moment its erasure commits |
| `SnapshotStore.LaterStorersReadTheErasure` | fl_backend/app/core/adressanker.py:35-47 | A record that names the address after that was stored by a transaction that began after the erasure |
| `SnapshotStore.RunKeeps` | fl_backend/app/core/crud.py:204-248 | In every state of every run, a running transaction's snapshot holds of what no commit wrote since, and each address newly named since has its anchor written since |
| `SnapshotStore.CommitKeeps` | fl_backend/app/core/crud.py:204-248 | A commit that meets no conflict keeps every other transaction's invariant |
| `SnapshotStore.OthersDoNotConflict` | fl_backend/app/core/crud.py:226-248 | Transactions anchoring different addresses and touching different records never conflict |
| `SnapshotStore.WithoutTheAnchorARecordSurvives` | fl_backend/app/core/adressanker.py:35-47 | A storer that anchors nothing, beside an erasure, leaves a record naming the erased address |
| `ActionLog.Collection.PostOne` | fl_backend/app/core/crud.py:251-266 | An insert and its row, or nothing where the id stands |
| `ActionLog.Collection.PatchOne` | fl_backend/app/core/crud.py:111-156 | One matching document patched, its exact pre-state logged unless it was left as it was inside a transaction, the image asked for answered |
| `ActionLog.Collection.DeleteMany` | fl_backend/app/core/crud.py:327-369 | Exactly the matching documents go, their images in one row |
| `ActionLog.Collection.PatchMany` | fl_backend/app/core/crud.py:168-196 | Exactly the matching documents the update changes are changed, and one row counts them |
| `ActionLog.Collection.EraseMany` | fl_backend/app/core/crud.py:372-401 | Exactly the standing documents named go, and one row counts them |
| `ActionLog.Collection.PostMany` | fl_backend/app/core/crud.py:269-301 | A batch lands up to its first refusal, the row counts what stands, a transaction takes a refused batch back whole, and an empty one is refused unlogged |
| `ActionLog.Landed` | fl_backend/app/core/crud.py:269-301 | How far an ordered batch lands: up to the first id that is refused |
| `ActionLog.Standing` | fl_backend/app/core/crud.py:269-301 | What a batch leaves standing, in and out of a transaction |
| `ActionLog.OneWriteUndone` | fl_backend/app/core/crud.py:111-165 | A logged single insert, patch or set deletion is undone by its own row |
| `ActionLog.UndoneIff` | fl_backend/app/core/crud.py:111-401 | A write is undone by its own row exactly where it keeps images or changed nothing |
| `ActionLog.LogUndoesTheRun` | fl_backend/app/core/crud.py:111-165 | Replaying backwards the rows any run of those writes left gives the starting collection back |
| `ActionLog.ErasureForgets` | fl_backend/app/core/crud.py:372-401 | Two collections erased alike leave one state and one log, so no replay tells them apart |
| `ActionLog.RowIffChanged` | fl_backend/app/core/crud.py:111-165 | A write leaves no row exactly where it changed nothing and is no patch outside a transaction |
| `ActionLog.UnchangedPatchLogged` | fl_backend/app/core/crud.py:111-165 | A patch outside a transaction that leaves its document as it was leaves a row |
| `ActionLog.FanOutCounts` | fl_backend/app/core/crud.py:168-196 | A fan-out leaves one row counting the documents it changed, and none where it changed none |
| `ActionLog.LogAccountsForTheSize` | fl_backend/app/core/crud.py:251-401 | Over any run of every kind of write, the log's rows account for each document the collection gained or lost |
| `DailyCounts.PrefixSelects` | fl_backend/app/core/drosselung.py:74-77 | A key opens with a prefix exactly where it is that counter's and that pseudonym's, whatever the day |
| `DailyCounts.MatchesIff` | fl_backend/app/core/drosselung.py:183-188 | The filter finds every day of the counters named for that pseudonym, and nothing of anyone else |
| `DailyCounts.ReplaceRekeys` | fl_backend/app/core/drosselung.py:171-173 | The one textual replacement changes a key's pseudonym and nothing else |
| `DailyCounts.KeyInjective` | fl_backend/app/core/drosselung.py:74-77 | No two counters, pseudonyms and days share a key |
| `DailyCounts.Counts.Upsert` | fl_backend/app/core/drosselung.py:171-178 | An increment under a key adds to the row there, or makes one with its expiry |
| `DailyCounts.Counts.Raise` | fl_backend/app/core/drosselung.py:103-109 | One atomic step, answering the count it left |
| `DailyCounts.Counts.Carry` | fl_backend/app/core/drosselung.py:163-180 | Each day's count of the old pseudonym joins the new one's row by row, expiry kept, and the old rows are gone |
| `DailyCounts.Counts.Erase` | fl_backend/app/core/drosselung.py:145-160 | Exactly the person's counts of the kinds named are removed |
| `DailyCounts.CarriedDetermines` | fl_backend/app/core/drosselung.py:163-180 | What a carry promises leaves one possible result |
| `DailyCeiling.Drossel.Drosseln` | fl_backend/app/core/drosselung.py:90-124 | A call passes uncounted once its request was admitted; otherwise it raises one count and is judged by it |
| `DailyCeiling.AdmittedOnce` | fl_backend/app/core/drosselung.py:86-94 | In every run a request is admitted at most once, and from then on its reruns change no count |
| `DailyCeiling.DayAccounts` | fl_backend/app/core/drosselung.py:110-180 | Over every run and any address changes: the day's count is its raises and what carries joined to it, its admissions fill the ceiling but for what was joined within it, and it is named as it passes the ceiling unless a carry steps over |
| `DailyCeiling.DayBounded` | fl_backend/app/core/drosselung.py:110-124 | Across any chain of address changes a person's day admits at most the ceiling and is named at most once |
| `DailyCeiling.DayExact` | fl_backend/app/core/drosselung.py:110-124 | Where carries joined nothing to it, the day admits exactly the ceiling's worth of calls and is named exactly where it passes it |
| `DailyCeiling.DayNamedIff` | fl_backend/app/core/drosselung.py:117-125 | A day begun within its ceiling names its person exactly where it ends past it and no carry took two counts from within it past it |
| `DailyCeiling.CarryJoins` | fl_backend/app/core/drosselung.py:163-180 | A carry adds to the person's count exactly the count that stood under the other pseudonym |
| `DailyCeiling.ChainSharesOneCeiling` | fl_backend/app/core/drosselung.py:163-180 | All pseudonyms of one chain together share one ceiling, where each writes only while it is the person's |
| `DailyCeiling.CarryConserves` | fl_backend/app/core/drosselung.py:163-180 | A carry keeps the sum per counter and day and touches no third person |
| `DailyCeiling.ExpiryKept` | fl_backend/app/core/drosselung.py:171-178 | A row keeps the expiry it was made with: the call's own, or that of the row carried to where none stood |
| `DailyCeiling.CarryOntoItselfForgets` | fl_backend/app/core/drosselung.py:163-180 | Carried onto itself, a pseudonym's counts are gone |
| `DailyCeiling.CarryOntoCountsNamesNobody` | fl_backend/app/core/drosselung.py:117-125 | A run in which a refused person is never named: ten calls joined by one, and the next refused |
| `ConstraintLanes.SplitIntoLanes` | fl_backend/app/core/constraints.py:2077-2083 | Each namespace's lane holds its declared positions, in order |
| `ConstraintLanes.RunLanes` | fl_backend/app/core/constraints.py:2053-2068 | In an order left open at each step, every lane ends where it would have alone |
| `ConstraintLanes.FirstFailure` | fl_backend/app/core/constraints.py:2088-2091 | The failure picked is the one declared first among the lanes' |
| `ConstraintLanes.ApplyConcurrently` | fl_backend/app/core/constraints.py:2071-2091 | Whatever the interleaving: the sequential run's failure, its world where there is none, every namespace where its lane ends, and exactly what comes before a lane's failure applied |
| `ConstraintLanes.ApplyConstraints` | fl_backend/app/core/constraints.py:2094-2114 | The two phases answer as one sequential run of both; each applies exactly what comes before a lane's failure, and no index is applied where a validator failed |
| `ConstraintLanes.SequentialApplies` | fl_backend/app/core/constraints.py:2071-2091 | All that a sequential run applies, the lanes apply |
| `ConstraintLanes.PhasesApplySequential` | fl_backend/app/core/constraints.py:2094-2114 | All that one sequential run of both phases applies, the two phases apply |
| `ConstraintLanes.SequentialIsFirst` | fl_backend/app/core/constraints.py:2071-2091 | A sequential run fails at the first declared of the lanes' own failures, and else ends where all of them do |
| `ConstraintLanes.FirstUnique` | fl_backend/app/core/constraints.py:2088-2091 | One failure is declared first |
| `ConstraintLanes.LaneSteps` | fl_backend/app/core/constraints.py:2053-2068 | One step of a lane keeps it where it would stand alone |
| `NginxReaders.ReadTokens` | scripts/checks/check_public_routes.py:242-268 | The lexer's loop gives the token list the results below are about, or its refusal with the line |
| `NginxReaders.ReadQuoted` | scripts/checks/check_public_routes.py:271-294 | A quoted word ends at its own quote, escapes and line breaks counted, or refuses |
| `NginxReaders.ReadBlock` | scripts/checks/check_public_routes.py:303-337 | The recursive block reader, every refusal in its place |
| `NginxReaders.ReadTree` | scripts/checks/check_public_routes.py:297-300 | The configuration as a tree, or the refusal |
| `NginxReaders.ReadStatements` | scripts/checks/check_compose_model.py:825-862 | The scanner's single pass gives the flat list the results below are about |
| `NginxAgreement.ReadersAgree` | scripts/checks/check_compose_model.py:825-862 | On accepted text with no quote and no odd blank outside its comments, the scanner lists the tree's statements, openings and closings in order, word for word |
| `NginxAgreement.ReadersAgreeIff` | scripts/checks/check_compose_model.py:825-862 | On every accepted text that opens no quote outside its comments, the scanner lists the tree exactly where no word the lexer reads holds a blank |
| `NginxAgreement.ParserAcceptsIff` | scripts/checks/check_public_routes.py:303-337 | On plain text the parser accepts exactly where the scanner's list nests and no directive is left unended |
| `NginxAgreement.ListDeterminesTree` | scripts/checks/check_public_routes.py:297-337 | Two accepted plain texts the scanner lists alike have one tree |
| `NginxAgreement.FlattenInjective` | scripts/checks/check_compose_model.py:825-862 | A flat list comes from at most one tree |
| `NginxAgreement.GeoArms` | scripts/checks/check_compose_model.py:865-878 | The depth-counting loop gives the blocks and arms the next row is about |
| `NginxAgreement.GeoArmsAreTheTrees` | scripts/checks/check_compose_model.py:865-878 | The arms are the direct statements of the tree's outermost blocks for that variable |
| `NginxAgreement.OtherWhitespaceParts` | scripts/checks/check_compose_model.py:848-853 | Each blank nginx does not take for one parts the two readers: one word to the lexer, two to the scanner |
| `NginxAgreement.ScanLists` | scripts/checks/check_compose_model.py:825-862 | The scanner's list is the token list, words gathered up to each mark |
| `NginxAgreement.BlockAcceptsIff` | scripts/checks/check_public_routes.py:303-337 | A block is accepted exactly where its tokens nest from where it begins |
| `NginxPrinting.PrintedReads` | scripts/checks/check_public_routes.py:242-337 | Any tree printed with literal braces, semicolons, blanks and comments, one directive a line, is parsed as that tree with each directive on its line, and listed by the scanner in pre-order |
| `NginxPrinting.QuotedReads` | scripts/checks/check_public_routes.py:271-294 | Content that a quote can hold, escapes kept, ends at the first quote no backslash takes, its line feeds counted |
| `NginxPrinting.QuotedHolds` | scripts/checks/check_public_routes.py:271-294 | A quote that closes encloses such content, so one without it never closes |
| `NginxPrinting.ReadQuotedWord` | scripts/checks/check_public_routes.py:242-268 | To the lexer a quoted word is its content, on the line its quote closes on |
| `NginxPrinting.ScanQuotedWord` | scripts/checks/check_compose_model.py:825-862 | The scanner keeps a quoted word with its quotes |
| `PublicRoutes.UrlOf` | scripts/checks/check_public_routes.py:478-497 | A route file's URL, head and dynamism, or the first directory that places none |
| `PublicRoutes.GroupLeftOut` | scripts/checks/check_public_routes.py:484-485 | A directory named in one pair of parentheses is left out wherever it stands, so the two paths answer one URL |
| `PublicRoutes.DirectoryKept` | scripts/checks/check_public_routes.py:486-492 | Every other directory is kept in its place |
| `PublicRoutes.GroupIff` | scripts/checks/check_public_routes.py:177 | A directory is a route group exactly where it is a non-empty name, without parentheses or slashes, in one pair of parentheses |
| `PublicRoutes.DynamicIff` | scripts/checks/check_public_routes.py:178 | A directory is a dynamic segment exactly where it is a word in one or two brackets, three dots before it or not |
| `PublicRoutes.LiteralIff` | scripts/checks/check_public_routes.py:181 | A directory is a literal segment exactly where its characters are unreserved and the first is no underscore |
| `PublicRoutes.UrlIs` | scripts/checks/check_public_routes.py:493 | The URL is every segment after a slash, and a slash alone for the root |
| `PublicRoutes.AnswersUnderHead` | scripts/checks/check_public_routes.py:478-497 | A static handler answers its URL alone; a dynamic one only URLs that go on from its head with a segment |
| `PublicRoutes.CatchAllsFilled` | scripts/checks/check_public_routes.py:478-497 | A catch-all directory, optional or not, is a dynamic segment any number of segments fill |
| `PublicRoutes.DynamicBracketed` | scripts/checks/check_public_routes.py:478-497 | A dynamic handler's URL is no literal path |
| `RouteAccount.AnsweringLocation` | scripts/checks/check_public_routes.py:613-619 | The exact match, else the first longest prefix, the catch-all among them |
| `RouteAccount.LongestPrefix` | scripts/checks/check_public_routes.py:668-671 | The first longest prefix location, with or without the catch-all |
| `RouteAccount.LongestIs` | scripts/checks/check_public_routes.py:613-619 | No location that admits the URL is longer, and none is chosen only where none admits it |
| `RouteAccount.Account` | scripts/checks/check_public_routes.py:690-746 | One finding for each faulty handler, in order, and exactly the reasons some handler was charged to |
| `RouteAccount.JudgeOne` | scripts/checks/check_public_routes.py:697-745 | One handler's verdict, every branch of it |
| `RouteAccount.JudgeIff` | scripts/checks/check_public_routes.py:690-746 | Each verdict stands exactly where the locations give it: which fault is named, and which reason a handler is charged to |
| `RouteAccount.MeteredIff` | scripts/checks/check_public_routes.py:215-224 | A location is metered exactly where some `limit_req` line of its names a zone |
| `RouteAccount.FoundIff` | scripts/checks/check_public_routes.py:690-746 | A finding names a handler exactly where that handler is at fault, with its own fault |
| `RouteAccount.SilentIff` | scripts/checks/check_public_routes.py:690-746 | No finding exactly where no handler is at fault |
| `RouteAccount.SilenceCovers` | scripts/checks/check_public_routes.py:690-746 | Where a handler has no finding, no URL it answers reaches the catch-all or nothing: its exact match meters or refuses it, or a location at least as long as the prefix it was charged to is chosen |
| `RouteAccount.StaticAccountedIff` | scripts/checks/check_public_routes.py:690-746 | A static handler has no finding exactly where nginx's own choice for its URL accounts for it |
| `RouteAccount.DynamicAccountedIff` | scripts/checks/check_public_routes.py:690-746 | A dynamic handler has no finding exactly where every URL it answers is chosen under a recorded prefix or past its head |
| `RouteAccount.ExactByPath` | scripts/checks/check_public_routes.py:463-475 | No path being declared twice, the lookup by path is nginx's exact match |
| `GateTable.ParseReference` | scripts/checks/check_gate_budget.py:128-155 | The table read line by line, or the first line that refuses it |
| `GateTable.ReferenceKeeps` | scripts/checks/check_gate_budget.py:128-155 | A table that reads files each row under its job, every stamp readable, every ceiling over its reference, the total the sum |
| `GateRows.RowReadIff` | scripts/checks/check_gate_budget.py:107-147 | Five fields are read as a row exactly where they are its figures' and stamp's texts and its budget, if any, is stamped and no lower than its reference |
| `GateRows.RowRefused` | scripts/checks/check_gate_budget.py:107-147 | Which of the row's faults is named where it is refused |
| `GateRows.LineIs` | scripts/checks/check_gate_budget.py:132-147 | What one line adds: nothing, the row of a job not yet read, or its refusal |
| `GateRows.CommentsPassOver` | scripts/checks/check_gate_budget.py:132-133 | A blank line or a comment changes nothing wherever it stands |
| `PythonText.LinesPart` | scripts/checks/check_gate_budget.py:131 | A line ends at each separator Python takes for one, a carriage return and its line feed being one |
| `PythonText.WholeIs` | scripts/checks/check_gate_budget.py:107-112 | Digits are read in base ten, zeros before them counting for nothing |
| `GateTable.StampRoundTrip` | scripts/checks/check_gate_budget.py:115-125 | A stamp written is the stamp read |
| `GateTable.StampReadIff` | scripts/checks/check_gate_budget.py:60-62 | A field is read as a stamp exactly where it is that stamp's own text |
| `GateTable.CalendarIff` | scripts/checks/check_gate_budget.py:115-125 | A stamp's date is a day of the Gregorian calendar |
| `GateTable.IsoRoundTrip` | scripts/checks/check_gate_budget.py:115-125 | So is its date |
| `GateTable.SumOf` | scripts/checks/check_gate_budget.py:148-154 | The rows' references summed, the total's own left out |
| `GateTable.SummedIs` | scripts/checks/check_gate_budget.py:148-154 | A row's reference counts once, a row without one for nothing, the total's not at all |
| `GateTable.Rewritten` | scripts/checks/check_gate_budget.py:857-870 | The text with each row replaced, the new ones above the total in name order |
| `PythonText.LinesJoined` | scripts/checks/check_gate_budget.py:870 | The text is its lines joined by line feeds, and one after the last |
| `GateRoundTrip.WrittenReadsBackIff` | scripts/checks/check_gate_budget.py:857-870 | A proposal written into the text reads back as itself exactly where the total closes the table and holds its own budget |
| `GateRoundTrip.PrintedReadIff` | scripts/checks/check_gate_budget.py:851-854 | Printed rows read back exactly where no job repeats and every budget stands over its reference |
| `GateRoundTrip.RewrittenDistinctIff` | scripts/checks/check_gate_budget.py:857-870 | The rewriting repeats no job exactly where the total comes last |
| `GateRoundTrip.TextJobs` | scripts/checks/check_gate_budget.py:128-155 | The jobs a table reads are those of its row lines, each once and each a name the table can carry |
| `GateRoundTrip.ListingReads` | scripts/checks/check_gate_budget.py:128-155 | A table's rows printed in any order read back as that table |
| `GateRatchet.CheckMatrixBudgets` | scripts/checks/check_gate_budget.py:293-309 | A finding for exactly the matrices whose instances' budgets differ |
| `GateRatchet.CheckRaise` | scripts/checks/check_gate_budget.py:347-416 | Exactly the findings of each row and matrix, and none exactly where the change is accepted |
| `GateFindings.FindingIff` | scripts/checks/check_gate_budget.py:244-416 | For every base, head and row, each finding stands exactly where the row breaks that rule, said of the two tables |
| `GateFindings.AcceptedStamp` | scripts/checks/check_gate_budget.py:244-256 | An accepted change writes no stamp of under ten runs, none of under twenty-four beside a reference or floor, and none from a pull request's tree on a job keyed on its tree |
| `GateFindings.InstanceOfIff` | scripts/checks/check_gate_budget.py:635 | A job is an instance of a matrix exactly where it is named `<matrix> (<instance>)` |
| `GateFindings.TreeKeyedIff` | scripts/checks/check_gate_budget.py:638-641 | A job is keyed on its tree exactly where it is one of five jobs or an instance of one |
| `GateRatchet.AcceptedStep` | scripts/checks/check_gate_budget.py:347-416 | One accepted change keeps a budget set and lifts a figure on a fresh stamp alone; a split lifts none |
| `GateRatchet.BudgetStaysSet` | scripts/checks/check_gate_budget.py:347-416 | Along any accepted history, splits included, a set budget is never removed |
| `GateRatchet.BudgetRisesOnlyOnFreshStamp` | scripts/checks/check_gate_budget.py:244-256 | A budget higher than it once was rose on a new stamp of at least ten runs, dated no earlier than the one it replaced |
| `GateFigures.BudgetOver` | scripts/checks/check_gate_budget.py:785-789 | The least multiple of five seconds a quarter, and ten seconds, above the widest span |
| `GateFigures.MedianWithin` | scripts/checks/check_gate_budget.py:459-462 | A median lies within its values |
| `GateFigures.MedianIff` | scripts/checks/check_gate_budget.py:459-462 | The median is the value at the middle rank, or the mean of the two at the middle ranks rounded half up, and no other |
| `GateFigures.FloorIsLeast` | scripts/checks/check_gate_budget.py:807-811 | The floor is the least whole percent that at least ninety-five moves in a hundred stay within |
| `GateFigures.RankIff` | scripts/checks/check_gate_budget.py:809-810 | The value at a rank is within a bound exactly where that many values are |
| `GateStamp.Counted` | scripts/checks/check_gate_budget.py:766-782 | Exactly the spans that count, with their days, and how many are left out for each reason |
| `GateStamp.EverySpanAnswered` | scripts/checks/check_gate_budget.py:766-782 | Every span of the row is counted or left out for one reason |
| `GateCuts.CountsIff` | scripts/checks/check_gate_budget.py:766-782 | A span counts exactly where it succeeded, GitHub did not retry it and it re-ran no tree it had cached |
| `GateCuts.LeftOutIff` | scripts/checks/check_gate_budget.py:766-782 | Each reason stands exactly for the spans it is said of, the retry before the cache |
| `GateCuts.PopulationIs` | scripts/checks/check_gate_budget.py:766-782 | The spans that count come in the attempts' order |
| `GateStamp.Propose` | scripts/checks/check_gate_budget.py:823-848 | A row is proposed exactly where it can be stamped: its reference, floor, ceiling and stamp from the spans counted, and readable |
| `GateCuts.ProposedIs` | scripts/checks/check_gate_budget.py:823-848 | A proposed row carries the spans' median and the least floor over its draws, of at least twenty-four spans and above zero, or neither; the ceiling over the widest; and the number of spans with the newest day |
| `GateCuts.BudgetIs` | scripts/checks/check_gate_budget.py:836-841 | A row without a ceiling is given none, a job that starts cold never a lower one, and any other the one over its widest span |
| `GateStamp.ShareCeilings` | scripts/checks/check_gate_budget.py:873-890 | Each stamped instance of a matrix takes its widest one's budget, and nothing else changes |
| `GateStamp.TotalFloor` | scripts/checks/check_gate_budget.py:926-949 | The total's floor: cut from all the draws summed, kept where no reference moved, or none |
| `GateCuts.TotalFloorIs` | scripts/checks/check_gate_budget.py:926-949 | The floor is the least over the draws summed move by move where every reference was drawn here in one population, the one it had where nothing moved, and else none |
| `GateStamp.Stamped` | scripts/checks/check_gate_budget.py:893-920 | Exactly the rows that can be stamped are, each its own proposal but for the ceiling, which is its matrix's widest |
| `GateCuts.StampsIff` | scripts/checks/check_gate_budget.py:893-920 | A job is stamped exactly where it is asked for, timed or in the table, ten of its spans count and no other tree timed them |
| `GateStamp.CutTotal` | scripts/checks/check_gate_budget.py:921-949 | The total stands at the sum, keeps its budget and stamp, and carries the floor above |
| `GateStamp.StampTable` | scripts/checks/check_gate_budget.py:893-949 | The proposed table is the one the order fixes, can be written and read, and its total floor is refused exactly where every reference is cut here from one population, their floor rises, and a row already carries the stamp text its attempts give |
| `GateStamp.CutFloorRefusedIff` | scripts/checks/check_gate_budget.py:926-949 | The floor is refused exactly where it was cut here, rose, and rests on an unmoved reference |
| `GateStamp.FloorRefusedIff` | scripts/checks/check_gate_budget.py:893-949 | That refusal said of the table, the attempts and the jobs asked for |
| `GateProposal.ProposedFloorRefused` | scripts/checks/check_gate_budget.py:926-949 | A table and twenty-four attempts whose proposal carries a refused total floor |
| `GateProposal.ProposalReadsBackIff` | scripts/checks/check_gate_budget.py:983-985 | A proposal is a file the other modes read exactly where the total comes last and its budget covers the sum the attempts give |
| `GateProposal.StampMain` | scripts/checks/check_gate_budget.py:952-989 | Each way `--stamp` ends: unread, a job asked for and missed, nothing changed, its own parse raising, or a text that reads back as the proposal with exactly what the ratchet finds of it |
| `GateProposal.AcceptedIff` | scripts/checks/check_gate_budget.py:347-416 | A proposal is accepted against the table in hand exactly where no matrix keeps two budgets, no stamp is ahead of today, no stamped row loses its reference or rises on its old stamp or an older one, and the total's floor neither goes nor is refused |
| `GateProposal.StampedRowIff` | scripts/checks/check_gate_budget.py:361-416 | What is found of one stamped row |
| `GateProposal.TotalFirstCrashes` | scripts/checks/check_gate_budget.py:983-985 | Stamping a table whose total stands above another row ends in the parse of its own proposal |
| `GateProposal.BudgetPassedCrashes` | scripts/checks/check_gate_budget.py:983-985 | So does stamping one whose total has a budget the attempts' sum passes |
| `FixtureScopes.MeetsIff` | scripts/checks/check_test_estate.py:106-114 | Two scopes meet exactly where some test in a file below their directories is held by both |
| `FixtureScopes.NarrowerIsBoth` | scripts/checks/check_test_estate.py:120-122 | The narrower of two that meet holds exactly the tests both hold |
| `FixtureScopes.CoversIff` | scripts/checks/check_test_estate.py:124-128 | Covering is holding every test the other holds, each in a file below its directory |
| `FixtureScopes.NearerIff` | scripts/checks/check_test_estate.py:116-122 | Of two scopes that meet, one is nearer exactly where it holds fewer tests, all of them the other's |
| `FixtureScopes.EqualRankEqual` | scripts/checks/check_test_estate.py:116-118 | Two scopes of one rank that hold one test are one scope |
| `FixtureScopes.Consumed` | scripts/checks/check_test_estate.py:627-644 | A definition is consumed exactly where it is configured or answers some request |
| `FixtureScopes.AnswersIff` | scripts/checks/check_test_estate.py:646-657 | A supply answers a request exactly where some test the request is made from takes it over every other supplier |
| `FixtureScopes.TestTakesTheNearest` | scripts/checks/check_test_estate.py:627-657 | A test's own request consumes a definition exactly where that holds the test at the greatest rank of its name |
| `FixtureCalls.Asker.Ask` | scripts/checks/check_test_estate.py:601-613 | On cyclic code too, what is reached is what the node runs, each once and closed under calls, every name and every refused spelling of it recorded |
| `FixtureCalls.Asker.AskAll` | scripts/checks/check_test_estate.py:581-613 | Over all roots sharing one record, reached is exactly what some root of that standing runs |
| `FixtureCalls.RecordedIff` | scripts/checks/check_test_estate.py:601-613 | A name is recorded for a standing exactly where a node reached so asks for it |
| `FixtureCalls.RefusedIff` | scripts/checks/check_test_estate.py:601-625 | A refusal is recorded exactly where a node reached holds a spelling that cannot be read |
| `StopSweep.Stop.Open` | scripts/gate/gate_watch.py:236-244 | What has ended is forgotten, and exactly the listed and unknown that open are new |
| `StopSweep.Stop.Judge` | scripts/gate/gate_watch.py:248-254 | One sweep, oldest first, leaves every newcomer as its creator's own standing dictates |
| `StopSweep.Stop.SpareFrom` | scripts/gate/gate_watch.py:259-263 | One pool's climb spares what lies above it and stops where another has been |
| `StopSweep.Stop.Spare` | scripts/gate/gate_watch.py:255-263 | Exactly the processes between a pool and the shell above it are spared, that shell included |
| `StopSweep.Stop.Signal` | scripts/gate/gate_watch.py:264-268 | Every shell signalled takes the time of the one call, and nothing else changes |
| `StopSweep.Stop.Reach` | scripts/gate/gate_watch.py:230-272 | What a listing leaves of every member, old and new, and exactly which were signalled and ended |
| `StopSweep.ClosedSpares` | scripts/gate/gate_watch.py:255-263 | Whatever order the pools are taken in, the same processes are spared |
| `StopRuns.TrapWorkIsLeft` | scripts/gate/gate_watch.py:218-228 | Over every run of listings, what a signalled shell starts from its signal on, and all below it, is never signalled or ended |
| `StopRuns.FateIsTheCreators` | scripts/gate/gate_watch.py:218-228 | A newcomer's fate is its own creator's standing, whatever pids were reused |
| `StopRuns.TheCreatorItself` | scripts/gate/gate_watch.py:222-224 | The member under the creator's pid, no younger than the newcomer, is the process that created it |
| `StopRuns.StepClean` | scripts/gate/gate_watch.py:230-272 | Each listing keeps the invariant: nothing signalled or ended is trap work |
| `StopRuns.RunClean` | scripts/gate/gate_watch.py:299-316 | So does every run of them |
| `StopRuns.NotBeforeTheSignal` | scripts/gate/gate_watch.py:264-268 | A signal sent now makes no trap work of what was there before it |
| `StopRuns.UnheldPidsReachTrapWork` | scripts/gate/gate_watch.py:222-224 | Were a pid reused under an open handle, the second of two listings would end a trap's work |
| `PoolHandshake.EveryRunningPoolIsNamed` | scripts/gate/gate_pool.py:357-375 | In every interleaving, a removal's own steps among them: once the stop has its answer every running pool is in it, unless the removal took the mark, that pool's entry or the registry; and it names no pool that did not name itself |
| `PoolHandshake.StandingRegistryNamesAll` | scripts/gate/gate_pool.py:357-375 | While nothing is removed, every pool that runs is in the answer |
| `PoolHandshake.LookRunsIff` | scripts/gate/gate_pool.py:367-375 | A pool that looks runs exactly where no stop has marked, or the mark or the registry has been removed |
| `PoolHandshake.StepSafe` | scripts/gate/gate_pool.py:334-375 | Every step of every pool and of the stop keeps the invariant behind that |
| `PoolHandshake.RemovedBetweenRunsUnnamed` | scripts/gate/gate_pool.py:351-375 | A run in which the removal takes the mark between naming and look, and a pool runs unnamed |
| `PoolHandshake.PoolsNamed` | scripts/gate/gate_pool.py:343-348 | Exactly the pids among the entries, the mark no pid |
| `PoolHandshake.PidsAre` | scripts/gate/gate_pool.py:343-348 | The pids read back are those of the pools that made the entries |
| `PoolHandshake.RelayNotices` | scripts/gate/gate_pool.py:290-299 | What is passed on reaches the last line break and starts where the last relay ended |
| `PoolHandshake.RelayedIsWhole` | scripts/gate/gate_pool.py:290-299 | However the file grew between looks, every whole line has been passed on once, in order, and no part of one |
| `QuotingClass.ReadAtom` | scripts/checks/check_log_quoting_class.py:77-99 | The atom standing at an index, or the refusal it owes |
| `QuotingClass.ReadAtoms` | scripts/checks/check_log_quoting_class.py:69-100 | The atoms of a body, or its first refusal |
| `QuotingUnits.AtomIff` | scripts/checks/check_log_quoting_class.py:77-99 | A bare character, an escaped one that is no shorthand, or two or four digits after their marker is the atom read where it opens the body |
| `QuotingUnits.RefusedIff` | scripts/checks/check_log_quoting_class.py:81-97 | An atom is refused, and so named, exactly where none of those opens the body |
| `QuotingUnits.UnitsRead` | scripts/checks/check_log_quoting_class.py:69-100 | A body of such units reads as theirs |
| `QuotingUnits.ReadInUnits` | scripts/checks/check_log_quoting_class.py:69-100 | A body that reads is one of units |
| `QuotingClass.CodePoints` | scripts/checks/check_log_quoting_class.py:103-125 | The characters a class matches, ranges expanded, or the refusal |
| `QuotingUnits.ItemsExpand` | scripts/checks/check_log_quoting_class.py:111-125 | Atoms and ranges, the leftmost bare hyphen first, name exactly the points of each, refused where a range runs backwards |
| `QuotingUnits.InItems` | scripts/checks/check_log_quoting_class.py:111-125 | Every list of atoms is one of such atoms and ranges |
| `QuotingClass.CollectRuns` | scripts/checks/check_log_quoting_class.py:135-140 | The runs of the sorted points |
| `QuotingClass.Spell` | scripts/checks/check_log_quoting_class.py:133-141 | A set spelled as the class of its runs |
| `QuotingClass.RunsOfCover` | scripts/checks/check_log_quoting_class.py:135-140 | The runs are ascending, apart and maximal, and cover exactly the set |
| `QuotingClass.MaximalUnique` | scripts/checks/check_log_quoting_class.py:135-140 | A set has one list of such runs |
| `QuotingClass.SpellingReadsBackIff` | scripts/checks/check_log_quoting_class.py:103-141 | A spelling reads back as its set, and refuses exactly for the empty set and for a point past U+FFFF |
| `QuotingClass.PastFourDigitsRefused` | scripts/checks/check_log_quoting_class.py:128-141 | The spelling of U+10000 alone is refused |
| `QuotingClass.SpelledAlikeIff` | scripts/checks/check_log_quoting_class.py:133-141 | Two sets, any characters in them, are spelled alike exactly where they are equal |
| `QuotingClass.HexRoundTrip` | scripts/checks/check_log_quoting_class.py:128-130 | A code point's hexadecimal reads back |

## Left out

- MongoDB, pymongo, FastAPI and asyncio themselves: a snapshot, a commit or abort, one atomic increment and one lane step are the steps.
- Cryptography and key derivation: an anchor's id and a pseudonym are injective functions of the folded address, taken as given.
- Time of day and time zones: a day is a string, its end a number handed in; `Retry-After` is not modelled, nor the TTL monitor removing days that are over.
- DailyCeiling.DayAccounts: an erasure of the person, or a change onto the pseudonym they have, starts the day afresh and is outside its hypothesis.
- ShardPlan.PlanIgnoresOrder: costs are reals, where the source's mean of floats can depend on the order the files arrive in.
- AddressAnchor.Session.StoreRecord: one storing route stands for each; what its record holds besides addresses is one number.
- AddressAnchor.Session.Erase: removes each record it sees naming the address, where the source's steps redact, repoint or remove by kind.
- RouteAccount.SilenceCovers: an optional catch-all filled by no segment at all is not among the URLs a handler answers; nginx's prefix comparison differs there by design.
- GateProposal.StampMain: reading the attempts, and the run they must share, come before it; an attempt named twice is not among its inputs.
- RouteAccount.DynamicAccountedIff: for at most fifty thousand locations; one for every character a segment can open with would leave a handler's head no URL of its own.
- Reading locations out of the tree, refusing modifiers, named locations and `error_page` targets (`read_location`, `refusing`, `locations`): a location is handed in as its kind, path, limits and refusal.
- NginxAgreement.ReadersAgreeIff: text that opens a quote outside its comments is not among its texts, where a scanner keeps quotes as marks and a lexer strips them by design.
- Following constants (`_constant_behind`, `_resolved`), link pages, metadata conventions, trailing-slash twins and the other findings beside `account`.
- The seeded draws of `window_moves`: a row's moves are any list of the length drawn.
- Regular expressions are spelled out as predicates on strings; file walks, git calls, JSON and exit codes are inputs, and messages are the kind of finding and whom it names.
- FixtureCalls.Asker.Ask: which calls can be followed and which spellings read is handed in with the code, as each function's callees, names and refusal.
- ConstraintLanes.ApplyConcurrently: a cancellation, which escapes its lane and is ranked nowhere, is not an outcome of an operation here.
- Windows handles, polling clocks, spawning and signals: a listing hands in what opens, what has ended, the recorded creators and when a signal is sent.
- PoolHandshake.EveryRunningPoolIsNamed: says which pools a stop names, not that every unit they start is signalled, which `run_unit`'s own race leaves open.
- The stall notices (`watch_stalls`, `shown`), the manifest and the units' captures.
- The validator, index and rule tables of the constraints module, and the routes that call these helpers.
