# Verified models of PayIncus algorithms and protocols

A Dafny model of the parts of the repository that carry an algorithm or a protocol of their own, with proofs over
all inputs and all runs. `dafny verify dfyconfig.toml` checks everything; each file is one module.

**The locale pruner** (`client/vite.config.ts`) cuts properties out of TypeScript sources with a hand-written brace
matcher. `Lexer` is the lexical structure as a fold over characters, `LocalePruner` the source's functions,
`BraceStructure` what cuts do to an arbitrary text. `LocaleDocument`, `PrintedDocument`, `DocumentPruning`,
`DocumentPasses` and `LocalePasses` show that both build passes, run on the printed form of any well-formed
document, print exactly the pruned document. `PrunerCorners` and `KeptStructure` say exactly where the cuts and the
keeping of listed properties stop short of that, `PrunerText` what they are in any text, and `RenderedSource` is the
printer/scanner round trip.

**The route scanner** (`server/scripts/test-admin-route-guards.ts`): `CallScanner` is the code, `CallExtraction` its
laws, `ArgumentSplit` says which commas separate and `RouteCalls` what a call is and which route it gives;
`ScannerAgreement` compares the scanner's brace matcher with the pruner's.

**The billing repair** (`server/scripts/fix-migrated-instance-billing.ts`, `server/src/db/billing-records.ts`):
`BillingLineage` resolves predecessors, `LineageOrder` is the abstract theory of drawing records along a preorder,
`BillingRepair` connects the two, `BillingCounts` is about the counters, `BillingDatabase` is the imperative code and
`BillingTieBreak` a counterexample.

**The event component** (`incus-ui/src/Events.tsx`): `EventDelivery` (exactly-once callbacks) and `Reconnection`
(backoff, timers, retries).

**The seed scripts**: `SeedLedger`, `SeedCatalogue` and `SeedPlacement` (`server/scripts/seed-bulk-local-data.ts`),
`PlanReconciler` (`server/scripts/seed-test-data.ts`). **The service worker** (`client/public/sw.js`): `ServiceWorker`.
**The message-key check** (`server/scripts/test-frontend-i18n-keys.ts`): `MessageKeys`. `TextSearch` holds the
string functions that several modules share.

## What the proofs found

Where a desirable property does not hold of the code, the model keeps the code and the exact condition is proved.

- A second billing repair moves nothing if and only if the first one has left no record on a proper ancestor, in the
  lineages of the repaired table, of a target; that holds for every catalog and table
  (`BillingRepair.SecondRunMovesNothingIffSettled`). Predecessors are the same for all billing records if and only if
  the latest applicable message with candidates has a single one, or a single one that expires with the instance
  (`BillingLineage.ResolveIgnoresRecordsIffDetermined`). Then a second repair moves nothing for every table if and
  only if every cycle of lineages that holds two targets is drained by a target outside it
  (`BillingRepair.SecondRunMovesNothingIffDrained`). Otherwise the first run can change the second one's choices, and
  acyclic data need two runs (`BillingTieBreak.TieBreakNeedsSecondRun`).
- An authenticated event component without a socket is left without a timer if and only if its latest timer has fired
  (`Reconnection.StalledIffTimerFired`), so a failed attempt schedules nothing, and failures, closes and retries never
  end that (`Reconnection.StallLasts`). A socket that both errs and closes counts two failures
  (`Reconnection.FailedAttemptStalls`): as long as nothing resets the counter it grows by the closes and errors, which
  is the number of sockets that ended if and only if none of them ended twice (`Reconnection.CountedOnceIff`, and
  `Reconnection.FailuresIff` for whole histories).
- A callback is completed by `Success` and `Failure` only; a report with any other status, `Cancelled` for one,
  leaves it pending (`EventDelivery.FirstTerminalReportDecides`).
- A one-line value is cut without its closing brace if and only if a line break lies between them
  (`PrunerCorners.ScalarCutSparesBraceIff`); a value of several lines is cut after its first line
  (`PrunerCorners.TemplateBreaksStructure`), and the object around it survives if and only if the text behind the cut,
  read as code, first closes at the same brace (`BraceStructure.ScalarCutKeepsIff`), for a line that ends in code if
  and only if it is brace-neutral (`BraceStructure.ScalarPropertyPruned`); a lookup finds the value of its key if and
  only if that value starts with a brace (`PrunerCorners.FoundObjectIsValueIff`); a repeated key is gone if and only
  if it is listed as often as it occurs (`PrunerCorners.KeyGoneIff`).
- Keeping listed properties leaves the object closed behind them if and only if the kept lines are balanced
  (`KeptStructure.KeptClosesIff`); in printed documents they are when no kept item is a group of several lines and,
  where the first lines of such groups end in code, only then (`KeptStructure.KeptDocumentClosesIff`); otherwise later
  items can make up for it (`KeptStructure.TallMayClose`).
- The two brace scanners of the repository call the same positions code if and only if no comment opens in code and no
  quote closes a string directly behind an escaped backslash (`ScannerAgreement.CodeAgreesIff`).
- The cache of a worker holds exactly the puts made into it, in the order in which they were made, so it has the last
  good answer for an address if and only if the last put made for that address carries it
  (`ServiceWorker.CacheHoldsPutsMade`, `ServiceWorker.UpToDateIff`). When no two responses to the address are equal,
  that is so if and only if the last answer has been put and no other of them after it
  (`ServiceWorker.UpToDateIffPutLast`); puts are not ordered like answers (`ServiceWorker.OlderPutLast`).
- After a message to clear, a response that was waiting for its cache to be opened is cached all the same. The cache
  then holds only what has been fetched since if and only if each such address has been fetched again
  (`ServiceWorker.UpToDateSinceClearIff`).
- Reconciling plans fails, half done, if and only if a name that the table lacks is specified twice
  (`PlanReconciler.Database.EnsurePlans`): the unique index on package and name refuses the second creation.
- Every key of a message tree is listed once when it resolves to a string, and not at all otherwise, if and only if
  every string is reached through keys without dots (`MessageKeys.ListedOnceIffClean`). In every tree, such keys or
  not, the check compares by how many strings each key is reached (`MessageKeys.AssertNamespaceParity`).
- The package, plan and host of an instance are all remainders of its index. A package uses one of its hosts or plans
  if and only if the greatest common divisor of the numbers of packages and of these divides the difference of their
  positions (`SeedPlacement.HostUsedIff`, `SeedPlacement.PlanUsedIff`). With four packages an owner, every plan is used
  if and only if the owners are no multiple of three (`SeedPlacement.EveryPlanUsedIff`); with six of them each package
  uses one plan and, of one or two hosts, one host (`SeedPlacement.OneOfEach`).
- The two public ports of an instance stay in its host's range if and only if its index is at most 94
  (`SeedCatalogue.PortsInRangeIff`).

## Model

| member | source | states |
|---|---|---|
| LocalePruner.FindMatchingBrace | client/vite.config.ts:7-64 | The loop with its five variables and one character of lookahead returns what the lookahead-free search returns, from every start, past the end included |
| Lexer.ScanIsFirstClose | client/vite.config.ts:7-64 | The search stops at p exactly when p is the first `}` in code at which the plain folds over modes and depths come down to zero; otherwise its state is that of the folds |
| LocalePruner.MatchBraceIsFirstClose | client/vite.config.ts:7-64 | The matcher returns r if and only if r is that first position, and -1 if and only if there is none |
| Lexer.ScanConcat | client/vite.config.ts:16-61 | Scanning is compositional: a prefix closes, or the rest is scanned from the state it leaves |
| Lexer.ScanLifted | client/vite.config.ts:55-60 | While nothing closes, starting k levels deeper only adds k to the depth, and the depth stays positive |
| Lexer.InnerClosesFirst | client/vite.config.ts:55-60 | A brace opened inside a matched pair closes strictly before the outer one, and scanning goes on at the depth at which it was opened |
| Lexer.ClosePositionFixesDepth | client/vite.config.ts:55-60 | Two starting depths that close at the same position are equal |
| RenderedSource.ScanFindsRenderedEnd | client/vite.config.ts:7-64 | Any nesting of objects with strings in all three quotes, escapes, line and block comments, printed between any prefix and suffix: scanning from its brace returns exactly its closing brace |
| BraceStructure.InnerBraceCloses | client/vite.config.ts:7-64 | Matched pairs are laminar in every text: any `{` in code inside a pair, behind a lone slash too, has its match strictly inside, and behind it the depth is as before |
| BraceStructure.CleanNested | client/vite.config.ts:55-60 | A code position at depth d in an inner object is a code position at depth e + d in the outer one, when the inner brace is code at depth e |
| BraceStructure.CutInsideBraces | client/vite.config.ts:80-94 | A cut between two code positions of equal depth moves the enclosing closing brace left by exactly the length of the cut |
| LocalePruner.RemoveLocaleObjectProperty | client/vite.config.ts:66-95 | The method deletes exactly the slice `PropertyCut` names, on every branch, or nothing |
| PrunerText.CutIs | client/vite.config.ts:66-95 | In every text: a value that is an object matched in the range goes with its head and trailer, an object that is not leaves everything, any other value goes to the end of its line |
| PrunerText.NothingWithoutHead | client/vite.config.ts:66-72 | A text in which no line carries the key as a property is left alone |
| PrunerText.TrailerTaken | client/vite.config.ts:88-92 | Behind a removed object goes the longest text that is a comma or none and a line break of either kind or none |
| LocalePruner.ValueNotSpace | client/vite.config.ts:77-78 | The loop that skips white space before a value never moves, because the pattern has consumed it |
| BraceStructure.ObjectPropertyPruned | client/vite.config.ts:84-94 | In every text an object value in code inside a matched object is cut whole with comma and line break, strictly inside the outer braces, and the outer closing brace moves by the length of the cut |
| BraceStructure.ScalarCutKeepsIff | client/vite.config.ts:73-82 | A value that is no object is cut to the end of its line; when that is before the closing brace, whatever mode the line ends in, the outer brace stays matched if and only if the text behind, read as code at the depth of the property, first closes there |
| BraceStructure.ScalarPropertyPruned | client/vite.config.ts:73-82 | When moreover the line ends in code, the outer brace stays matched if and only if the depth there is the depth before |
| PrunerCorners.ScalarCutSparesBraceIff | client/vite.config.ts:73-82 | Such a cut stays before the closing brace if and only if a line break lies between; otherwise it takes the brace and the next character |
| PrunerCorners.TemplateBreaksStructure | client/vite.config.ts:73-82 | A template literal of two lines for which the object ends too early after the cut |
| LocalePruner.FindLocaleObjectRange | client/vite.config.ts:97-110 | The method returns the range of `FindRange`, which starts at a `{` inside the given range and ends just behind its match |
| PrunerCorners.FoundObjectIsValueIff | client/vite.config.ts:104-109 | A found object is the value of the key if and only if the value starts with a brace; otherwise it is at the next brace of the text |
| PrunerCorners.LookupMisled | client/vite.config.ts:104-109 | A text in which a scalar property makes the lookup return the object of another key |
| BraceStructure.FoundAgain | client/vite.config.ts:97-110 | After a depth-neutral cut inside it, an object is found at the same place, shorter by the cut |
| BraceStructure.LocatedAgain | client/vite.config.ts:274-280 | The same for a chain of lookups, as in the loop over the packages object |
| BraceStructure.ProperStepNeutral | client/vite.config.ts:66-95 | Such a removal cuts nothing, or between two code positions of equal depth inside the braces |
| BraceStructure.ProperStepKeeps | client/vite.config.ts:274-280 | It leaves the objects of a whole path nested in code and is followed by a lookup that finds the innermost one again |
| BraceStructure.LoopKeepsObject | client/vite.config.ts:216-220 | For every text: when the objects on the path are nested in code and every removal meets no property, or one in code whose value is an object or ends its line in code at the same depth, every lookup of the loop finds the same object, the loop never stops early, and all text outside the braces is unchanged |
| LocalePruner.RemoveListedKeys | client/vite.config.ts:216-220 | The loop that looks the object up before each removal is the recursive specification, including where it stops |
| LocalePruner.KeepLocaleObjectProperties | client/vite.config.ts:116-134 | The method returns what `KeepProperties` says: the contents replaced by the first line of each listed key, or nothing changed |
| PrunerText.KeptLineIs | client/vite.config.ts:124-130 | A kept line is what the regular expression matches first: the leftmost line with the indented key, as much white space as possible, line breaks included, and a rest of a line that is not empty; nothing is kept when it matches nowhere |
| KeptStructure.KeptClosesIff | client/vite.config.ts:116-134 | For every text: after keeping, the object closes right behind the kept lines if and only if these are balanced |
| KeptStructure.KeptLinesAreItems | client/vite.config.ts:124-130 | In a printed object the kept text is, for each listed key, the first field with the key whole or the first line of the first group with it |
| KeptStructure.ItemsScan | client/vite.config.ts:124-130 | The kept lines leave open exactly the braces that the first lines of groups of several lines open |
| KeptStructure.KeptDocumentClosesIff | client/vite.config.ts:116-134 | In every printed document the object closes right behind the kept lines if and only if the kept items are balanced: when no kept item is a group of several lines, and, where the first lines of such groups end in code, only then |
| KeptStructure.TallMayClose | client/vite.config.ts:116-134 | A well-formed document whose kept items are balanced although one of them is a group of several lines, because its first line ends in a comment |
| KeptStructure.KeptGroupLosesItsEnd | client/vite.config.ts:116-134 | A text on which keeping a property whose value is an object of two lines leaves the object around it unclosed |
| LocalePruner.StripAdminOnlyLocaleMessages | client/vite.config.ts:136-283 | The admin pass as three loops equals its specification, with its early return |
| LocalePruner.StripUserOnlyLocaleMessages | client/vite.config.ts:285-343 | The user pass equals its specification, with its early returns |
| PrintedDocument.RenderBalanced | client/vite.config.ts:7-64 | The printed form of every well-formed document leaves the scanner in code at the depth it started from |
| PrintedDocument.SearchInDocument | client/vite.config.ts:69-70 | In a printed document the pattern for a key matches first at the first item with that key and indentation, and nowhere when there is none |
| DocumentPruning.FieldCut | client/vite.config.ts:73-82 | The cut for a one-line field is exactly its printed line |
| DocumentPruning.GroupCut | client/vite.config.ts:84-94 | The cut for a group is exactly its printed text with comma and line break |
| DocumentPruning.RemovalCommutes | client/vite.config.ts:66-95 | Removing a property of a printed document prints the document without its first item with that key; every other character is unchanged |
| DocumentPasses.LookupCommutes | client/vite.config.ts:97-110 | A chain of text lookups finds exactly the document at the path, and nothing if and only if a key is missing |
| DocumentPasses.LoopCommutes | client/vite.config.ts:216-220 | A loop that looks up and removes key after key prints the pruned document and runs to its end |
| DocumentPasses.PruneCommutes | client/vite.config.ts:274-280 | The same when the object may be missing; the loop stops early if and only if it is |
| LocalePasses.KeepCommutes | client/vite.config.ts:116-134 | Keeping listed fields of a printed object prints the document reduced to them, in the order of the list |
| LocalePasses.AdminPassCommutes | client/vite.config.ts:136-283 | The admin build's pass on any printed well-formed locale source prints the document without the listed keys |
| LocalePasses.UserPassCommutes | client/vite.config.ts:285-343 | The same for the user build, its last step and its early returns included |
| PrunerCorners.RemovalCounts | client/vite.config.ts:216-220 | A loop removes as many properties of a key as the list names it, as far as there are that many |
| PrunerCorners.KeyGoneIff | client/vite.config.ts:216-220 | A key is gone after a loop if and only if it did not occur more often than it is listed |
| PrunerCorners.OthersKept | client/vite.config.ts:216-220 | A loop leaves every property of another key and every filler as it is, in order |
| CallScanner.FindMatching | server/scripts/test-admin-route-guards.ts:52-78 | The loop with the previous-character quote rule equals the search from the state it reaches, for any pair of brackets and any start |
| CallScanner.SkipGenericBlock | server/scripts/test-admin-route-guards.ts:22-50 | The block skipper returns the position behind a matched `<...>`, and the position of `<` when there is no match |
| CallScanner.SplitTopLevelArgs | server/scripts/test-admin-route-guards.ts:80-119 | The loop with four depths, a quote and a start index returns the recursive split |
| CallExtraction.SplitLossless | server/scripts/test-admin-route-guards.ts:80-119 | Joining the pieces with commas gives back the text, from every scanner state |
| CallExtraction.SplitConcat | server/scripts/test-admin-route-guards.ts:80-119 | split(a + "," + b) is split(a) + split(b) whenever a leaves the scanner at the top level |
| CallExtraction.SplitPieces | server/scripts/test-admin-route-guards.ts:80-119 | Every piece re-splits to itself and all but the last leave the scanner at the top level |
| CallExtraction.SplitCharacterized | server/scripts/test-admin-route-guards.ts:80-119 | A list of pieces is the split of a text if and only if it joins to the text and is canonical |
| ArgumentSplit.PieceEndsIff | server/scripts/test-admin-route-guards.ts:80-119 | For every text: a piece ends at a position if and only if an unquoted comma stands there and, counted over the unquoted text before it, as many parentheses, braces and square brackets are closed as opened, and no angle bracket is open |
| ArgumentSplit.MatchedInOnePiece | server/scripts/test-admin-route-guards.ts:52-119 | In every text no piece ends between a bracket in code and its match, when before it no more brackets of its kind are closed than opened |
| CallExtraction.ArgumentsBalanced | server/scripts/test-admin-route-guards.ts:166-169 | Between a parenthesis and its match the splitter's depth is never negative, is zero at the end, and no quote is open there |
| CallScanner.ReadStringLiteral | server/scripts/test-admin-route-guards.ts:121-135 | The loop returns the text up to the first quote not preceded by a backslash, and nothing without one |
| CallExtraction.LiteralReadsBack | server/scripts/test-admin-route-guards.ts:121-135 | A quoted literal between white space and any text reads back exactly |
| CallExtraction.ReadIsLiteral | server/scripts/test-admin-route-guards.ts:121-135 | Whatever is read stands as such a literal at the front of the trimmed text |
| CallScanner.FindCall | server/scripts/test-admin-route-guards.ts:158-167 | The loop over the methods returns the first one that completes a call at the position |
| RouteCalls.CallWithIff | server/scripts/test-admin-route-guards.ts:137-165 | A call with a method is found at a position, with these parentheses, if and only if there stand the receiver and the method, white space, nothing or a block `<...>` that its last character matches, white space, and a parenthesis with that match |
| RouteCalls.CallAtIff | server/scripts/test-admin-route-guards.ts:157-167 | The call found at a position is the one that stands there with one of the five methods, and at most one does |
| CallScanner.CollectRoutes | server/scripts/test-admin-route-guards.ts:157-189 | The loop that jumps its index returns the routes of the specification and terminates |
| RouteCalls.WrittenRouteCollected | server/scripts/test-admin-route-guards.ts:157-189 | Wherever a proper call is written whose first argument is a literal that is not empty, if no earlier call spans it, a route is collected with the number of its line, the method in capitals, the literal as path, the second argument as options, and the arguments from the second on, on lines of their own, as handler |
| CallExtraction.CallsInOrder | server/scripts/test-admin-route-guards.ts:157-189 | Visited calls are well-formed, pairwise disjoint and strictly increasing |
| CallExtraction.CallsComplete | server/scripts/test-admin-route-guards.ts:157-189 | Wherever a call begins, a visited call begins there or spans the position |
| CallExtraction.RoutesAreOfCalls | server/scripts/test-admin-route-guards.ts:168-187 | The collected routes are the recorded ones among the visited calls, in order |
| CallExtraction.RoutesInOrder | server/scripts/test-admin-route-guards.ts:176-184 | Recorded routes have a path and their line numbers never decrease |
| ScannerAgreement.CodeAgreesIff | server/scripts/test-admin-route-guards.ts:52-78 | From corresponding states, up to any end, both scanners call the same positions code if and only if neither of the two happens up to there |
| ScannerAgreement.ScannersAgree | server/scripts/test-admin-route-guards.ts:52-78 | From every start both brace matchers return the same position when, up to the position that one of them returns, no comment opens in code and no quote closes a string directly behind an escaped backslash |
| ScannerAgreement.SimpleTextsAgree | server/scripts/test-admin-route-guards.ts:52-78 | In particular they agree, from every start, on text without `//`, `/*` and doubled backslashes |
| ScannerAgreement.LineCommentsDisagree | client/vite.config.ts:42-46 | A text with a line comment for which they return 5 and 3 |
| ScannerAgreement.BlockCommentsDisagree | client/vite.config.ts:47-51 | A text with a block comment for which they return 6 and 3 |
| ScannerAgreement.EscapedBackslashesDisagree | client/vite.config.ts:29-40 | A text with an escaped backslash before a closing quote for which they return 5 and nothing |
| BillingDatabase.Database.ResolveImmediateSource | server/src/db/billing-records.ts:86-167 | The loop from the latest message back returns the first predecessor that a message names |
| BillingLineage.ResolvedIsDeletedSibling | server/src/db/billing-records.ts:114-130 | A resolved predecessor is another, deleted instance of the same user |
| BillingLineage.ChoiceIs | server/src/db/billing-records.ts:131-163 | Among candidates with distinct identifiers one is chosen if and only if it is the only candidate; or, without such a one, the only one that expires with the instance; or, without such a one either, the only one with a billing record |
| BillingLineage.ResolvedIff | server/src/db/billing-records.ts:86-167 | An instance has that predecessor if and only if the latest message that names any names it: the message is for the instance and its host, and the instance is so chosen among the deleted ones of the user on the old host, with the expected name, changed within half an hour of the message |
| BillingLineage.ChoiceIgnoresRecordsIffDecided | server/src/db/billing-records.ts:143-163 | Among distinct candidates the choice is the same for all billing records if and only if there is at most one candidate or exactly one preferred one |
| BillingLineage.ResolveIgnoresRecordsIffDetermined | server/src/db/billing-records.ts:86-167 | A predecessor is the same for all billing records if and only if the choice at the latest applicable message with candidates is |
| BillingDatabase.Database.GetInstanceBillingLineageIds | server/src/db/billing-records.ts:173-195 | The walk with its visited set returns the lineage and terminates on cycles |
| BillingRepair.LineageShape | server/src/db/billing-records.ts:173-195 | A lineage has no repetitions and ends with the instance |
| BillingRepair.LineageIsChain | server/src/db/billing-records.ts:173-195 | A lineage is the chain of resolved predecessors: each entry is that of the next, the last is the instance, and the first has no predecessor that is not on the lineage |
| BillingRepair.LineagesFormPreorder | server/src/db/billing-records.ts:173-195 | Everything is on its own lineage, and the lineage of anything on a lineage is part of it, cycles included |
| BillingDatabase.Database.ReassignInstanceBillingRecords | server/src/db/billing-records.ts:419-432 | Exactly the records of the source move, and the count is theirs |
| BillingDatabase.Database.Repair | server/scripts/fix-migrated-instance-billing.ts:46-111 | The loop over the messages, cut off at the limit, with all counters and the processed set, equals the specification, in dry and applied runs |
| BillingRepair.RunConserves | server/scripts/fix-migrated-instance-billing.ts:46-111 | Over any run no record is lost, added or altered but for its instance, every message is counted once, and a dry run changes nothing |
| BillingCounts.RepairCounts | server/scripts/fix-migrated-instance-billing.ts:46-111 | For every catalog: the skipped messages are those without an instance of their user or with one that an earlier such message names, the unresolved ones those whose instance has no predecessor at that moment, the eligible ones the rest, and the records moved those that have changed their instance, message by message |
| BillingRepair.HandleDraws | server/scripts/fix-migrated-instance-billing.ts:57-110 | For every catalog: one message draws every record on the lineage of its target, as it is then, to the target, and moves nothing if and only if none is there |
| BillingRepair.MovesNothingIffSettled | server/scripts/fix-migrated-instance-billing.ts:46-111 | For every catalog, tie-breaks and cycles included: a run moves nothing if and only if no record is on a proper ancestor of a target in the lineages at its start, and then changes nothing |
| BillingRepair.RunDrawsAlong | server/scripts/fix-migrated-instance-billing.ts:46-111 | For every catalog, tie-breaks and cycles included: a run draws each record, message by message, along the lineages as they then are, so records of one instance stay together |
| BillingRepair.RunDraws | server/scripts/fix-migrated-instance-billing.ts:46-111 | When predecessors do not depend on records, a run draws each record along all its targets in turn |
| LineageOrder.ConvergesIffDrained | server/scripts/fix-migrated-instance-billing.ts:46-111 | Over any preorder: one pass settles every starting place if and only if every cycle with two targets has a target outside it that draws from it |
| LineageOrder.AcyclicPrefixesSettle | server/scripts/fix-migrated-instance-billing.ts:46-111 | Without cycles among the targets every prefix of a run, in any order, settles every record for the targets processed so far |
| BillingRepair.SecondRunMovesNothingIffSettled | server/scripts/fix-migrated-instance-billing.ts:46-111 | For every catalog and table: the second run moves nothing if and only if the first has left nothing on a proper ancestor, in the lineages of the repaired table, of a target |
| BillingRepair.SecondRunMovesNothingIffDrained | server/scripts/fix-migrated-instance-billing.ts:46-111 | With predecessors independent of records, a second run moves zero records for every table if and only if every such cycle is drained |
| BillingRepair.NothingLeftOnAncestors | server/scripts/fix-migrated-instance-billing.ts:46-111 | Without cycles no record is left on a proper ancestor of a processed target, after any messages in any order |
| BillingTieBreak.TieBreakNeedsSecondRun | server/src/db/billing-records.ts:154-157 | Acyclic data, with messages in the order of the migrations, in which the tie-break by records makes a second run move a record |
| EventDelivery.Component.HandleEvent | incus-ui/src/Events.tsx:62-82 | The new queue and calls of one report: completion, then finish, then removal, or nothing |
| EventDelivery.Component.ReEvaluateOperations | incus-ui/src/Events.tsx:151-155 | A pass over a list handles its operations in order |
| EventDelivery.FirstTerminalReportDecides | incus-ui/src/Events.tsx:62-82 | A pending callback is completed by the first terminal report for its operation, with that report's result, and by nothing else; without one it stays pending |
| EventDelivery.RegistrationOutcome | incus-ui/src/Events.tsx:62-82 | Along any steps a pending registration is not called until its id is registered anew or a fired task reports the end of its operation; then it is never called, or the first such report makes the success or failure callback, with its result or message, and then the finish, and nothing else ever |
| EventDelivery.EveryCallReported | incus-ui/src/Events.tsx:62-82 | Over every run each success callback comes from a report with status `Success`, that result and the operation id of the registration, handled after it, and each failure callback from one with status `Failure` and that message |
| EventDelivery.TasksConserved | incus-ui/src/Events.tsx:157-173 | Over every run each message received and each poll, with the list known when it was scheduled, is handled once or still waits, and nothing else is |
| EventDelivery.EveryRegistrationAccounted | incus-ui/src/Events.tsx:151-173 | Over every interleaving of registrations, delayed messages and polling passes with stale lists, each registration is pending and untouched, replaced and never called, or completed by exactly one call and its finish |
| EventDelivery.FreshPendingOrCompleted | incus-ui/src/Events.tsx:241-250 | When operation ids are not reused, every registration is either pending or completed exactly once |
| Reconnection.DelayShape | incus-ui/src/Events.tsx:266-268 | The delay is monotone and at most 30000, doubles from one to five failures, and is the maximum if and only if there are at least six |
| Reconnection.DelayValues | incus-ui/src/Events.tsx:266-268 | The delay is 0, 1, 2, 4, 8 and 16 seconds for zero to five failures and 30 seconds for more |
| Reconnection.EventSocket.RegisterFailureIfShortLived | incus-ui/src/Events.tsx:183-190 | The counter grows for a socket that never opened or lived less than 5000 ms, and is reset otherwise |
| Reconnection.ResetIff | incus-ui/src/Events.tsx:183-190 | The end of a socket resets the counter if and only if it has opened at least 5000 ms before, and otherwise adds one |
| Reconnection.ResetInHistoryIff | incus-ui/src/Events.tsx:183-194 | In every history that is so if and only if the last event that opened the socket lies at least 5000 ms back |
| Reconnection.EventSocket.Effect | incus-ui/src/Events.tsx:263-279 | Running the effect clears the timer of the run before and sets one only when unconnected and authenticated |
| Reconnection.EventSocket.ConnectEventWs | incus-ui/src/Events.tsx:177-261 | An attempt constructs a socket, or schedules a retry with its delay, or after the fifth retry notifies |
| Reconnection.OneTimerAtMost | incus-ui/src/Events.tsx:263-279 | In every history, throwing constructors and their retries included, at most one timer of the effect is outstanding, none while connected or logged out, and every delay used lies in [0, 30000] |
| Reconnection.AttemptsBounded | incus-ui/src/Events.tsx:252-260 | In every history a pending retry is the first to fifth of its chain, and all chains together, however they interleave, make at most six attempts each |
| Reconnection.ResetOnlyAfterLongLife | incus-ui/src/Events.tsx:183-190 | The failure count goes down only to zero and only at the end of a socket that was open for at least 5000 ms |
| Reconnection.EndSchedulesIffConnected | incus-ui/src/Events.tsx:196-203 | The end of a socket schedules a reconnect if and only if an open socket was known, with the delay of the new count |
| Reconnection.StalledIffTimerFired | incus-ui/src/Events.tsx:263-279 | Over all histories: an authenticated component without a socket has no timer if and only if the latest timer has fired |
| Reconnection.StallLasts | incus-ui/src/Events.tsx:196-203 | No sequence of failures, closes and retries ends that state, as long as no socket opens, the tab does not become visible and the user stays authenticated |
| Reconnection.FailedAttemptStalls | incus-ui/src/Events.tsx:200-203 | For one, a first attempt that errs and closes without opening counts two failures and leaves no timer |
| Reconnection.CountedOnceIff | incus-ui/src/Events.tsx:183-204 | From any state, along any events none of which resets the counter, it grows by the closes and errors of sockets, which is the number of sockets that ended if and only if none of them ended twice |
| Reconnection.FailuresIff | incus-ui/src/Events.tsx:183-204 | In every history, resets included, the counter is the number of closes and errors since the last reset, and that of the sockets they ended if and only if none of these ended twice |
| Reconnection.RetriesBounded | incus-ui/src/Events.tsx:252-260 | In every history, however timers and retries interleave, each chain of attempts is pending after one to five of them, connected after k retries and k + 1 attempts with k at most five, or given up after exactly six attempts, 2500 ms of waiting and one notice; the k-th retry waits 250 * (k - 1) ms |
| SeedLedger.SpendByUser | server/scripts/seed-bulk-local-data.ts:1526-1529 | The map holds for every user the sum of the prices of the user's instances |
| SeedLedger.Accounts.SyncBalances | server/scripts/seed-bulk-local-data.ts:1526-1581 | The loop leaves the specified logs and balances |
| SeedLedger.LogsByRole | server/scripts/seed-bulk-local-data.ts:377-388 | Administrators are credited by adjustment and given 1500, customers recharge under an order of their own and are given 300 + 10 * index; the credit is the larger of what the role gets and the spending with its cushion; the spending is consumed in one log if there is any |
| SeedLedger.UserLogsChain | server/scripts/seed-bulk-local-data.ts:377-386 | A user's logs form a chain from zero that never dips below zero and leaves at least 2000 + 50 * index + gift |
| SeedLedger.LedgerCorrect | server/scripts/seed-bulk-local-data.ts:1533-1581 | In the whole ledger each user's logs are that chain and end at the stored balance |
| SeedLedger.MoneyConserved | server/scripts/seed-bulk-local-data.ts:1526-1581 | All final balances sum to all recharges and gifts less the prices of all instances of seed users |
| SeedLedger.AccumulateUsage | server/scripts/seed-bulk-local-data.ts:1589-1600 | The accumulate-into-map loops give every listed host exactly what its own instances use |
| SeedLedger.OneInstanceUses | server/scripts/seed-bulk-local-data.ts:1594-1600 | One instance counts with the processor, memory and disk of its plan on its own host only |
| SeedLedger.UsageConserved | server/scripts/seed-bulk-local-data.ts:1589-1630 | The totals over hosts are the totals over all instances whose host is among them |
| SeedCatalogue.RoundMonotone | server/scripts/seed-bulk-local-data.ts:373-375 | Rounding to steps is monotone, for every double-precision rounding of the quotient |
| SeedCatalogue.RoundNear | server/scripts/seed-bulk-local-data.ts:373-375 | It yields a positive multiple of the step, off by at most half a step and the error of one operation for values from half a step to 2^53 |
| SeedCatalogue.RoundWithinMaximum | server/scripts/seed-bulk-local-data.ts:541-551 | A share of at most 0.68 of a maximum of at least one step and at most 2^53, computed in doubles, never rounds above the maximum |
| SeedCatalogue.PlansBounded | server/scripts/seed-bulk-local-data.ts:538-566 | Computed in doubles, along a package's plans sizes do not decrease and stay within the maxima, and prices strictly increase |
| SeedCatalogue.PlanSizesNear | server/scripts/seed-bulk-local-data.ts:534-545 | Computed in doubles, the three plans have 18, 36 and 58 percent of the maxima, or 28, 46 and 68 for virtual machines, to within half a step |
| SeedCatalogue.BuildPackageSpecs | server/scripts/seed-bulk-local-data.ts:406-512 | The loop over the owners builds the four packages of each, numbered consecutively |
| SeedCatalogue.PackageTerms | server/scripts/seed-bulk-local-data.ts:406-512 | Of each owner's four packages the last is for virtual machines; the maxima of a package and the prices of its plans are these functions of its number |
| SeedCatalogue.KeysDiffer | server/scripts/seed-bulk-local-data.ts:537-537 | Padding loses nothing: equal keys have equal numbers, of any number of digits |
| SeedCatalogue.PackageKeysUnique | server/scripts/seed-bulk-local-data.ts:406-512 | No two packages share a key |
| SeedCatalogue.UniqueOrder | server/scripts/seed-bulk-local-data.ts:609-611 | The hosts of a package are kept in the order in which their names occur first |
| SeedCatalogue.PlaceableIffHost | server/scripts/seed-bulk-local-data.ts:409-411 | A package has hosts if and only if its owner has a host whose type admits the package's kind |
| SeedCatalogue.PlacedAdmissibly | server/scripts/seed-bulk-local-data.ts:613-629 | Every instance, of any index, is placed on a host of its package's owner whose type admits it |
| SeedPlacement.HostUsedIff | server/scripts/seed-bulk-local-data.ts:613-629 | A package places an instance on its host j if and only if the greatest common divisor of the numbers of packages and of its hosts divides the difference of the two positions |
| SeedPlacement.PlanUsedIff | server/scripts/seed-bulk-local-data.ts:613-629 | The same for its plans |
| SeedPlacement.OneOfEach | server/scripts/seed-bulk-local-data.ts:613-629 | When the number of packages is a multiple of that of its hosts, or of its plans, a package uses a single one of them |
| SeedPlacement.EveryPlanUsedIff | server/scripts/seed-bulk-local-data.ts:613-629 | Every plan of every generated package is used by some index if and only if the number of owners is no multiple of three |
| SeedCatalogue.PortsInRangeIff | server/scripts/seed-bulk-local-data.ts:1236-1249 | Both public ports lie in the host's range if and only if the instance index is at most 94 |
| SeedCatalogue.HostRangesDisjoint | server/scripts/seed-bulk-local-data.ts:330-331 | The port ranges of different hosts are disjoint, for all indices |
| SeedCatalogue.PortsDistinct | server/scripts/seed-bulk-local-data.ts:330-331 | Up to that index no two mappings of any instances on any hosts share a public port |
| PlanReconciler.Database.EnsurePlans | server/scripts/seed-test-data.ts:383-449 | Fails if and only if a name the table lacks is specified twice, and then says what is done already; otherwise leaves the reconciled table and counts creations and updates exactly |
| PlanReconciler.ExistingRowAfter | server/scripts/seed-test-data.ts:388-448 | A row keeps its identity, package, name and whatever no specification mentions; in the package it gets the terms and activity of the last specification of its name, or is only switched off; in others it stays |
| PlanReconciler.CreatedRowsAre | server/scripts/seed-test-data.ts:404-440 | One row is created for each specification whose name the package lacks, in their order, with consecutive identifiers, its terms and activity and nothing else set |
| PlanReconciler.SwitchedOffCounted | server/scripts/seed-test-data.ts:441-448 | As many rows are switched off as active rows of the package have a name that is not specified |
| PlanReconciler.SucceedsIff | server/scripts/seed-test-data.ts:383-449 | A run succeeds if and only if no name that the package lacks is specified twice |
| PlanReconciler.HalfDoneRow | server/scripts/seed-test-data.ts:388-440 | A run that fails leaves each row as the specifications before the failing one say, and switches none off |
| PlanReconciler.DistinctNamesSucceed | server/scripts/seed-test-data.ts:383-449 | Distinct names succeed on every table |
| PlanReconciler.ExactlyOneRowEach | server/scripts/seed-test-data.ts:383-449 | With distinct names every specification has exactly one row, with its terms and its activity |
| PlanReconciler.RowsSettled | server/scripts/seed-test-data.ts:441-448 | After a run every row of the package is as the last specification of its name says, or inactive |
| PlanReconciler.KeysStayUnique | server/prisma/schema.prisma:2934-2934 | After a successful run no two rows share package and name |
| PlanReconciler.OtherPackagesUntouched | server/scripts/seed-test-data.ts:383-449 | Other packages keep exactly their rows |
| PlanReconciler.SecondRunChangesNothing | server/scripts/seed-test-data.ts:388-403 | A run after a successful run creates nothing, switches nothing off and leaves the table equal |
| ServiceWorker.ShouldCache | client/public/sw.js:59-75 | Accepts exactly same-origin addresses whose path contains no network-only pattern and ends, in any case, in a listed extension |
| ServiceWorker.HandlesIff | client/public/sw.js:59-92 | A request is handled if and only if it is a GET of the same origin that is no navigation, its path contains none of five texts, and it ends, letter by letter and in any case, in one of eleven extensions |
| ServiceWorker.Browser.FetchAnswered | client/public/sw.js:92-106 | Exactly a handled request answered with status 200 leaves a pending opening of the worker's cache |
| ServiceWorker.AnswerKeptIff | client/public/sw.js:92-106 | An answer is kept for caching, with its address, if and only if it is handled and has status 200 |
| ServiceWorker.Browser.FetchFailed | client/public/sw.js:108-110 | A handled request is served by the first cache that has its address, or not at all |
| ServiceWorker.ServedByOldestIff | client/public/sw.js:108-110 | Something is served if and only if some existing cache has the address, and it comes from the oldest such cache |
| ServiceWorker.ServedWasAnswered | client/public/sw.js:78-116 | In every run, of any workers, with openings and puts pending in any order between clears and activations, whatever is served was an earlier answer of status 200 to a handled request for that address |
| ServiceWorker.Browser.Activate | client/public/sw.js:37-56 | An uninterrupted activation leaves the worker's cache alone, with its contents |
| ServiceWorker.NamesKept | client/public/sw.js:41-51 | A cache that exists after any run was opened in it, or existed before and was not deleted |
| ServiceWorker.ActivationLeavesCurrent | client/public/sw.js:41-51 | Whatever interleaves with an activation, once its deletions are done every cache is its own or was opened meanwhile |
| ServiceWorker.FoldIsLatest | client/public/sw.js:98-105 | Putting responses in order leaves for each address the last one, and nothing for other addresses |
| ServiceWorker.CacheHoldsPutsMade | client/public/sw.js:92-131 | At every moment of every run, of any workers, in any order and with deletions at any time, a cache holds exactly the puts made into it since its last deletion |
| ServiceWorker.UpToDateIff | client/public/sw.js:92-106 | From any state without the cache, such as one after a clear, in any order: for each address the cache has the last good answer since if and only if the last put made for that address carries it |
| ServiceWorker.UpToDateIffPutLast | client/public/sw.js:92-106 | In every run whatever is cached for an address is the response whose put was made last of those for it; so it is the last good answer when that one has been put and no other after it and, if no two of them are equal, only then |
| ServiceWorker.PutsMadeRearranged | client/public/sw.js:97-105 | In any order, once nothing is pending, the puts made are a rearrangement of what was waiting and the good answers since, so exactly their addresses are cached |
| ServiceWorker.PutsMadeInOrder | client/public/sw.js:97-105 | With openings and puts in order, at every moment, what has been put is a beginning of what was waiting and then the good answers |
| ServiceWorker.CacheUpToDate | client/public/sw.js:92-106 | So in order, once nothing is pending, the cache is that of what was waiting and then the good answers |
| ServiceWorker.UpToDateSinceClearIff | client/public/sw.js:119-131 | After a clear the cache is that of the good answers since if and only if every address that was waiting has been answered again |
| ServiceWorker.OlderPutLast | client/public/sw.js:98-105 | Out of order, an older response can replace a newer one for good |
| MessageKeys.ResolveMessage | server/scripts/test-frontend-i18n-keys.ts:129-136 | The loop over the parts of a key returns the value at that path, or undefined |
| MessageKeys.ListedIffResolved | server/scripts/test-frontend-i18n-keys.ts:164-170 | A key is listed if and only if it resolves to a string, under any prefix |
| MessageKeys.ListedOnce | server/scripts/test-frontend-i18n-keys.ts:164-170 | No key is listed twice |
| MessageKeys.ListedIffLeaf | server/scripts/test-frontend-i18n-keys.ts:172-185 | The keys listed for a namespace are the string leaves below it in the whole tree |
| MessageKeys.ListedPerLeaf | server/scripts/test-frontend-i18n-keys.ts:164-170 | In every tree, under a name, a key is listed as often as there are strings whose keys join to it |
| MessageKeys.ListedOnceIffClean | server/scripts/test-frontend-i18n-keys.ts:129-170 | In every tree each key is listed exactly once when it resolves to a string and not at all otherwise, if and only if every string is reached through keys without dots |
| MessageKeys.SortAgreesIff | server/scripts/test-frontend-i18n-keys.ts:175-184 | Sorted lists are equal if and only if the lists hold the same keys equally often |
| MessageKeys.ListsAgreeIff | server/scripts/test-frontend-i18n-keys.ts:164-184 | For every two trees and every name: the sorted lists are equal if and only if every key is reached by as many strings in one as in the other |
| MessageKeys.AssertNamespaceParity | server/scripts/test-frontend-i18n-keys.ts:172-185 | For all trees: the check passes if and only if every namespace has a string in the reference, and each key below it is reached by as many strings in every other locale as in the reference |
| MessageKeys.KeyedParityIff | server/scripts/test-frontend-i18n-keys.ts:172-185 | When keys are nonempty and have no dots, that is so if and only if the same keys below the namespace resolve to strings in every locale, and some key does |
| MessageKeys.DottedKeyListedUnresolved | server/scripts/test-frontend-i18n-keys.ts:164-170 | A tree with one key, which contains a dot, and which is listed under its name and does not resolve |

## Left out

- LocalePasses.AdminPassCommutes: is about printed documents, in which scalars are on one line, lines end in LF, comments, blank lines and quoted keys are balanced fillers that do not look like a listed key, and a key on a lookup path names a group; `BraceStructure.LoopKeepsObject` is about arbitrary texts, and `PrunerCorners` says what happens outside these conditions.
- LocalePasses.UserPassCommutes: also asks that the kept keys are one-line fields; `KeptStructure.KeptDocumentClosesIff` says what happens otherwise.
- BraceStructure.LoopKeepsObject: states its condition on each removal in the text that the removal meets; for printed documents `LocalePasses` needs conditions on the first text only.
- ScannerAgreement.ScannersAgree: does not describe texts on which the scanners differ on what is code and return the same position all the same.
- BillingRepair.RunDraws: assumes that predecessors do not depend on billing records; `RunDrawsAlong` has no such hypothesis.
- BillingRepair.NothingLeftOnAncestors: assumes the same; otherwise a later message can change an earlier lineage, and `SecondRunMovesNothingIffSettled` says when that matters.
- BillingRepair.SecondRunMovesNothingIffDrained: is about all tables at once and assumes that predecessors do not depend on billing records; for a given table `SecondRunMovesNothingIffSettled` has no such hypothesis.
- ServiceWorker.CacheUpToDate: is about one worker version and puts in order, until nothing is pending; `CacheHoldsPutsMade` and `UpToDateIffPutLast` are about any run at any moment.
- ServiceWorker.UpToDateSinceClearIff: likewise; out of order `UpToDateIffPutLast` applies to the state after the clear.
- MessageKeys.AssertNamespaceParity: asks that no namespace has an empty name, as none of the listed ones has.
- SeedCatalogue.PlansBounded: takes from double-precision arithmetic that operations are monotone, keep 0 and 1/2, have a relative error of at most 2^-53 between 2^-53 and 2^53, and are exact on products of small whole numbers, and not the bits; maxima are at most 2^53.
- SeedPlacement.HostUsedIff: is about all indices; `HitIff` bounds the first use by the product of the two numbers, and the script makes 64 instances.
- MessageKeys.SortAgreesIff: orders strings by character codes where JavaScript orders UTF-16 units; the result holds for either order.
- Regular expressions of the pruner: keys are plain identifiers and stand for themselves; `^` matches behind any line terminator.
- Characters are Unicode scalar values, not UTF-16 units; line breaks of two characters are modelled in the text functions and not in the documents.
- Nested template literals and regular expression literals are not code to either scanner, and so not to the model.
- Route predicates, the authentication hook expression and reading files in the route guard script.
- Billing: messages with equal timestamps keep one fixed order, fields that are no integers or strings count as absent, transactions never fail, console output.
- Events: callbacks do not throw and do not register while being completed; query invalidation, cluster loading states and progress updates; React's batching of updates.
- Events: closing a socket, in the cleanup of the effect or when a tab finds its socket stale, appears as a later end of that socket.
- Seed scripts: passwords, dates, networking fields other than ports, the deletion of earlier logs, host port counts and owner quotas.
- Users, hosts and packages of the second seed script, which are single lookups followed by one create or update.
- Plan tables: validation of GPU settings, timestamps, and the order in which plans are listed, which unique names make irrelevant.
- Service worker: `Vary` headers, storage limits, failures of cache operations, the version in the cache's name, taking over clients and notifying them.
- Message trees: inherited properties, which are never strings, count as absent; the other checks of that script are lists of names.
- Server modules that guard scripts only search for substrings, routing tables, themes and build configuration.
