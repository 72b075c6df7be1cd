# Verification of the VoDoge console and contract generator

A Dafny 4.11 model of the parts of this repository where state, order or
recursion decides what an operator sees or what a device is sent, and proofs
about it. `dafny verify dfyconfig.toml` checks all of it.

What is modelled, in the order of difficulty:

* **The offline monitor** (`Connection`, `Page`, `PageTheorems`, `PageProbes`,
  `PageTeardown`, `ConnectionMonitor`). A page is a host — fetch, clock, timers, handlers —
  and any number of monitors created on it. `Page.Step` is one browser
  callback; runs are arbitrary sequences of them, requests and probes complete
  in any order, also after `stop()`. `ConnectionMonitor` is the same thing as
  objects with fields, and every method is proved to be the value transition.
* **eSIM state rebuilt from the command log** (`Newest`, `Esim*`). The loops
  of `catalog.ts` and `tokens.ts` are methods in `EsimFolds`, each equal to a
  specification in `Esim`; `Newest` says once what a fold keyed by something,
  ranked by a time and with a tie rule computes. `EsimLog` and `EsimPanel` say
  the same from end to end, in the fields of the rows. The theorems go from there
  to the switch verdict on the panel.
* **The contract generator and its reader** (`Contract*`, `SinglePath`). `collect_constraints`
  as the recursive walk it is, over schemas whose references may cycle; the
  textual paths it writes; the gateway's Go code that reads them back; and the
  Rust types and serializers of struct fields.
* **The settings document** (`Settings*`). Dotted paths written into nested
  objects on the heap, read back, turned into a form and saved again.
* **What is asked before a command is sent** (`AtGuards`, `AtSentences`, `Guards`,
  `Dispatcher`, `CommandTable`, `Ussd*`). The AT guards as patterns with the matching relation
  of regular expressions, the table of commands, the dispatcher of the two
  panels over every run, and USSD sessions on top of it.
* **Tenants, orders and colours** (`Hosts`, `Tenants`, `Ordering`, `Sessions`,
  `Palette`).

Where the code does less than its comments or its use suggest, the model follows
the code, and the proofs say exactly where the line is:

* A listing without an EID borrows the newest reading's only if that chip was
  not read elsewhere since and sorts last (`EsimSwitch.LendsNewestReadingIff`).
* "An untouched secret is left out entirely" holds for an empty box; a box that
  shows the stored marker sends the marker (`UntouchedSaveLeaksNothing`).
* Save, reload, save is a fixpoint except for a null secret, or an array in a
  text or secret (`SaveReloadSaveIsAFixpoint`).
* The constraint list is too strict unless, wherever the walk meets an `anyOf`,
  its alternatives demand the same (`CollectedIsSoundIffAlternativesAgree`), and
  the gateway reads back only readable paths, which those below an array of
  arrays are not (`ReadBackExactlyWhenReadable`, `NestedArraysAreNotRead`).
* A nullable definition marked otherwise than what it wraps gets the wrong
  serializer (`ReferencedSerializerFollowsType`).
* An EID that continues another behind a slash can make two profiles share a
  key, and one is then lost (`EidsCollideIffOneContinues`,
  `NothingIsLostIffNoCollision`).
* Newest failures of one moment that disagree are reported by log order
  (`LogOrderIsForgottenIffTiesAgree`).
* An `extra` that names a kind guarded otherwise passes unasked
  (`GuardedBodiesAreAnsweredFor`); no control in the console does that.
* A body goes to the module selected when it is confirmed, not the one its dialog
  named, unless `extra` names it (`BodiesGoWhereTheyWereAimed`); the open dialog
  covers the selector.
* Among the last 25 commands the newest USSD exchange can be missing
  (`FetchShowsTheNewestIff`).
* `classifyHost` cuts off a second port, `slugFromHost` does not
  (`ReadersAgreeIffReadOnce`).
* A USSD deadline is checked before the dialog, not after it
  (`DeadlineIsNotAskedAgain`).
* Stopped monitors give `fetch` back if and only if the one stopped last had
  found it; last in, first out is one order that ensures it
  (`FetchComesBackIffLastStoppedFoundIt`).

Parameters stand for what is outside: `lc` for `localeCompare`, a total order
that is 0 only on equal strings; `text` for `String(...)` of a payload field;
`Coercions` for `Number(...)` and `String(...)` of a form value; clock readings,
gateway answers and module results as events. Times are integers, colours reals.

## Model

| member | source | states |
|---|---|---|
| `PageTheorems.PollsExactlyWhileLost` | apps/console/lib/pwa.ts:554-587 | After any interleaving of requests, completions, offline/online events, ticks, probes, subscriptions and stops, on any number of monitors: the stored view is the judgement of the current cells, and a monitor has exactly one live timer on the host if it is running and lost, none otherwise |
| `PageTheorems.HistoryIsWhatWasShown` | apps/console/lib/pwa.ts:604-652 | The history a monitor keeps is exactly what the events of the run showed it: its settled requests and probes, and its offline signals |
| `PageTheorems.NeverArmedAfterStop` | apps/console/lib/pwa.ts:575-576 | Whatever is still in flight when a monitor stops, none of its timers is live in any later state |
| `PageTheorems.RefinesItsHistory` | apps/console/lib/pwa.ts:450-488 | Over every run the answer is a function of the events: lost iff offline was signalled (or the browser was offline when the monitor was created) with no response since, or two real failures lie after the last response; the data is as old as the newer of the page and the last response |
| `PageTheorems.MonitorsAreBorn` | apps/console/lib/pwa.ts:533-553 | The monitors of a run are those it creates, in order, each with the load time given and with what the browser said of itself just then |
| `PageTheorems.OnlyAResponseClears` | apps/console/lib/pwa.ts:589-602 | The only step that turns lost into not lost is the completion of a pending watched request or probe with a response |
| `PageTheorems.DataNeverGetsOlder` | apps/console/lib/pwa.ts:481-488 | From any point of a run on a fresh page, under a clock that does not run backwards, the data moment never decreases |
| `PageTheorems.SubscribersStayInStep` | apps/console/lib/pwa.ts:556-565 | A subscriber seeded with the view and applying its notifications holds the current view after every step, and never received two equal views in a row |
| `PageProbes.ProbeGoesOut` | apps/console/lib/pwa.ts:604-609 | A tick of a monitor's timer, a fired online handler of it, and a probe the page asks for each call the browser's own fetch once, make the monitor wait for one answer more and change nothing else, if it runs and found a fetch; otherwise they change nothing |
| `PageProbes.AnsweredProbeClears` | apps/console/lib/pwa.ts:575-615 | A probe that is answered ends the loss and the polling |
| `PageProbes.LostTabFindsOut` | apps/console/lib/pwa.ts:567-615 | In every state of every run a lost running monitor has a live timer, the tick of which sends a probe, the answer to which takes the loss back |
| `PageProbes.EveryAnswerIsOwedOnce` | apps/console/lib/pwa.ts:604-637 | Over every run, what a monitor was answered and what it still waits for is exactly one for each of its wrappers a watched request went through and one for each of its probes; the browser's fetch was called once per request and once per probe |
| `PageProbes.SubscriberHearsEveryChange` | apps/console/lib/pwa.ts:556-565 | From subscribing on, whatever happens, a subscriber holds the view it began with and every view the monitor came to after it, in order, each once |
| `PageProbes.UnsubscribedHearsNothing` | apps/console/lib/pwa.ts:657-670 | After unsubscribing, or `stop()`, it is told nothing more |
| `PageTeardown.OneCallThroughAllLayers` | apps/console/lib/pwa.ts:617-637 | A request through any nest of wrappers calls the original once, and owes one observation per wrapper |
| `PageTeardown.FetchComesBackIffLastStoppedFoundIt` | apps/console/lib/pwa.ts:635-636 | For every order of creating and stopping that ends with all stopped: the page holds the fetch the monitor stopped last had found, so it gets its own back if and only if that was its own |
| `PageTeardown.StoppedPageKeepsNothing` | apps/console/lib/pwa.ts:664-670 | In whatever order the monitors are stopped, handlers and timers end as they were before the first |
| `PageTeardown.LifoRestoresThePage` | apps/console/lib/pwa.ts:664-670 | Any properly nested sequence of create and stop ending with all monitors stopped leaves fetch, handlers and timers as found |
| `PageTeardown.WrongOrderLeavesAWrapper` | apps/console/lib/pwa.ts:664-670 | One way not to get fetch back, on every page: stopping the inner of two monitors first leaves its dead wrapper installed |
| `Page.StopEffect` | apps/console/lib/pwa.ts:664-670 | The exact effect of `stop()` on the host: its own timer and handlers go, the fetch it found comes back, nothing else moves |
| `Page.RunKeeps` | apps/console/lib/pwa.ts:533-672 | The inductive invariant behind these: view, timer, subscribers and teardown stack of every monitor, over every run |
| `Connection.ObservationKeepsCells` | apps/console/lib/pwa.ts:589-602 | Each observation changes `online`, `failures` and `lastOkAt` so that they keep saying what the whole history says |
| `ConnectionMonitor.Monitor.constructor` | apps/console/lib/pwa.ts:537-655 | Creation wraps fetch if there is one, listens twice, and arms the timer when the tab starts offline |
| `ConnectionMonitor.Monitor.Publish` | apps/console/lib/pwa.ts:556-565 | The imperative publish, with its loop over the listeners, is the value transition |
| `ConnectionMonitor.Monitor.Schedule` | apps/console/lib/pwa.ts:575-587 | The imperative schedule arms and cancels as the value transition does |
| `ConnectionMonitor.Monitor.Settle` | apps/console/lib/pwa.ts:604-634 | A settling request or probe: noted as reachable, unreachable, or not at all for an abort |
| `ConnectionMonitor.Monitor.OnOffline` | apps/console/lib/pwa.ts:639-644 | The offline handler |
| `ConnectionMonitor.Monitor.Stop` | apps/console/lib/pwa.ts:664-670 | The loop that pops the teardown stack is the value-level unwinding |
| `ConnectionMonitor.Tab.Handle` | apps/console/lib/pwa.ts:533-672 | Every callback on the objects is one step of the page the theorems above are about |
| `Newest.KeptAreWinners` | apps/console/lib/catalog.ts:1523-1531 | A fold with a tie rule keeps, under every key, the row that beats all its competitors: the specification without the loop |
| `Newest.OnlyWinnersMatter` | apps/console/lib/catalog.ts:1665-1675 | Without ties, any log drawn from the same rows that still holds the winners folds to the same thing |
| `EsimLog.KeysAreWhatRowsSay` | apps/console/lib/catalog.ts:1500-1778 | What each fold goes by, field by field: which rows count as a reading, a listing, a failure, a success or a switch, of which module or chip, and when |
| `EsimPanel.RowsSayWhatWasListed` | apps/console/lib/catalog.ts:1470-1641 | A row is read back from the log if and only if it is a raw entry with an ICCID of the newest listing of its module, enabled only if the entry says so, under the listing's EID or the one lent |
| `EsimPanel.ListingsTellTheNewest` | apps/console/lib/catalog.ts:1573-1604 | One listing for each module ever listed, telling what the newest of them said: module, moment, EID or the one lent, profiles, and why there are none |
| `EsimPanel.LentSortsLast` | apps/console/lib/catalog.ts:1546-1579 | The EID lent in a module is the one that sorts last among the chips whose newest reading was taken there |
| `EsimPanel.PanelFollowsTheChip` | apps/console/components/esim-panel.tsx:286-307 | Whatever else log and inventory hold: when the newest row for the target of the newest switch is newer than the switch, the panel says exactly what that row says |
| `EsimPanel.TiesGoToTheFirst` | apps/console/lib/tokens.ts:1953-1984 | Of switches of one moment the first in the log is asked about, and of rows of one moment the first in the table answers |
| `EsimPanel.FailuresSayWhatFailed` | apps/console/lib/catalog.ts:1714-1778 | A module is reported if and only if its newest failed chip command came after every one that succeeded there; as chipless if and only if the reason refuses the ISD-R channel, in any letter case, and nothing in view named an EID for it |
| `EsimPanel.TableIsInOrder` | apps/console/lib/catalog.ts:1676-1681 | The table goes by EID, then enabled, disabled, deleted and the rest, then by ICCID |
| `EsimPanel.ListsGoByModule` | apps/console/lib/catalog.ts:1573-1778 | Listings and failures go by module |
| `EsimPanel.MergedIsFirstOfEach` | apps/console/lib/catalog.ts:1790-1803 | The merged list is the first row of each id over all fetches, in the order they came |
| `EsimFolds.LatestEsimChipReads` | apps/console/lib/catalog.ts:1522-1533 | The loop is the newest reading of each chip, sorted by EID |
| `EsimFolds.LatestEsimProfileListings` | apps/console/lib/catalog.ts:1573-1604 | The two loops are the newest listing of each module, with the borrowed EID |
| `EsimFolds.EsimProfileRowsFromReads` | apps/console/lib/catalog.ts:1620-1641 | The nested loops are the rows of those listings, in order |
| `EsimFolds.MergeEsimProfiles` | apps/console/lib/catalog.ts:1664-1682 | The loop and sort are the keyed merge the merge lemmas speak of |
| `EsimFolds.EsimReadFailures` | apps/console/lib/catalog.ts:1735-1778 | The loops over inventory and log, with their three collections, are the failure report of the specification |
| `EsimFolds.MergeCommandBatches` | apps/console/lib/catalog.ts:1790-1803 | The nested loops keep the first row of each id |
| `EsimFolds.EsimSwitchVerdict` | apps/console/lib/tokens.ts:1953-1984 | The two loops are the newest switch and the newest later evidence |
| `EsimFolds.PanelVerdictOf` | apps/console/components/esim-panel.tsx:286-307 | The panel joins the three in the order the end-to-end lemmas assume |
| `EsimMerge.MergeIsAssociative` | apps/console/lib/catalog.ts:1664-1682 | Merging in any grouping gives the same sequence, row for row |
| `EsimMerge.MergeIsIdempotent` | apps/console/lib/catalog.ts:1664-1682 | A merged table merged with itself or with nothing is unchanged |
| `EsimMerge.MergedRowsAreLastNewest` | apps/console/lib/catalog.ts:1669-1675 | While no two profiles share a key, the table holds, per chip and ICCID, the last row of maximal collection time, and nothing else |
| `EsimMerge.MergedIsTheCanonicalArrangement` | apps/console/lib/catalog.ts:1676-1681 | Of all arrangements of its rows, the table is the only one in canonical order |
| `EsimMerge.ReadingBeatsInventoryOnTies` | apps/console/lib/catalog.ts:1651-1675 | A reading that no row outdates is what the table shows, inventory rows of the same moment notwithstanding |
| `EsimMerge.EidsCollideIffOneContinues` | apps/console/lib/catalog.ts:1671-1671 | Two chips can be given ICCIDs whose keys are the same text if and only if one EID continues the other behind a slash |
| `EsimMerge.KeyStandsForPair` | apps/console/lib/catalog.ts:1671-1671 | While no EID among the rows continues another, different profiles have different keys |
| `EsimMerge.NothingIsLostIffNoCollision` | apps/console/lib/catalog.ts:1669-1675 | The table has a row for every profile seen if and only if no two different profiles share a key |
| `EsimMerge.SlashesCollide` | apps/console/lib/catalog.ts:1671-1675 | For any EID and any continuation of it: two profiles that share a key, of which the table keeps the second |
| `EsimFailures.FailuresRefineSpec` | apps/console/lib/catalog.ts:1735-1778 | A module is reported exactly when its newest failure outlives every success, with that failure's reason, and as chipless exactly when it refused the ISD-R channel and no EID evidence exists |
| `EsimFailures.OneReportPerModule` | apps/console/lib/catalog.ts:1744-1778 | Two reports for one module are the same report |
| `EsimFailures.BrokenIffLaterThanEverySuccess` | apps/console/lib/catalog.ts:1769-1769 | The comparison against the success map means: later than every success, and not before the epoch |
| `EsimFailures.OnlyDecisiveRowsMatter` | apps/console/lib/catalog.ts:1714-1778 | Where the newest standing failures of a module agree, permuting, repeating or dropping rows that are no module's newest success, newest failure or last EID evidence changes nothing |
| `EsimFailures.BatchesStandForTheLog` | apps/console/lib/catalog.ts:1780-1803 | The report over the merged windowed fetches is the report over any log whose chip commands they cover |
| `EsimFailures.MergedIdsAreDistinct` | apps/console/lib/catalog.ts:1790-1803 | However fetches overlap, no command is counted twice |
| `EsimFailures.LogOrderIsForgottenIffTiesAgree` | apps/console/lib/catalog.ts:1743-1778 | The report is the same for every order of the log if and only if, module by module, the newest failures that still stand agree on reason and time |
| `EsimFailures.TiedFailuresFollowLogOrder` | apps/console/lib/catalog.ts:1759-1760 | Where two of them disagree, whichever comes first in the log is reported, whatever else is in it |
| `EsimSwitch.ConfirmedRestsOnLaterEvidence` | apps/console/components/esim-panel.tsx:286-307 | `confirmed` implies an inventory row, or a raw entry of a succeeded chip listing, from strictly after the newest succeeded switch, that says the target is enabled |
| `EsimSwitch.VerdictSpeaksOfTheNewestSwitch` | apps/console/lib/tokens.ts:1953-1984 | The verdict names the target of a newest switch, and state, moment and observed word are those of the newest strictly later row for it |
| `EsimSwitch.NoVerdictWithoutASwitch` | apps/console/lib/tokens.ts:1962-1965 | No succeeded switch, no verdict; a newest switch that names a target has one |
| `EsimSwitch.MergeLosesNoEvidence` | apps/console/lib/catalog.ts:1664-1682 | The verdict over the merged table reads the same moment as over all rows, and the same state unless simultaneous rows disagree |
| `EsimSwitch.LaterSwitchResetsTheVerdict` | apps/console/lib/tokens.ts:1957-1975 | Appending a later switch makes the verdict about it, unverified unless still later evidence exists |
| `EsimSwitch.ReadRowsComeFromNewestListings` | apps/console/lib/catalog.ts:1573-1641 | A row read back from the log is a profile of the newest listing of a module, and every such profile is a row |
| `EsimSwitch.BorrowedEidSortsLast` | apps/console/lib/catalog.ts:1576-1579 | A listing without an EID borrows the one that sorts last among the chips last read in its module |
| `EsimSwitch.LendsNewestReadingIff` | apps/console/lib/catalog.ts:1546-1579 | For every log: the EID lent in a module is that of its newest reading if and only if the chip's own newest reading was taken there and no chip whose newest was sorts behind it |
| `EsimSwitch.OlderChipCanLendItsEid` | apps/console/lib/catalog.ts:1546-1579 | In every log, of two chips last read in one module the one that sorts first lends nothing, however new its reading |
| `EsimSwitch.ChipThatMovedLendsNothing` | apps/console/lib/catalog.ts:1576-1579 | A module whose chips were all read again elsewhere since has nothing to lend |
| `ContractPaths.CollectConstraints` | packages/contract/codegen/generate.py:446-484 | The recursive walk that appends to one shared list, with paths as text, produces the emitted form of the specification; it terminates however references cycle |
| `ContractMeaning.CollectedIsSound` | packages/contract/codegen/generate.py:446-484 | Where at every choice the walk meets the alternatives demand the same, every schema-valid document satisfies every collected constraint, however references cycle |
| `ContractMeaning.OneChoiceAgrees` | packages/contract/codegen/generate.py:467-471 | They do where every `anyOf` has at most one branch that is not null, or collects nothing |
| `ContractMeaning.CollectedIsSoundIffAlternativesAgree` | packages/contract/codegen/generate.py:446-484 | For any schema, with choices at the root, in fields, below items, behind references and inside other choices: every document the enum part admits satisfies the list if and only if at each of them every alternative demands what every other does |
| `ContractLists.ImpliesIffDemandsAll` | packages/contract/codegen/generate.py:472-475 | One list implies another on every document exactly when it names the other's paths and allows no more there |
| `ContractChoices.EnumChoiceIsSoundIffSameValues` | packages/contract/codegen/generate.py:467-475 | For a choice between string enums, with or without null: every valid document satisfies the list if and only if the enums have the same values |
| `ContractChoices.TwoAlternativesAreUnsound` | packages/contract/codegen/generate.py:467-475 | A text one enum has and another has not is valid and breaks the list |
| `ContractMeaning.CollectedIsExact` | packages/contract/codegen/generate.py:446-484 | Where the alternatives agree and no enum is reached through a circle of references, satisfying the list is the same as satisfying the enum part of the schema |
| `ContractMeaning.ContextValueHoldsNoEnum` | packages/contract/schema/edge-cloud.v1.schema.json:658-688 | The one definition of the shipped schema that refers to itself is a circle without enums, so what refers to it is read exactly as well |
| `ContractReader.PathsReadBack` | apps/gateway/internal/wss/conformance.go:50-89 | The gateway's reader finds at a generated path exactly the texts the walk's steps lead to |
| `ContractReader.ReadBackExactlyWhenReadable` | apps/gateway/internal/wss/conformance.go:50-89 | A path is read back on every document if and only if its steps are readable: dot-free names, items of a field taken once, and bare names that neither end in `[]` nor are empty at an end of the path |
| `ContractReader.FindViolations` | apps/gateway/internal/wss/conformance.go:38-48 | The gateway's nested loops list every offending value of every constraint |
| `ContractReader.ValidDocumentsAreNeverReported` | apps/gateway/internal/wss/conformance.go:20-48 | Generated from the schema and read by the gateway, a valid document is never reported |
| `ContractReader.ReportedExactlyWhenAnEnumIsBroken` | apps/gateway/internal/wss/conformance.go:20-48 | Where the alternatives agree, no enum is reached through a circle of references and the paths are readable, a document is reported exactly when it breaks an enum |
| `ContractReader.ReportedIsWhatBreaks` | apps/gateway/internal/wss/conformance.go:38-48 | What is reported, path and text, is exactly what breaks a constraint of a readable list |
| `ContractReader.NestedArraysAreNotRead` | apps/gateway/internal/wss/conformance.go:62-79 | Below an array of arrays, at any depth of any path, nothing is found in any document without member names that end in `[]` |
| `ContractReader.NestIsMisread` | apps/gateway/internal/wss/conformance.go:62-79 | A path that takes items twice running is never readable, so some document is misread |
| `ContractTypes.NeverNestsOptions` | packages/contract/codegen/generate.py:99-157 | A Rust type never directly nests one option in another, whatever the schema; nor does it after a field that is not required is wrapped |
| `ContractTypes.WireMatchesType` | packages/contract/codegen/generate.py:69-81 | A type is a u64, optional or not, exactly when the marker stands on the schema or where the chain of nullable wrappers leads, if and only if the marks on the way agree |
| `ContractTypes.SerializerFollowsType` | packages/contract/codegen/generate.py:358-381 | A struct field gets the u64 serializer iff its type is `u64`, and the optional one iff it is `Option<u64>`, if and only if the marks on the way agree |
| `ContractTypes.ReferencedSerializerFollowsType` | packages/contract/codegen/generate.py:99-112 | For a field that is a reference: if and only if a nullable definition is marked exactly when what it wraps is |
| `ContractTypes.NullableU64DefinitionIsMistyped` | packages/contract/codegen/generate.py:99-112 | Otherwise a field that is no u64 is serialized as one, or one that is a u64 is written bare |
| `ContractValues.ValidDocumentsFit` | packages/contract/codegen/generate.py:99-157 | Every document valid for a schema is the JSON of a value of the Rust type generated for it, through references, nullable wrappers and arrays |
| `ContractValues.ValidFieldsFit` | packages/contract/codegen/generate.py:358-367 | So is every valid member of an object for the type of its field, and a field that is not required has a type that can be absent |
| `ContractValues.PlainTypesAreExact` | packages/contract/codegen/generate.py:143-154 | The type of a text, truth value, integer or number holds that kind of value and no other; that of an array holds arrays of what its items' type holds |
| `ContractValues.ChoiceAddsNull` | packages/contract/codegen/generate.py:113-120 | A choice of a schema and null, in either order, is typed as what holds null and what the schema's type holds; any other choice as anything at all |
| `ContractValues.NullableAddsNull` | packages/contract/codegen/generate.py:130-142 | A list of a type and null, and a field that is not required, add null to what the type holds and nothing else |
| `ContractValues.ReferencesAreTypedByDefinition` | packages/contract/codegen/generate.py:100-112 | A reference is a u64 iff its definition is marked, and otherwise a text, an optional text or an integer only where the definition is that, or the definition's own name |
| `SettingsTree.SettingsDocument` | apps/console/lib/tokens.ts:2592-2603 | The loop that writes nested objects in place builds the specified document |
| `SettingsTree.Node.Write` | apps/console/lib/tokens.ts:2605-2617 | A dotted write on the heap is the write on values, and objects beside the path are untouched |
| `SettingsTree.ReadSettingValue` | apps/console/lib/tokens.ts:2530-2537 | The moving cursor reads what the path leads to |
| `SettingsProofs.ReadsOwnWrite` | apps/console/lib/tokens.ts:2605-2617 | A write is seen at its path and everywhere inside the value |
| `SettingsProofs.OtherReadsUnmoved` | apps/console/lib/tokens.ts:2605-2617 | A write is seen nowhere else |
| `SettingsProofs.WriteBehindAnArrayIsLost` | apps/console/lib/tokens.ts:2605-2617 | A write that would have to go through an array leaves the document as it is |
| `SettingsProofs.DocumentHoldsExactlyItsFields` | apps/console/lib/tokens.ts:2592-2617 | For prefix-free fields each one reads back its coerced value, a skipped secret reads back undefined, and no other leaf exists |
| `SettingsProofs.SavedSaysWhatWasGiven` | apps/console/lib/tokens.ts:2565-2603 | Every field of a saved document says what its box was given: the number, or 0 where there is none; whether it was switched on; the text, or none; of a secret not typed nothing |
| `SettingsProofs.SavedListHoldsItsItems` | apps/console/lib/tokens.ts:2574-2578 | However newlines, commas and blanks are mixed in a list box, the field holds the items typed, in order |
| `SettingsProofs.FormShowsEachField` | apps/console/lib/tokens.ts:2545-2555 | The form shows, under every field, what its path leads to, a list as lines |
| `SettingsProofs.JoinedListSplitsBack` | apps/console/lib/tokens.ts:2574-2578 | A list joined for editing splits back into itself, for every list of trimmed non-empty items without separators |
| `SettingsProofs.StoredListSplitsBack` | apps/console/lib/tokens.ts:2545-2555 | A stored list with nulls in it splits back into its texts |
| `SettingsProofs.KeysAreBetweenDots` | apps/console/lib/tokens.ts:2530-2537 | The keys of a path are what stands between its dots |
| `SettingsProofs.SaveReloadSaveIsAFixpoint` | apps/console/lib/tokens.ts:2545-2617 | Save, reload, save changes nothing if and only if no text or secret holds an array and no secret is null |
| `SettingsProofs.UntouchedSaveLeaksNothing` | apps/console/lib/tokens.ts:2584-2603 | If a stored secret arrives as marker, empty or absent, an untouched save carries the marker or nothing |
| `SettingsTables.ShippedTablesArePrefixFree` | apps/console/lib/tokens.ts:2408-2457 | No field of the shipped tables lives inside another, `telegram.bot.*` beside `telegram.bot_token` included |
| `AtGuards.FindAtCommandGuard` | apps/console/lib/tokens.ts:1591-1597 | The loop returns the first guard that matches |
| `AtGuardProofs.GuardsAreDisjoint` | apps/console/lib/tokens.ts:1537-1588 | No text at all trips two of the eight guards |
| `AtGuardProofs.AnswerIsTheOneMatch` | apps/console/lib/tokens.ts:1591-1597 | In whatever order the table is listed, the answer is the one guard that matches, if any |
| `AtSentences.SentenceIsTheShapes` | apps/console/lib/tokens.ts:1537-1597 | Whatever is typed, the sentence asked is that of the shape the trimmed command has, read from left to right without backtracking, and none exactly if it has none of the eight |
| `AtSentences.ShapeOf` | apps/console/lib/tokens.ts:1537-1588 | Each of the eight patterns matches exactly the texts of its shape |
| `AtGuardProofs.BlanksAndCaseDoNotMatter` | apps/console/lib/tokens.ts:1531-1597 | A command retyped in other letter case, with blanks around it, gets the same answer |
| `AtGuardProofs.CfunShapes` | apps/console/lib/tokens.ts:1544-1557 | Exactly which texts are a reset and which switch the radio off |
| `AtGuardProofs.EveryResetIsAsked` | apps/console/lib/tokens.ts:1544-1551 | `AT+CFUN=<digits>,1` trips the reset guard for every number |
| `AtGuardProofs.PlainCfunOneIsNotAsked` | apps/console/lib/tokens.ts:1537-1597 | `AT+CFUN=1` trips none |
| `AtGuardProofs.AutomaticCopsIsNotAsked` | apps/console/lib/tokens.ts:1558-1563 | `AT+COPS=0` and `AT+COPS=?` trip none, whatever follows |
| `AtGuardProofs.ReadingAFileIsNotAsked` | apps/console/lib/tokens.ts:1564-1569 | `AT+CRSM=176` trips none, whatever follows |
| `Guards.LookupIsTotal` | apps/console/lib/tokens.ts:1879-1909 | A listed command is answered by its first matching case, `run_at_command` by its own rule, and never by the fallback; an unlisted one, other than the names every object inherits, always by the fallback |
| `Guards.FindConsequence` | apps/console/lib/tokens.ts:1897-1908 | The loop over the cases of an entry |
| `CommandTable.GuardIsCalledFor` | apps/console/lib/tokens.ts:1635-1909 | For every kind and payload the table answers with the sentence called for: a command's own, one for one direction of a command only, none for what reads, the AT guard's for what is typed, and the fallback for the rest |
| `CommandTable.EveryPostWasAnsweredRight` | apps/console/components/device-console.tsx:334-400 | Over every run, each post whose request names no kind in `extra` went out after exactly the sentence its kind and fields call for, and unasked exactly if they call for none |
| `CommandTable.RequestGoesOutOrWaits` | apps/console/components/device-console.tsx:375-390 | A request of a page that may write is posted at once, or waits for the sentence it calls for |
| `CommandTable.AnsweredRequestIsPosted` | apps/console/components/device-console.tsx:375-400 | Answered, it is posted once, with its own fields, whatever was selected meanwhile |
| `Guards.GuardLooksAtItsFields` | apps/console/lib/tokens.ts:1635-1869 | Payloads that agree on the five asked fields get the same answer, whichever module they name |
| `Dispatcher.Commands.Request` | apps/console/components/device-console.tsx:375-390 | The handler on the state cells is one step of the dispatcher |
| `Dispatcher.Commands.RunNow` | apps/console/components/device-console.tsx:334-345 | The body posted, with `extra` last |
| `Dispatcher.Commands.CancelPending` | apps/console/components/device-console.tsx:392-392 | Drops the pending action |
| `Dispatcher.Commands.Proceed` | apps/console/components/device-console.tsx:395-400 | Takes the pending action once |
| `Dispatcher.GuardedBodiesAreAnsweredFor` | apps/console/components/device-console.tsx:334-400 | Over every run, each body went out after the very sentence its own contents call for, and unasked if they call for none, if and only if every posted request names a kind guarded like the one it asks about |
| `Dispatcher.BodyIsGuardedAsAsked` | apps/console/components/device-console.tsx:341-377 | The body is guarded as what it names, whichever module is selected; that is the question asked if and only if `extra` names no kind or one guarded alike |
| `Dispatcher.PostsComeFromRequests` | apps/console/components/device-console.tsx:334-400 | Every post of a run comes from one of its requests, is guarded as that request names it, goes out after exactly the sentence that request asks about, and names the module it would be aimed at when it goes out |
| `Dispatcher.BodiesGoWhereTheyWereAimed` | apps/console/components/device-console.tsx:334-424 | Over every run, a body goes to the module its request was aimed at if and only if `extra` names the module or the one selected when it goes out is the one selected at the request; only answered posts can differ |
| `Dispatcher.OrdinaryRequestsAreHonest` | apps/console/components/device-console.tsx:341-377 | A request whose `extra` names no kind, or its own, is never one of those |
| `Dispatcher.RenamedKindIsNotAsked` | apps/console/components/device-console.tsx:341-345 | Any request that names a kind guarded otherwise is posted after another sentence than its body calls for, after one not called for, or after none |
| `Dispatcher.PostedAtMostOnce` | apps/console/components/device-console.tsx:395-400 | Over every run no request is posted twice |
| `Dispatcher.DeadRequestsStayDead` | apps/console/components/device-console.tsx:392-400 | What was cancelled or replaced is never posted in any continuation |
| `Dispatcher.CancelAndReplaceKill` | apps/console/components/device-console.tsx:375-392 | Cancelling, or requesting something else that needs an answer, kills the pending request |
| `Dispatcher.UnknownKindsWaitForAnAnswer` | apps/console/lib/tokens.ts:1890-1896 | Over every run, a post was of a command nobody has listed if and only if it went out after the sentence kept for those |
| `Dispatcher.ReadOnlyPostsNothing` | apps/console/components/esim-panel.tsx:221-256 | An account that may not write posts nothing, over every run |
| `Ussd.LatestUssdExchange` | apps/console/lib/catalog.ts:2204-2229 | The loop finds the newest exchange, the first of equals |
| `Ussd.LatestIsTheFirstNewest` | apps/console/lib/catalog.ts:2204-2229 | The exchange shown is the newest, the first of equals |
| `Ussd.RepliesGoToTheirSession` | apps/console/components/device-console.tsx:889-959 | For every reply of every run, among whatever else the log receives: some event wrote it, word for word, when the newest exchange fetched had succeeded, was waiting for a reply, was young by every known clock, and was on the module the reply went to |
| `Ussd.EveryReplyHasAnOrigin` | apps/console/lib/catalog.ts:2365-2383 | Following replies back ends at an earlier USSD command on the same module that was not a reply of this console |
| `Ussd.SelectorDoesNotAimReplies` | apps/console/components/device-console.tsx:334-345 | Moving the selector between writing a reply and confirming it does not move the reply |
| `Ussd.ReplySurvives` | apps/console/components/device-console.tsx:942-959 | Whatever is selected, refreshed, observed, recorded or settled, and however long that takes, confirming posts the fields of the reply as written and records it on the module it answers |
| `Ussd.DeadlineIsNotAskedAgain` | apps/console/components/device-console.tsx:946-957 | The deadline is checked when the reply is written, not when the dialog is answered: confirmed at any later time it is still sent |
| `Ussd.OpenMeansYoungByEveryClock` | apps/console/lib/catalog.ts:2255-2303 | A session is open iff the exchange succeeded, expects a reply, is addressed, and is within the limit by every known clock, at least one of them |
| `Ussd.ExpiryIsFinal` | apps/console/lib/catalog.ts:2284-2303 | Once a known age has run out, no later moment reopens the session |
| `Ussd.RunKeeps` | apps/console/components/device-console.tsx:290-959 | Over every run, with requests of other kinds through the same dispatcher and fetches of the last 25 rows: rows stay where they are and keep what they asked, the fetched rows are rows of the log, and what is pending is a USSD request or leaves a record of another kind |
| `Ussd.FetchShowsTheNewestIff` | apps/console/components/device-console.tsx:314-321 | A fetch of the last 25 rows shows the newest exchange of the log if and only if one of them is USSD, or no row ever was |
| `UssdSessions.FormsSend` | apps/console/components/device-console.tsx:885-959 | A code goes to the selected module, a reply to the open session, a cancellation to the module of the newest exchange, or to the selected one when that names none; each only if there is something to send |
| `UssdSessions.FormsAreSentOrAsked` | apps/console/components/device-console.tsx:885-959 | A cancellation is recorded at once, on its module; a code or a reply waits for its own sentence |
| `UssdSessions.CodesGoToTheSelected` | apps/console/components/device-console.tsx:885-889 | A code is recorded on whatever module is selected when it is submitted |
| `UssdSessions.StartedSessionOpens` | apps/console/lib/catalog.ts:2255-2303 | A code confirmed, settled, fetched and looked at is an open session if and only if it succeeded, expects a reply, and two minutes have passed neither since it completed nor since the page first saw it |
| `UssdSessions.StartedSessionIsAnswered` | apps/console/components/device-console.tsx:889-959 | A reply typed while it is open is recorded on the module the session was started on, whatever is selected by then |
| `UssdSessions.CommandsFromElsewhereAreSeen` | apps/console/components/device-console.tsx:314-321 | A USSD command from elsewhere is the newest exchange of the next fetch |
| `UssdSessions.DismissedIsNotSent` | apps/console/components/device-console.tsx:392-400 | What was dismissed is not sent, not even by confirming afterwards |
| `UssdSessions.OtherRequestsAreRecorded` | apps/console/components/device-console.tsx:375-400 | A request of another control is recorded under its own kind, at once or when answered |
| `Tenants.TenantCache.Store` | apps/console/lib/tenant.ts:63-70 | A conflicting region is refused, anything else overwrites |
| `Tenants.TenantDirectory.Open` | apps/console/lib/tenant.ts:86-94 | `resolve` up to its `await` |
| `Tenants.TenantDirectory.Close` | apps/console/lib/tenant.ts:95-104 | `resolve` after its `await`, on the cache as it stands then |
| `Tenants.RegionsNeverMove` | apps/console/lib/tenant.ts:54-105 | Under every interleaving of visits and every answer of the gateway, cache keys are their entries' slugs, nothing is forgotten, and no region moves |
| `Tenants.ResultsAgreeOnRegion` | apps/console/lib/tenant.ts:86-104 | Any two visits given a tenant of one slug were given the same region |
| `Tenants.VisitsReachTheirOwnTenant` | apps/console/middleware.ts:19-48 | A visit let through to a tenant named that tenant's own host, on its first reading if and only if one reading settles it |
| `Tenants.OnlyTheOwnHostIsRouted` | apps/console/middleware.ts:19-48 | With one colon at most, being let through means the name was exactly slug, dot, base domain |
| `Tenants.SameHostSameTenant` | apps/console/middleware.ts:19-48 | Visits to hosts of one name that are let through end at one slug in one region |
| `Tenants.ArrivalsAreAnswered` | apps/console/middleware.ts:19-48 | An apex host goes to the apex, a host that is nobody's is not found, and a tenant's is routed at once if the tenant is cached and waits for the gateway if not |
| `Tenants.CachedTenantIsRouted` | apps/console/lib/tenant.ts:86-94 | A visit to a cached tenant is let through at once with what the cache says, for every slug that the cache's key is |
| `Tenants.SimpleHostsHavePlainSlugs` | apps/console/lib/tenant.ts:86-90 | Which it is for every host without brackets and blanks and with one colon at most |
| `Tenants.RepliesAreAnswered` | apps/console/lib/tenant.ts:95-104 | A reply of the slug asked for lets the visit through, with the cached account if the regions disagree; any other reply is not found and leaves the cache alone |
| `Tenants.EveryVisitIsAccountedFor` | apps/console/lib/tenant.ts:86-104 | Under every interleaving every visit is answered once, waits, or was failed by the gateway |
| `Tenants.OnceRoutedAlwaysRouted` | apps/console/lib/tenant.ts:54-105 | Once a tenant was let through, every later visit to a host of that name is let through at once, in the same region |
| `Hosts.TenantExactlyWhen` | apps/console/lib/host.ts:113-130 | A host is a tenant's iff its name, read once more, is a single label in front of the base domain, and it is not an apex |
| `Hosts.NameIsOwnHostIffReadOnce` | apps/console/lib/host.ts:14-27 | For a host classified as a tenant's, the name is the tenant's own iff a second reading cuts nothing off |
| `Hosts.ReadersAgree` | apps/console/lib/host.ts:90-130 | Both readers agree on every host that one reading settles |
| `Hosts.ReadersAgreeIffReadOnce` | apps/console/lib/host.ts:90-130 | On a host that either reader takes for a tenant's they agree if and only if one reading settles it; on any other they agree anyway |
| `Hosts.SimpleHostsAreReadOnce` | apps/console/lib/host.ts:14-27 | One reading settles every host without brackets and blanks and with at most one colon |
| `Hosts.BracketsHoldTheName` | apps/console/lib/host.ts:14-27 | What stands in brackets is the name, whatever follows them |
| `Hosts.PlainHostIsItsName` | apps/console/lib/host.ts:14-27 | A host in no brackets and without a port is its own name |
| `Hosts.ApexExactlyWhen` | apps/console/lib/host.ts:113-130 | A host is the apex exactly when its name is the base domain, or that behind `www.` |
| `Hosts.TwoPortsDivideTheReaders` | apps/console/lib/host.ts:90-130 | With two ports the readers differ, for every tenant and every pair of ports |
| `Ordering.BiggestFirstOrders` | apps/console/lib/table-query.ts:69-76 | A total preorder, largest first, missing last, and 0 exactly on equal readings |
| `Ordering.ByIsPreorder` | apps/console/lib/table-query.ts:94-102 | If every comparison is a total preorder, so is the chain |
| `Ordering.BySeparates` | apps/console/lib/table-query.ts:78-102 | One comparison that never returns 0 on different rows makes the chain separate them |
| `Ordering.ArrivalIndependentIffNoTies` | apps/console/lib/table-query.ts:78-102 | A stable sort depends on the multiset of rows alone if and only if no two different rows tie |
| `Sessions.ShownForgetsArrivalIffNoTies` | apps/console/app/sessions/page.tsx:74-86 | The list shown is the same for every arrival order iff no two different rows on it share the peer and the value it is ordered by |
| `Sessions.UniquePeersShowOneOrder` | apps/console/app/sessions/page.tsx:74-86 | One row per peer is enough |
| `Sessions.ShownIsOrdered` | apps/console/app/sessions/page.tsx:74-86 | The list holds exactly the matching rows, the chosen value largest first |
| `Sessions.ShownAreTheWanted` | apps/console/app/sessions/page.tsx:74-86 | Every row whose peer, last message or device mentions what is asked for, letter case aside, is shown as often as it is there, and no other |
| `Palette.ChannelsFollowTheStandard` | apps/console/lib/palette-source.ts:80-94 | For every hue, saturation and lightness the table of sixths gives the channels of the formula in CSS Color 4, section 7.1 |
| `Palette.ChannelsSayHslBack` | apps/console/lib/palette-source.ts:83-94 | Largest plus smallest channel is twice the lightness, their difference is the chroma, and every channel lies in [0, 1] |
| `Palette.AWholeTurnIsNone` | apps/console/lib/palette-source.ts:80-94 | Hue 360 is hue 0, and any hue repeats after a turn |
| `Palette.SixDigitsWithinHalfAStep` | apps/console/lib/palette-source.ts:95-100 | Percentages in range give `#` and six hexadecimal digits, each pair within half a step of its channel |
| `Palette.BodyFrom` | apps/console/lib/palette-source.ts:32-42 | The scan returns the text up to the brace that closes the rule, or nothing exactly when none does |
| `Palette.BodyIsBalanced` | apps/console/lib/palette-source.ts:28-42 | What is returned is balanced throughout |
| `Palette.OnePartner` | apps/console/lib/palette-source.ts:28-42 | An opening brace has one closing partner at most, so the body is the only one |

## Left out

- ContractMeaning.CollectedIsSound: one direction, for any schema; the other is about the enum part (`CollectedIsSoundIffAlternativesAgree`) or about choices between string enums, as types and required members can rule out what an enum would not.
- ContractMeaning.CollectedIsExact: asks of the root and the definitions it reaches that a node uses one of `$ref`, `anyOf`, `enum`, `items`, `properties`, as the walk reads only the first it meets, and that circles of references hold no enum, as the walk does not follow a name twice on one branch.
- Guards.LookupIsTotal: a kind that names a member of `Object.prototype` finds that member in the table and makes the lookup throw; here it is unlisted and gets the fallback, in `UnknownKindsWaitForAnAnswer` as well.
- `oneOf`, `allOf` and `additionalProperties` in the contract schema, which the collector does not read.
- ContractValues.ValidDocumentsFit: an integer counts as an `i64`, and a text under the u64 mark as a `u64`, whatever its size; asks that marked schemas are texts, constants are texts, and the two definitions known by name are what they are named for, as they are everywhere but in `Envelope`, which is not generated.
- Hosts.SimpleHostsAreReadOnce: asks for no brackets; whether one reading settles a bracketed host is what `ReadOnce` says of it.
- Sessions.ShownForgetsArrivalIffNoTies: `?sort=` and `?q=` arrive already reduced to a known order and a folded needle.
- SettingsTree.Node.Write: the cursor that moves down the document is the receiver of a recursive call.
- Palette.BodyFrom: starts at the opening brace; finding the selector is a text search.
- Palette.SixDigitsWithinHalfAStep: takes the three numbers of the triplet; the text `H S% L%` is not parsed.
- Lower case is ASCII, in host names, filters and the `/i` of patterns.
- Parsing of JSON fields into rows, of URLs in `isWatchedRequest`, and of the triplet's numbers.
- A listener that subscribes, unsubscribes or stops from inside its notification.
- The common outcome of one request seen by several nested wrappers: each settles independently here, which allows more runs than the browser has.
- Settings paths whose keys are indices of an array on the way, or name members of `Object.prototype`.
- References to anything but `#/$defs/`, which the generator refuses; the text of the emitted Rust, Go and TypeScript; `go_type` and `ts_type`.
- `groupSettingsFields`, `newestFailureAfterSuccess`, `latestAuthentications`, `latestDownloads`, `emptyKind`, `themeTokens`: short case analyses or the folds of `Newest` again.
- The refresh of the command log after a post and the `busy` and `error` cells of the dispatchers.
- `X-Forwarded-Host`, sessions and cookies of the middleware.
- Floating point and locale detail of comparisons.
