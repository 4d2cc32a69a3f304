# stream-read: a verified model of its configuration manager, log encoder and replay loop

stream-read replays the messages of a stream into a vector database. This project models the
three parts of it that carry real guarantees, and proves them.

**Layered configuration** (`pkg/config`). Sources with priorities are merged through an index
from each key to the source it is read from. The index is maintained event by event: a refresh
diffs the old configuration against the new one, fires one event per changed key, and only then
swaps the source's map. `Layers` has the state machine and the slow definition (scan all sources,
take the smallest priority number). `Events`, `Dispatcher` and `ConfigManager` are the classes as
they run, with maps traversed in an arbitrary order; every method is proved to be a step of the
state machine. `Batches` says what holds in the middle of a batch; `Runs` what holds over whole
runs; `Handlers` says which handlers run; `Views` covers the filtered views; `Startup` goes end to
end from settings to answers, for any formatter of the environment's keys and for the program's own.
`KeyFormat` is the key normalisation with its memo table. `Lifecycle` is the refresher's
start/stop/loop protocol under every interleaving, and `Reconfiguring` the same protocol under the
lock of a source whose options are updated.

**Text log encoder** (`pkg/log`). `Utf8` is the grammar of section 4 of RFC 3629, tied to the bit
layout of its section 3. `Escaping` has the escaping printer and a reader for the string bodies of
section 7 of RFC 8259. `TextFormat` says what each encoder call writes, where a marshaler is any
script of calls, nested to any depth. `LineParser` is a parser for log lines that undoes the
encoder; `LogLine` has whole lines and the relation between logger context and call-site fields.
`TextEncoding` is the encoder as it runs: buffers that grow in place, nested encoders and buffers
recycled through pools, and the core that writes lines.

**Replay loop** (`cmd/main.go`). `Replay` is the loop over packs and messages with its early exits.

What the state machine, the printer and the replay stand on is itself tied to the program in plain
terms, without using the definitions once more: what a key is normalised to, character by character
(`KeyFormat.NormalizeExactly`), what an event says (`Events.DiffExactly`), which handlers run and in
which order (`Dispatcher.SelectedInOrder`), what a refresh binds a key to (`Layers.BindsExactly`),
which keys the full view shows (`Views.FullViewExactly`), how a token, an array and an object are
spelled (`Escaping.QuotesExactly`, `Escaping.EscapeForms`, `LineParser.NestedSpelled`), what a line
reads as, part by part (`LogLine.LineExactly`), and which calls the replay issues, message by message
(`Replay.ReplayExactly`).

Where the code does not do what one would expect, the exact condition is proved, with a run or an
input that shows it:

- `ForbidUpdate` is documented to stop a configuration from refreshing (pkg/config/manager.go:210).
  It stops refreshes from rebinding the key and from notifying of it, over every run. But its value
  is still read live (`Runs.ForbiddenValueExactly`, `Runs.ForbiddenValueChanges`), and a source that
  is added later can take the key (`Runs.ForbiddenExactly`, `Runs.ForbiddenIsCaptured`).
- The index stays right throughout a run if and only if every step is harmless
  (`Runs.ReachableIndexExactly`). Harmful are a failing source that brings keys along
  (`Runs.FailedAddExactly`) and a refresh nobody hears (`Runs.SilentRefreshExactly`): a file source
  that failed to load is loaded again by the file-only view (`Runs.SilentRefreshBreaks`).
- Amid a refresh a key can be read as neither before nor after it: a better source has been given
  the key and does not hold it yet (`Batches.TornReadExactly`, `Batches.TornReadHappens`).
- The order in which sources are added matters if and only if two sources are equally good for some
  key (`Runs.SourceOrderExactly`, `Runs.TieOrderMatters`); the outcome of a refresh is open if and
  only if two are for a key the refreshed source drops (`Layers.RefreshExactly`,
  `Layers.ContestHappens`).
- A loop that `start` registers after `stop` has finished waiting survives a failed fetch and fetches
  again; nothing else does (`Lifecycle.RefetchExactly`, `Lifecycle.LateStartHappens`). A call of `stop`
  can return if and only if no fetch has failed or the loop is such a late one
  (`Lifecycle.StopExactly`); `Lifecycle.BlockedStopHappens` is a run after which it never does. A fetch
  can begin after `stop` returned if and only if a start is still to come or the loop is late
  (`Lifecycle.FetchAfterStopExactly`).
- Re-configuring a key-value source holds its lock while it stops the refresher. It can get on if and
  only if no fetch is under way or has failed (`Reconfiguring.UpdateExactly`); else it and every
  reader wait for ever (`Reconfiguring.BlockedUpdateHappens`).
- Fields given to `With` and fields given at the call site differ in one case, a leading space when
  nothing precedes them (`LogLine.ContextIsCallSite`, with `LogLine.ContextIsNotCallSite` for such a
  line); the default configuration never gets there.
- Without an automatic id field name an insert is sent no columns at all (`Replay.SentExactly`,
  `Replay.ColumnIsLeftOut`).
- The full view shows tombstones (`Views.ViewAgreesExactly`, `Views.TombstoneIsShown`), and
  `SetMapConfig` can store a value `GetConfig` does not reach (`Views.SetMapConfigExactly`,
  `Views.SetMapConfigMisses`).
- A variable is read by its own name if and only if the name does not start with the program's prefix
  (`Startup.PrefixedVariableExactly`, `Startup.PrefixedVariable`).

## Model

| member | source | states |
|---|---|---|
| `KeyFormat.KeyFormatter.FormatKey` | pkg/config/config.go:56-66 | for every history of the memo table the answer is the normal form, and the table gains exactly that entry |
| `KeyFormat.KeyFormatter.Replace` | pkg/config/config.go:63 | the replacer's pass keeps exactly the characters that are not separators |
| `KeyFormat.NormalizeExactly` | pkg/config/config.go:56-66 | the normal form is the characters of the key at increasing positions, 32 higher for 'A' to 'Z' and the same otherwise; the positions left out are exactly those of '/', '_' and '.', and no capital is left |
| `KeyFormat.CaseDoesNotMatter` | pkg/config/config.go:63 | keys that differ only in case have one normal form |
| `KeyFormat.SeparatorsDoNotMatter` | pkg/config/config.go:63 | so have a key and the key with a separator put in anywhere |
| `KeyFormat.NormalizeIdempotent` | pkg/config/config.go:58-66 | normalising a second time changes nothing |
| `KeyFormat.NormalizeFixes` | pkg/config/config.go:63 | the fixed points are exactly the keys without 'A' to 'Z', '/', '_' and '.' |
| `Events.PopulateEvents` | pkg/config/event.go:43-64 | whatever order the maps are traversed in, the events are new objects with distinct keys, one for each key that is created, updated or deleted, with its kind and value, and no others |
| `Events.AnnounceUpdated` | pkg/config/event.go:46-54 | the first loop covers exactly the keys of the new configuration |
| `Events.AnnounceDeleted` | pkg/config/event.go:56-62 | the second loop adds exactly the keys that are gone and keeps the earlier events |
| `Events.DiffExactly` | pkg/config/event.go:43-64 | the events are a diff if and only if their keys are distinct, each is a creation, update or deletion that tells the truth about its key, and every key that is new, gone or of another value has one |
| `Events.DiffPatches` | pkg/config/event.go:43-64 | applying the events of a diff in any order turns the old configuration into the new one |
| `Events.EmptyDiff` | pkg/config/event.go:43-64 | there are no events exactly when the configurations are equal |
| `Dispatcher.EventDispatcher.Register` | pkg/config/event_dispatcher.go:63-73 | the registry stays what the history of calls amounts to, for the longer history |
| `Dispatcher.EventDispatcher.RegisterForKeyPrefix` | pkg/config/event_dispatcher.go:76-87 | the same, and the prefix is recorded, repetitions included |
| `Dispatcher.EventDispatcher.Unregister` | pkg/config/event_dispatcher.go:89-105 | the same for removal; an unknown key stays unknown |
| `Dispatcher.EventDispatcher.Filtered` | pkg/config/event_dispatcher.go:97-104 | the new group is the old one without the handlers of that identity, in order |
| `Dispatcher.EventDispatcher.Dispatch` | pkg/config/event_dispatcher.go:42-60 | exactly the handlers selected by the history run, in order: the key's own list if it was ever registered, else the lists of its recorded prefixes |
| `Dispatcher.SurvivingStep` | pkg/config/event_dispatcher.go:63-105 | each call appends to a key's list, filters it by identity, or leaves it, where the list is defined independently as the handlers added and not unregistered later |
| `Dispatcher.SurvivingMembers` | pkg/config/event_dispatcher.go:89-105 | a handler is in a key's list exactly if some call added it and none after that unregistered it |
| `Dispatcher.PrefixMembers` | pkg/config/event_dispatcher.go:76-87 | the recorded prefixes are exactly those some call registered |
| `Dispatcher.SelectedExactly` | pkg/config/event_dispatcher.go:42-60 | an event runs a handler if and only if some call put it on the key and no later call took its identity off, or, when nothing was ever registered for the key, the same for a recorded prefix of it |
| `Dispatcher.SelectedInOrder` | pkg/config/event_dispatcher.go:42-60 | handlers run in the order of the calls that put them there; for prefixes, prefix by prefix in the order of recording, one recorded twice counting twice, and in the order of the calls for each; none is missing |
| `Layers.KeyRefreshed` | pkg/config/manager.go:272-318 | one event takes its key from agreement with the slow definition under the old configuration to agreement under the new one |
| `Layers.BindsExactly` | pkg/config/manager.go:272-318 | what a refresh binds a key to, by priority numbers: the refreshed source gets a key it holds unless it is read from a smaller number, equal numbers included; a key it drops goes to a smallest number among the other holders; nothing else moves |
| `Layers.RefreshKeepsIndex` | pkg/config/manager.go:272-333 | a whole refresh keeps the index equal to the slow definition for every key not forbidden, with equal priorities too |
| `Layers.RefreshExactly` | pkg/config/refresher.go:82-95 | the outcome of a batch and the set of dispatched events do not depend on the order of its events or of the table of sources if and only if no key the source drops has two equally good sources left |
| `Layers.ContestHappens` | pkg/config/manager.go:339-360 | a concrete state with a right index in which two sources are equally good for a key the best one drops |
| `Layers.NotifiedExactly` | pkg/config/manager.go:272-333 | no missed and no spurious notification: an event for a key is dispatched, once, if and only if the source has its handler, the key is not forbidden, and its source changes, or it is read from the refreshed source and its value there changes |
| `Layers.LookupRefines` | pkg/config/manager.go:99-113 | reading through the index is an answer of the layered view (overlay, tombstone, best source), with equal priorities too |
| `Layers.LookupExactly` | pkg/config/manager.go:99-113 | the layered view has no other answer if and only if an overlay decides or all best sources of the key give the same value |
| `Layers.LookupIsLayered` | pkg/config/manager.go:99-113 | with distinct priorities the layered view has no other answer |
| `Layers.ChangesAreAnnounced` | pkg/config/manager.go:99-113 | whenever a refresh changes the answer for a key that is not forbidden, an event for its normal form is dispatched |
| `Batches.TwinsAt` | pkg/config/env_source.go:37-45 | for every formatter, a key has the value of the last setting that is spelled so or formatted to it |
| `Batches.LastMatchExactly` | pkg/config/env_source.go:37-45 | that value is the one at the last position whose setting has the key as its spelling or formatted, and there is none if no setting has |
| `Batches.LastSpellingExactly` | pkg/config/file_source.go:127-153 | the last spelling is the one at the last position whose key normalises to the key |
| `Batches.LastMatchIsSpelling` | pkg/config/file_source.go:127-153 | with normalisation as the formatter the last match for a normal key is the last setting that spells it |
| `Batches.TwinsAtNormal` | pkg/config/file_source.go:127-153 | under a normal key a configuration holds the value that any spelling of the key got last |
| `Batches.SettleOne` | pkg/config/refresher.go:90-92 | the invariant in the middle of a batch: handled keys are settled, the others are untouched, and one event moves its key over |
| `Batches.PassedLogMembers` | pkg/config/manager.go:321-333 | the dispatched log of a batch has distinct keys and exactly the events that were acted on |
| `Batches.BatchIsRefresh` | pkg/config/file_source.go:156-169 | when all events of a diff have been handled, in whatever order, and the map is swapped, the refresh is complete |
| `Batches.TornReadExactly` | pkg/config/file_source.go:156-169 | after any number of events of a batch a key answers as before the refresh or as after it, unless its event took it from another source that was not better and whose value differs: then the answer is what the refreshed source held before, or none |
| `Batches.TornIsNotFound` | pkg/config/manager.go:99-113 | with distinct priorities such a read finds nothing |
| `Batches.TornReadHappens` | pkg/config/file_source.go:156-169 | a concrete batch: the key has a value before it and another after it, and none after its event |
| `ConfigManager.Source.ReadSettings` | pkg/config/file_source.go:127-153 | every setting is stored under its spelling and its formatted key, later ones winning, for any formatter |
| `ConfigManager.Source.Refresh` | pkg/config/file_source.go:108-170 | a failed fetch changes nothing; else the view makes the refresh step, and the dispatched events and handler runs are exactly those of its log; the manager keeps its source objects, and every handler ran before the swap, with the source still readable as it was |
| `ConfigManager.Source.DiffFireSwap` | pkg/config/etcd_source.go:155-162 | the same for the part both kinds of source share: diff, fire, swap |
| `ConfigManager.Source.FireEvents` | pkg/config/refresher.go:82-95 | after the loop every event of the batch is settled against the state before it, and the log and handler runs are those of the batch |
| `ConfigManager.Manager.constructor` | pkg/config/manager.go:89-97 | a new manager is in the initial state |
| `ConfigManager.Manager.FindNextBestSource` | pkg/config/manager.go:339-360 | in any order of traversal the result is a holder of the key with the smallest number among all sources but the one named, or there is none |
| `ConfigManager.Manager.HighPriorityOutranks` | pkg/config/manager.go:362-379 | the comparison returns the first source exactly if it is known and the second is unknown or has a larger number |
| `ConfigManager.Manager.UpdateEvent` | pkg/config/manager.go:272-318 | an event already acted on changes nothing; else acceptance, the new binding, the revised kind and the mark are as specified, and no other key is touched |
| `ConfigManager.Manager.OnEvent` | pkg/config/manager.go:321-333 | a forbidden key is ignored; else the key is settled, and the event reaches the dispatcher exactly if it was acted on |
| `ConfigManager.Manager.PullSourceConfigs` | pkg/config/manager.go:228-261 | in any order of the keys the index becomes the pulled one |
| `ConfigManager.Manager.AddSource` | pkg/config/manager.go:169-188 | the view makes the step of adding a source, in the duplicate, the failing and the successful case, also for a source that reports to another manager; the object passed in is the one stored, and it is connected exactly if it loaded |
| `ConfigManager.Manager.FileConfigs` | pkg/config/manager.go:150-160 | the file-only view is a refresh of the file source, whether its events arrive or not, and its result is what was read; without a file source or with an error nothing changes |
| `ConfigManager.Manager.GetConfig` | pkg/config/manager.go:99-113 | the answer is the lookup on the view |
| `ConfigManager.Manager.GetConfigs` | pkg/config/manager.go:116-135 | in any order of traversal the result is the full view |
| `ConfigManager.Manager.GetBy` | pkg/config/manager.go:137-148 | the result is a filtered view of the full one |
| `ConfigManager.Manager.SetConfig` | pkg/config/manager.go:192-194 | the view makes the SetConfig step and nothing else changes |
| `ConfigManager.Manager.SetMapConfig` | pkg/config/manager.go:196-198 | the view makes the SetMapConfig step |
| `ConfigManager.Manager.DeleteConfig` | pkg/config/manager.go:201-203 | the view makes the DeleteConfig step |
| `ConfigManager.Manager.ResetConfig` | pkg/config/manager.go:206-208 | the view makes the ResetConfig step |
| `ConfigManager.Manager.ForbidUpdate` | pkg/config/manager.go:211-213 | the view makes the ForbidUpdate step |
| `Runs.LoadKeepsIndex` | pkg/config/manager.go:228-261 | a source that loads keeps the index equal to the slow definition before it is handed the manager |
| `Runs.AddIsTwoSteps` | pkg/config/manager.go:177-187 | adding a source is loading it and, if that succeeds, handing it the manager |
| `Runs.AddKeepsIndex` | pkg/config/manager.go:228-261 | a source that loads keeps the index equal to the slow definition, for its own keys and all others |
| `Runs.FailedAddExactly` | pkg/config/manager.go:177-183 | a source that fails to load keeps the index right if and only if every key it came with is forbidden or read from a source with no larger number |
| `Runs.SilentRefreshExactly` | pkg/config/file_source.go:61-76 | a refresh whose events reach nobody keeps the index right if and only if no key it drops is read from it and each key it adds is read from a source with no larger number |
| `Runs.SilentRefreshBreaks` | pkg/config/manager.go:150-160 | a concrete run: adding the file source fails, it is loaded again, the index is wrong, and the key it holds is not found |
| `Runs.StepIndexExactly` | pkg/config/manager.go:169-333 | a step from a state with a right index leaves it right if and only if it is harmless, a condition on the state before and the action |
| `Runs.ReachableIndexExactly` | pkg/config/manager.go:169-333 | throughout any run, with refreshes of sources that have no handler, the index agrees with the slow definition for every key never forbidden if and only if every step is harmless |
| `Runs.ReachableIndexOk` | pkg/config/manager.go:169-333 | so it does in every state reached by harmless steps |
| `Runs.ReachableLookup` | pkg/config/manager.go:99-113 | in every such state GetConfig answers what the layered view does, and the view has no other answer if and only if no two best sources of the key differ in its value |
| `Runs.ReachableNotifications` | pkg/config/manager.go:321-333 | a refresh in such a state, with or without a handler, notifies exactly, and covers every change of an answer if the source has its handler |
| `Runs.OverlayLaws` | pkg/config/manager.go:192-208 | set, delete and reset through any spelling: what they make GetConfig answer, that a reset undoes a set, and that no other key is touched |
| `Runs.ForbidExactly` | pkg/config/manager.go:211-213 | after ForbidUpdate a spelling is forbidden if and only if it was before or has the normal form of the key; nothing else changes |
| `Runs.ForbiddenByCall` | pkg/config/manager.go:211-213 | in any run a key is forbidden if and only if ForbidUpdate was called with a spelling of it |
| `Runs.SilentAfterForbid` | pkg/config/manager.go:321-325 | from ForbidUpdate on no event for any spelling of the key is dispatched, in any run |
| `Runs.ForbiddenExactly` | pkg/config/manager.go:210-213 | once a key is forbidden, no step of any run dispatches an event for any spelling of it, and its source stays the same throughout the run if and only if no step loads a new source that holds it and takes it |
| `Runs.ForbiddenIsCaptured` | pkg/config/manager.go:241-258 | a concrete run: a key is forbidden, and a source added later takes it |
| `Runs.ForbiddenValueExactly` | pkg/config/manager.go:108-113 | a refresh leaves the answer for a forbidden key alone if and only if the key is overlaid, bound elsewhere, or has the same value in the new configuration |
| `Runs.ForbiddenValueChanges` | pkg/config/manager.go:210-213 | a concrete run: a source is added, its key is forbidden, a refresh changes the answer |
| `Runs.SourceOrderExactly` | pkg/config/manager.go:169-188 | adding the same sources, loading or failing, in any order gives the same manager state if and only if no key has two best sources |
| `Runs.TieOrderMatters` | pkg/config/manager.go:255 | a concrete pair of sources for which the order matters |
| `Handlers.RunsOfMembers` | pkg/config/event_dispatcher.go:42-60 | a batch runs a handler on an event if and only if the event is in the log and its key selects the handler |
| `Handlers.RefreshRunsExactly` | pkg/config/manager.go:272-333 | after any run of harmless steps and any history of registrations a refresh runs a handler for a key if and only if the source has its handler, the key's source or its value there changes, and the handler listens to the key or, for a key never registered, to a prefix of it; the event tells what happened |
| `Handlers.ForbiddenRunsNothing` | pkg/config/manager.go:321-325 | once a key is forbidden no handler is run for any spelling of it in any run, whatever is registered |
| `Handlers.NothingRunsAfterForbid` | pkg/config/manager.go:321-325 | from ForbidUpdate on no handler is run for any spelling of the key, in any run |
| `Views.FullViewExactly` | pkg/config/manager.go:116-135 | for a key in any spelling: an overlaid key is shown with its overlay; any other if and only if some source holds it in this spelling and GetConfig, whose answer is the layered one, has an answer, which is shown |
| `Views.ViewAgreesExactly` | pkg/config/manager.go:116-135 | on a normal key GetConfigs and GetConfig agree, both ways, if and only if the key's overlay is not the tombstone |
| `Views.TombstoneIsShown` | pkg/config/manager.go:129-132 | a concrete step after which the full view shows the tombstone of a key without an answer |
| `Views.SetMapConfigExactly` | pkg/config/manager.go:196-198 | after SetMapConfig GetConfig gives back what was stored if and only if the key has no separator, or it gave that answer before |
| `Views.SetMapConfigMisses` | pkg/config/manager.go:196-198 | a concrete value that is stored and not read back |
| `Views.MapConfigLaws` | pkg/config/manager.go:196-198 | without separators SetMapConfig is SetConfig; with one it changes no answer, and the full view shows the value under the lower-cased key and is otherwise as before |
| `Views.Filterate` | pkg/config/manager.go:70-79 | the loop applies the filters in turn, up to the first that refuses; without filters nothing passes |
| `Views.FilteredExactly` | pkg/config/manager.go:70-79 | a key passes if and only if there is a filter and each accepts what the one before made of it |
| `Views.RemoveFirstExactly` | pkg/config/manager.go:63-68 | removing a prefix cuts out its first occurrence in the key, and nothing if there is none |
| `Views.FilterConfigs` | pkg/config/manager.go:137-148 | in any order every key that passes is in the view and every entry comes from one that passes |
| `Views.PrefixView` | pkg/config/manager.go:42-47 | the view by prefix with the prefix removed is a bijection: it maps n to v exactly when the full view maps prefix+n to v |
| `Startup.Init` | pkg/config/config.go:33-54 | for any options and any formatter the manager is in the state of adding the file source, a failing one included, and then the environment source |
| `Startup.InitTable` | pkg/util/paramtable/base_table.go:127-164 | the program's own order: the environment, unless it is skipped, and then the files |
| `Startup.InitAnswers` | pkg/config/env_source.go:31-47 | for every formatter a key, in any spelling, has the value of the last variable spelled or formatted to its normal form, else the files', else none |
| `Startup.InitShows` | pkg/config/config.go:33-54 | for every formatter the full view shows a key if and only if some setting is spelled so or formatted to it and GetConfig has an answer, with that answer |
| `Startup.InitAnswersNormalized` | pkg/config/config.go:33-54 | with normalisation as the formatter it has the value any spelling was given last |
| `Startup.EnvFormatterNormalizes` | pkg/util/paramtable/base_table.go:130-137 | the program's formatter is the key normalisation of the name without its prefix |
| `Startup.TableAnswers` | pkg/util/paramtable/base_table.go:127-164 | in the program a key has the value of the last variable that names it, with or without the prefix, else the files', else none |
| `Startup.LastVariableExactly` | pkg/util/paramtable/base_table.go:130-137 | the variable that counts is the one at the last position that is spelled as the key or, without a leading "milvus." in any case, normalises to it |
| `Startup.PrefixedVariableExactly` | pkg/util/paramtable/base_table.go:130-137 | one more variable, after any others and over any files, is always read by its name without the prefix; by its own name if and only if that has no prefix or would be answered so anyway; a prefixed name is answered as without the variable |
| `Startup.PrefixedVariable` | pkg/util/paramtable/base_table.go:130-137 | the smallest example: "milvus.x" is read as "x" and not as "milvus.x" |
| `Startup.TableIsInit` | pkg/util/paramtable/base_table.go:138-146 | the options' order and the program's order give the same manager state |
| `Startup.RefreshAnswers` | pkg/config/file_source.go:108-170 | after a refresh a key that otherwise only larger-numbered sources hold has the value its last spelling was given |
| `Startup.RefreshBoth` | pkg/config/manager.go:169-188 | two sources are added and both refreshed, either refresh failing or not: GetConfig answers the last spelling's value in the key-value store as last read, else in the files as last read; the full view shows exactly the spellings that were set and their normal forms, with these answers; and the view by a prefix has n exactly if the full view has prefix and n, with its value |
| `Lifecycle.StepKeepsInv` | pkg/config/refresher.go:46-80 | every step of start, stop and the loop keeps the invariant |
| `Lifecycle.AtMostOneLoop` | pkg/config/refresher.go:46-53 | under every interleaving at most one loop is started, and none without an interval |
| `Lifecycle.RefetchExactly` | pkg/config/refresher.go:62-80 | in every reachable state some continuation begins a fetch after a failed one if and only if a periodic start is still to come, or the loop was registered after stop had finished waiting and is not over |
| `Lifecycle.LateStartHappens` | pkg/config/refresher.go:46-60 | such a state is reachable after stop has returned, and a fetch, and one after a failed one, can begin from it |
| `Lifecycle.NoFetchAfterStop` | pkg/config/refresher.go:55-60 | when stop has returned, a loop registered before is over and no continuation begins a fetch |
| `Lifecycle.FetchExactly` | pkg/config/refresher.go:46-80 | in every reachable state some continuation begins a fetch if and only if there is or can be a loop and no fetch has failed or the loop is late |
| `Lifecycle.FetchAfterStopExactly` | pkg/config/refresher.go:46-60 | after stop returned a continuation can begin a fetch if and only if a periodic start is still to come, or the loop was registered late and is not over |
| `Lifecycle.StopExactly` | pkg/config/refresher.go:55-80 | in every reachable state a call of stop can return if and only if no fetch has failed or the loop was registered late, and then within five steps |
| `Lifecycle.BlockedStopHappens` | pkg/config/refresher.go:70-73 | a reachable state from which no stop can return: after a failed fetch a loop that is not late has called stop itself and waits for itself |
| `Lifecycle.FailureBlocksStop` | pkg/config/refresher.go:70-73 | after a failed fetch in a loop that is not late no stop ever returns |
| `Reconfiguring.StepKeepsInv` | pkg/config/etcd_source.go:118-163 | every step of the refresher, its fetches and UpdateOptions keeps the invariant that says who has the lock |
| `Reconfiguring.UpdateExactly` | pkg/config/etcd_source.go:118-132 | while UpdateOptions waits in stop it can get on if and only if stop was over before, or no fetch is under way and the loop is not in its own call of stop; otherwise the lock is never released, and a fetch that has not read the prefix gets no further |
| `Reconfiguring.BlockedUpdateHappens` | pkg/config/etcd_source.go:134-163 | a reachable state without a failed fetch, from which stop alone could return, and UpdateOptions never does |
| `Utf8.GrammarIsEncoding` | pkg/log/zap_text_encoder.go:538-539 | the byte-range grammar accepts exactly the encodings of Unicode scalar values |
| `Escaping.UnescapeEscape` | pkg/log/zap_text_encoder.go:532-546 | decoding the escaped form as a JSON string body gives the input with each byte that starts no character replaced by U+FFFD |
| `Escaping.SanitizeSpec` | pkg/log/zap_text_encoder.go:624-630 | that replacement gives valid UTF-8, and changes nothing exactly on valid UTF-8 |
| `Escaping.QuotesExactly` | pkg/log/zap_text_encoder.go:549-590 | a text is put in quotes if and only if it has a byte up to 0x20, a quote, a backslash, a bracket or an equals sign |
| `Escaping.EscapeForms` | pkg/log/zap_text_encoder.go:593-622 | an ASCII byte is written as itself, as a short escape or as \u00 and two digits in lower case, which of them by its value, and is read back |
| `Escaping.EscapeStarts` | pkg/log/zap_text_encoder.go:624-630 | a byte that starts no character is written as \ufffd, and a character as it is |
| `Escaping.EscapeExactly` | pkg/log/zap_text_encoder.go:532-546 | two byte strings are escaped alike if and only if they have the same characters, and bytes that start none at the same places |
| `Escaping.EscapeInjective` | pkg/log/zap_text_encoder.go:532-546 | valid texts that are escaped alike are equal |
| `Escaping.EscapeClean` | pkg/log/zap_text_encoder.go:593-630 | for every byte string the escaped form is valid UTF-8 without a byte below 0x20 |
| `Escaping.ReadTokenToken` | pkg/log/zap_text_encoder.go:549-557 | a token, quoted or not, is read back whatever follows it |
| `Escaping.TokenExactly` | pkg/log/zap_text_encoder.go:549-590 | they are written as the same token under the same condition |
| `Escaping.TokenInjective` | pkg/log/zap_text_encoder.go:577-590 | valid texts written as the same token are equal |
| `TextFormat.NestedReadsBack` | pkg/log/zap_text_encoder.go:238-276 | what an array or object adds to any parent is a separator and a token that decodes to exactly the nested encoder's buffer |
| `TextFormat.ElementsRunTogether` | pkg/log/zap_text_encoder.go:502-513 | inside an array two plain texts are written exactly as one text with a comma between them |
| `TextFormat.RunClean` | pkg/log/zap_text_encoder.go:152-276 | any sequence of encoder calls, at any nesting depth, over any bytes, keeps the buffer valid UTF-8 without control bytes |
| `TextFormat.RunPrefix` | pkg/log/zap_text_encoder.go:496-513 | what calls write depends on earlier bytes only through the last one |
| `TextFormat.ItemsPrefix` | pkg/log/zap_text_encoder.go:329-338 | bracketed items after other bytes are those bytes, one space, and the items on their own |
| `TextFormat.PutFieldsConcat` | pkg/log/zap_text_encoder.go:632-644 | writing fields in two goes is writing them in one |
| `LineParser.ItemsParseBack` | pkg/log/zap_text_encoder.go:632-644 | items of one call each, a value however nested or the opening of a namespace, parse back exactly: keys and values, empty and full of delimiters |
| `LineParser.StringFieldsParseBack` | pkg/log/zap_text_encoder.go:329-338 | any list of string fields with valid UTF-8 keys and values parses back to the same list |
| `LineParser.NestedSpelled` | pkg/log/zap_text_encoder.go:238-276 | an array is its elements between brackets and an object its members between braces, with commas between them, for all elements that take a comma |
| `LineParser.TimesRunTogether` | pkg/log/zap_text_encoder.go:319-327 | two times in an array are written side by side, without a comma |
| `LogLine.WithCompose` | pkg/log/zap_text_core.go:39-53 | chained With calls are one With of the concatenated fields, open namespaces included |
| `LogLine.HeaderExactly` | pkg/log/zap_text_encoder.go:407-470 | a line has something before its fields if and only if a time or level key is set, a logger name or a caller comes with its key, or there is a message |
| `LogLine.ContextIsCallSite` | pkg/log/zap_text_encoder.go:407-484 | context fields and call-site fields give the same line if and only if the configuration and the entry give a header, or there is an earlier context, or there are no context fields |
| `LogLine.ContextIsNotCallSite` | pkg/log/zap_text_encoder.go:407-484 | a concrete configuration and entry without a header for which the two lines differ |
| `LogLine.ContextIsCallSiteByDefault` | pkg/log/zap_text_encoder.go:119-132 | in the default configuration they always give the same line |
| `LogLine.OneLine` | pkg/log/zap_text_encoder.go:407-484 | with a newline or nothing as configured line ending, a line has exactly one newline, its last byte, and no other control byte |
| `LogLine.WithClean` | pkg/log/zap_text_core.go:39-53 | With keeps a logger's context clean |
| `LogLine.DefaultExactly` | pkg/log/zap_text_encoder.go:119-132 | which parts the default configuration switches on, and its stack key and line ending |
| `LogLine.LineExactly` | pkg/log/zap_text_encoder.go:407-484 | a line with a header is x, one closing brace for each namespace opened by the context or the call, y, and the line ending; x parses to time, level, logger name, caller and message, each if wanted and there, then one item per field, context first, two for an error with a wanted differing rendering; y parses to the stack trace |
| `LogLine.LineParsesBack` | pkg/log/zap_text_encoder.go:407-484 | in the default configuration a line without namespaces parses to exactly these items, stack trace last |
| `TextEncoding.TextEncoder.AddElementSeparator` | pkg/log/zap_text_encoder.go:502-513 | at most a comma is added, by the last byte |
| `TextEncoding.TextEncoder.NeedDoubleQuotes` | pkg/log/zap_text_encoder.go:577-590 | quotes are needed exactly if some byte is special |
| `TextEncoding.TextEncoder.TryAddRuneSelf` | pkg/log/zap_text_encoder.go:593-622 | an ASCII byte is written escaped, any other is left |
| `TextEncoding.TextEncoder.SafeAddString` | pkg/log/zap_text_encoder.go:532-546 | the loop over a string appends the escaped form |
| `TextEncoding.TextEncoder.SafeAddByteString` | pkg/log/zap_text_encoder.go:560-574 | the separate loop over a byte slice appends the same escaped form |
| `TextEncoding.TextEncoder.AppendByteString` | pkg/log/zap_text_encoder.go:267-276 | a byte string is written exactly as the string of the same bytes |
| `TextEncoding.TextEncoder.AppendTime` | pkg/log/zap_text_encoder.go:319-327 | the stamp is written raw, or the nanoseconds when the stamp is empty |
| `TextEncoding.TextEncoder.AddKey` | pkg/log/zap_text_encoder.go:496-500 | separator, key token, equals sign |
| `TextEncoding.TextEncoder.AppendArray` | pkg/log/zap_text_encoder.go:238-248 | the parent gets the array's value; the nested encoder and its buffer go back to the pools, the receiver is unchanged |
| `TextEncoding.TextEncoder.AppendObject` | pkg/log/zap_text_encoder.go:250-260 | the same for an object |
| `TextEncoding.TextEncoder.Cloned` | pkg/log/zap_text_encoder.go:397-405 | the clone's state is determined by the receiver's, whatever the pooled encoder was used for; it and its buffer are nobody else's |
| `TextEncoding.TextEncoder.Clone` | pkg/log/zap_text_encoder.go:391-395 | the clone has the receiver's whole state in a buffer of its own |
| `TextEncoding.Pools.PutEncoder` | pkg/log/zap_text_encoder.go:83-94 | a pooled encoder holds no buffer and no namespaces |
| `TextEncoding.TextEncoder.EncodeError` | pkg/log/zap_text_encoder.go:646-665 | one item, or two when the detailed rendering differs and is wanted |
| `TextEncoding.TextEncoder.AddFields` | pkg/log/zap_text_encoder.go:632-644 | all fields are appended as items, and the namespaces they open are counted |
| `TextEncoding.TextEncoder.EncodeEntry` | pkg/log/zap_text_encoder.go:407-484 | the line is as specified, the receiver and its buffer are untouched, and the line's buffer is neither free nor held by a pooled encoder |
| `TextEncoding.TextCore.With` | pkg/log/zap_text_core.go:39-53 | the new core's context is the old one with the fields, and the old core keeps its own |
| `TextEncoding.TextCore.Write` | pkg/log/zap_text_core.go:62-78 | exactly the entry's line is pushed in one piece, or nothing if the push fails; the output is synced after a pushed line of the levels above error, and only then |
| `TextEncoding.Siblings` | pkg/log/zap_text_core.go:39-90 | two children of a core and the core itself do not see each other's fields, across pooling |
| `Replay.Columns` | cmd/main.go:141-157 | the columns are the conversions of the fields that are sent, or an error if one fails |
| `Replay.Handle` | cmd/main.go:122-195 | one message issues the call it stands for, if any, and ends the replay exactly if it drops the collection |
| `Replay.Run` | cmd/main.go:107-197 | the calls issued are exactly those of the messages in the window, whatever calls fail, and they are what the live messages ask for |
| `Replay.CallExactly` | cmd/main.go:123-187 | a delete of the collection's id and name whose keys convert stands for DeleteByPks of its name, its partition and the converted keys; an insert for its name, partition and the columns of the fields that go into it, in order; every other message for nothing |
| `Replay.ReplayExactly` | cmd/main.go:107-197 | the calls are what the messages ask for that come before a late pack and a drop, in stream order, and none of them is left out |
| `Replay.CallsInOrder` | cmd/main.go:122-195 | the calls are those of messages at strictly increasing positions, and every message that stands for a call is among them |
| `Replay.WindowExactly` | cmd/main.go:118-121 | a message is acted on if and only if no pack up to its own is late and no message up to it drops the collection |
| `Replay.SentExactly` | cmd/main.go:143-153 | an insert carries all fields but the automatic id if and only if such a field is named or there are no others |
| `Replay.ColumnIsLeftOut` | cmd/main.go:143-153 | without an automatic id name an insert of a field that converts is called without its column |

## Left out

- KeyFormat.Lower: covers the ASCII letters only; Go lowers all of Unicode.
- KeyFormat.KeyFormatter.FormatKey: lower-cases as KeyFormat.Lower does, so a letter outside ASCII is kept.
- KeyFormat.NormalizeFixes: capitals are the ASCII capitals, for the same reason.
- Startup.EnvFormatterNormalizes: the same for the program's formatter.
- Startup.Init: variables come as names and values; cutting them out of the environment's strings is not modelled.
- ConfigManager.Manager.AddSource: says nothing about the view of another manager the source reported to before; an environment source counts as connected, although it never fires events, because it never refreshes either.
- ConfigManager.Source.Refresh: one atomic step with arbitrary settings or an error; reading YAML, the environment or etcd and merging of several files before that are not modelled, and handlers do not call back into the manager.
- TextEncoding.Pools.PutEncoder: the reflection buffer it frees and the unused spaced flag it clears are not modelled.
- TextEncoding.TextEncoder.EncodeEntry: the formatters are those of the default configuration (raw time, the others through AppendString) with their fallbacks; other formatters, the JSON format and the unused spaced flag are not modelled.
- TextEncoding.TextCore.Write: a push takes the whole line or nothing, and what a failing sync leaves unsynced is not modelled.
- LogLine.LineExactly: is about fields of one call, lines with a header and loggers made from an empty context; a field that makes several calls has no single key and value to return.
- Elements inside an array or object are not parsed apart: the encoder does not separate them uniquely (TextFormat.ElementsRunTogether, LineParser.TimesRunTogether). How they are spelled is LineParser.NestedSpelled.
- Lifecycle: time, the ticker's period and fairness; that stop can return is a possibility, not a promise about the scheduler.
- Locks and real concurrency outside the refresher's protocol, and the concurrent map.
- Number, time and error formatting, base64 and JSON reflection: given as byte strings.
- Re-configuring beyond Reconfiguring.UpdateExactly: the refresher that replaces the old one has a life of its own, as in Lifecycle; a file source only takes other file names.
- Closing sources, which stops their refreshers, and the substring and one-of-prefixes filters, which would only add easy members.
- Command-line handling, seeking, the message stream itself and the conversions of columns and timestamps, which are parameters of the replay.
