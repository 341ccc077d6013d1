# ArrQueueCleaner core, modelled in Dafny

ArrQueueCleaner watches a Sonarr download queue. Some entries finish
downloading but stay stuck waiting to import, for two reasons. One is a
release that is not an upgrade of the episode on disk. The other is a
payload that is a compressed archive. The cleaner removes such entries, and
blocklists them when the configuration says so. This project models two
parts of it:

- **The queue cleaner** (`src/cleaner.ts`), in modules `Cleaner` and
  `CleanerProperties`.
  - The selection predicate `shouldRemoveItem`.
  - The remove-or-blocklist decision `processItem`.
  - One cleaning pass, `cleanQueue`. It is rendered as the sequence of
    download-manager calls it makes (`GetQueue`, `Remove(id)`,
    `Block(id)`), each tagged with whether the download manager accepted
    it.
  - The download manager is a `Gateway`: the queue it returns (`None` when
    the fetch fails) and a function saying which mutating calls succeed.
- **The configuration loader** (`src/config.ts`), in modules `ConfigLoader`
  and `ConfigProperties`.
  - The two boolean readings: the strict `parseBooleanEnv` and the loose
    `coerceBoolean`.
  - Per-instance rule overrides, and normalisation of instance records.
  - The three instance sources: `SONARR_INSTANCES`, `SONARR_INSTANCES_FILE`
    and the legacy `SONARR_HOST`/`SONARR_API_KEY`. Their precedence is
    modelled too.
  - The API-key validation that ends the load.
  - The environment is a `map<string, string>`. `JSON.parse` and the file
    reader (existence, read, JSON or YAML parse) are function parameters.
    Loosely typed JSON values are the `Json.Value` datatype, which has
    JavaScript's property lookup and truthiness.

Supporting modules:

- `Strings`: ECMAScript `includes`, `trim` (with the ECMAScript whitespace
  set), ASCII `toLowerCase`, and decimal rendering.
- `Types`: the record shapes of `src/types.ts`.
- `Wrappers`: `Option`, `Result` and `Outcome`.

Two behaviours of the code are kept exactly as written, and each is stated
as a lemma:

- `processItem` chooses the archive block flag whenever any message
  mentions an archive file. This happens even when only the quality rule
  picked the entry (`CleanerProperties.ArchiveMessageChoosesArchiveFlag`).
- The undetermined-sample block switch is read from the variable spelled
  `BLOCK_REMOVED_UNDETERMIND_SAMPLE`. The correct spelling has no effect
  (`ConfigProperties.CorrectSpellingIgnored`).

The cleaner reads one `sonarr` record (the `Config` of `src/types.ts`),
while the loader produces a list `sonarrInstances`. The model keeps both
shapes as the code has them and does not connect the two.

## Model

| member | source | states |
|---|---|---|
| Strings.Includes | src/cleaner.ts:66 | the substring search is true exactly when `sub` occurs in `s` as a contiguous piece |
| Strings.Trim | src/config.ts:138 | the trimmed string is empty exactly for blank input, is a contiguous piece of the input with only whitespace before and after it, and has no whitespace at either end |
| Strings.TrimUnique | src/config.ts:138 | those three promises determine the trimmed string: any string meeting them is the trimmed one |
| Strings.ToLower | src/config.ts:186 | lower-casing keeps the length, leaves no upper-case ASCII letter, moves each upper-case letter to its lower-case partner and keeps every other character |
| Strings.NatToString | src/config.ts:149 | the rendering of an index is a non-empty digit string whose decimal value is the number, without a leading zero |
| Cleaner.SomeIncludes | src/cleaner.ts:66 | the search over a message list holds exactly when some message contains the text |
| Cleaner.MessagesInclude | src/cleaner.ts:65-69 | a block's optional message list mentions the text exactly when it is present and some message contains it |
| Cleaner.SomeBlockIncludes | src/cleaner.ts:80-82 | the archive scan over all blocks holds exactly when some block mentions "archive file" |
| Cleaner.BlockFlagged | src/cleaner.ts:64-75 | a block is flagged exactly when an enabled rule recognises its text (quality text under the quality rule, archive text under the archive rule) |
| Cleaner.SomeBlockFlagged | src/cleaner.ts:64 | the `some` over blocks holds exactly when some block is flagged |
| Cleaner.ShouldRemoveItem | src/cleaner.ts:38-76 | each state filter (not completed, not in warning, not importPending, no blocks) rejects on its own; with both rules off nothing is picked; a picked entry mentions the text of an enabled rule; past the filters, picked exactly when some block is recognised by an enabled rule |
| Cleaner.ProcessItem | src/cleaner.ts:78-98 | exactly one mutating call on the entry's own id; it blocklists exactly when the archive flag is set (for an entry mentioning an archive file) or the quality flag is set (otherwise); a failed call is caught and recorded |
| Cleaner.Select | src/cleaner.ts:24 | the picked entries are queue entries the predicate accepts, and every accepted entry is picked |
| Cleaner.ProcessAll | src/cleaner.ts:26-28 | one attempt per picked entry, in order, each the entry's own decision; a failure does not stop the loop |
| Cleaner.CleanQueue | src/cleaner.ts:19-36 | a disabled instance makes no call; otherwise the first call is the fetch; no later call fetches; a failed fetch ends the pass; after a fetch comes one decision per picked entry, in order |
| CleanerProperties.SelectAppend | src/cleaner.ts:24 | filtering a concatenation concatenates the filtered parts (the picked entries keep queue order) |
| CleanerProperties.SelectKeepsDistinctIds | src/cleaner.ts:24 | the picked entries of a queue with distinct ids have distinct ids |
| CleanerProperties.FailureIsolation | src/cleaner.ts:95-97 | the calls a pass makes do not depend on which remove or block calls fail |
| CleanerProperties.TraceFollowsSelection | src/cleaner.ts:24-28 | after a fetch, the k-th later call targets the k-th picked entry |
| CleanerProperties.UnselectedNeverCalled | src/cleaner.ts:24-28 | an entry the predicate rejects gets no remove or block call (queue ids distinct) |
| CleanerProperties.SelectedCalledOnce | src/cleaner.ts:24-28 | a picked entry gets exactly one of the calls after the fetch (queue ids distinct) |
| CleanerProperties.ArchiveMessageChoosesArchiveFlag | src/cleaner.ts:80-86 | with the archive rule off, an entry picked while mentioning an archive file was picked for a quality issue, yet its block decision follows the archive block flag |
| CleanerProperties.TestItemsPicked | tests/cleaner.test.ts:60-94 | the quality-blocked test entry is picked exactly when the quality rule is on, and the archive-blocked one exactly when the archive rule is on |
| CleanerProperties.QualityScenario | tests/cleaner.test.ts:98-130 | a quality-blocked entry is fetched then removed, or blocklisted instead exactly when the quality block flag is on |
| CleanerProperties.ArchiveScenario | tests/cleaner.test.ts:132-164 | an archive-blocked entry is fetched then removed, or blocklisted instead exactly when the archive block flag is on |
| CleanerProperties.RejectedEntryAdded | src/cleaner.ts:24-28 | appending an entry the predicate rejects leaves the whole pass unchanged |
| CleanerProperties.AllMatchingRemoved | tests/cleaner.test.ts:177-197 | with the two blocked test entries and an entry that is not completed queued, each blocked entry is removed exactly when its rule is on, and the third gets no call |
| CleanerProperties.RuleCombinations | tests/cleaner.test.ts:211-248 | with both test entries queued, there is one removal per enabled rule, in queue order |
| CleanerProperties.NoBlockFlagsOnlyRemoves | src/cleaner.ts:84-94 | with both block flags off, the pass is the fetch followed by plain removals of the picked entries, in order |
| CleanerProperties.DisabledInstanceUntouched | src/cleaner.ts:20 | a disabled instance gets no call whatever its queue |
| CleanerProperties.FetchFailureStopsPass | src/cleaner.ts:22-35 | a failed fetch is caught and ends the pass after the fetch |
| ConfigLoader.ProvidedMeansTrimmedText | src/config.ts:58 | a variable counts as given exactly when it is present and its trimmed text is not empty |
| ConfigProperties.CaseVariantsOff | src/config.ts:8 | a flag is off for every text that is not exactly "true", even one that `coerceBoolean` reads as true because it normalises to "true" (other case, surrounding whitespace) |
| ConfigLoader.RulesFromEnv | src/config.ts:10-22 | each rule switch is on exactly when the variable at its position is the text "true", the undetermined-sample block switch reading the misspelled variable |
| ConfigLoader.DefaultName | src/config.ts:149 | the default name is "Sonarr " followed by the digits, without a leading zero, of the 1-based position |
| Json.IsObject | src/config.ts:132 | the object test holds exactly for truthy values that are not primitives, that is, objects and arrays |
| Json.Truthy | src/config.ts:199 | a value is falsy exactly when it is `undefined`, `null`, `false`, `0` or the empty string |
| ConfigLoader.CoerceBoolean | src/config.ts:180-200 | booleans are kept; strings whose trimmed, lower-cased form is a yes-word give true and a no-word false, and other strings are true exactly when non-empty; integers are true exactly when non-zero; null and undefined are false; objects and arrays are true |
| ConfigLoader.CollectOverrides | src/config.ts:167-175 | exactly the given keys whose value is not `undefined` are kept, each coerced |
| ConfigLoader.NormalizeRuleOverrides | src/config.ts:162-178 | overrides exist exactly for an object with at least one known rule key present; they are then non-empty, hold exactly the present known keys, and are coerced |
| ConfigLoader.HostOf | src/config.ts:138 | a host exists exactly when the property is a non-blank string, and it is then its trimmed, non-empty form |
| ConfigLoader.ApiKeyOf | src/config.ts:146 | the trimmed key when it is a string, else empty |
| ConfigLoader.NameOf | src/config.ts:147-149 | the trimmed name when it is a non-blank string, else the positional default; never empty, always trimmed |
| ConfigLoader.NormalizeInstance | src/config.ts:131-160 | a non-object fails with its index; an object without a non-blank string host fails with its index; otherwise every field follows its rule, and the record is well formed (trimmed non-empty host and name, trimmed key, overrides limited to known keys and non-empty) |
| ConfigLoader.MapIndexed | src/config.ts:68 | `map` with a throwing callback succeeds exactly when every entry maps at its own position, giving the mapped entries in order; otherwise the error is the one of the first failing entry |
| ConfigLoader.NormalizeList | src/config.ts:68 | a list normalises exactly when each entry normalises at its own position; the result is entry-by-entry and well formed; a failure is the failure of the first entry that does not normalise |
| ConfigLoader.InstancesOf | src/config.ts:64-68 | a non-array is rejected; an array gives exactly its normalised list, of the same length and well formed, or the normalisation error |
| ConfigLoader.LoadInstancesFromEnv | src/config.ts:56-72 | a missing or blank variable gives no list; unparsable text, a non-array or a bad entry are distinct errors; otherwise exactly the normalised list |
| ConfigLoader.LoadInstancesFromFile | src/config.ts:74-104 | a missing or blank variable gives no list; a missing file, an unparsable file, a non-array or a bad entry are distinct errors; otherwise exactly the normalised list |
| ConfigLoader.LoadLegacyInstance | src/config.ts:119-129 | one instance named "Primary Sonarr" without overrides, enabled exactly when a non-blank host is set; its host is the trimmed host or the local default; its key is the trimmed key or empty |
| ConfigLoader.LegacyWellFormed | src/config.ts:119-129 | the legacy instance is a well-formed record |
| ConfigLoader.ResolveSonarrInstances | src/config.ts:36-54 | an error from `SONARR_INSTANCES` is the result; a non-empty list from it wins; otherwise the file-or-legacy sources decide; a success is a non-empty list of well-formed records |
| ConfigLoader.FileOrLegacyInstances | src/config.ts:43-48 | an error from the instance file is the result; a non-empty list from it wins; otherwise the single legacy instance; a success is a non-empty list of well-formed records |
| ConfigLoader.MissingApiKeys | src/config.ts:203 | the filter keeps exactly the enabled instances with an empty key |
| ConfigLoader.ValidateInstances | src/config.ts:202-209 | validation passes exactly when every enabled instance has a non-empty key, and fails with the missing-key error otherwise |
| ConfigProperties.EnvOrIsLogicalOr | src/config.ts:28-29 | reading the schedule or log level is JavaScript's `\|\|` on the variable's value (`undefined` when absent) and the default: a set, non-empty text wins, else the default |
| ConfigLoader.LoadConfig | src/config.ts:24-32 | a successful load holds at least one well-formed instance, every enabled one with a non-empty API key; its rule switches and dry-run flag are the strict readings of their variables; a failed load carries either the instance sources' error or the missing-key error |
| ConfigLoader.Settle | src/config.ts:10-32 | the load succeeds exactly when every enabled instance has a key; the list is kept; the rule switches are the ones read from the environment; dry-run is the strict flag; schedule and log level take a non-empty variable's text and default when unset or empty |
| ConfigProperties.EnvFlagImpliesCoercion | src/config.ts:8 | a flag that `parseBooleanEnv` reads as on also coerces to true |
| ConfigProperties.EnvFlagRejectsVariants | src/config.ts:8 | worked instance of `CaseVariantsOff`: "TRUE" coerces to true but does not switch a flag on; an absent flag is off |
| ConfigProperties.CoercionVersusTruthiness | src/config.ts:180-200 | coercion differs from JavaScript truthiness exactly on strings that normalise to a no-word |
| ConfigProperties.StringCoercion | src/config.ts:185-193 | on strings, coercion differs from non-emptiness exactly for no-words |
| ConfigProperties.BlankStringCoercesToTrue | src/config.ts:185-199 | a non-empty string of spaces is no word, and coerces to true |
| ConfigProperties.RulesReadOnlyRuleVariables | src/config.ts:10-22 | setting any variable other than the eleven rule variables leaves the rule switches unchanged |
| ConfigProperties.CorrectSpellingIgnored | src/config.ts:21 | setting `BLOCK_REMOVED_UNDETERMINED_SAMPLE` changes no rule switch |
| ConfigProperties.MisspelledVariableLoaded | src/config.ts:21-26 | a successful load's undetermined-sample block switch is on exactly when `BLOCK_REMOVED_UNDETERMIND_SAMPLE` is "true" |
| ConfigProperties.RulesRoundTrip | src/config.ts:162-178 | non-empty overrides on known keys, written out as an object, normalise back to themselves |
| ConfigProperties.NormalizeEncoded | src/config.ts:131-160 | a well-formed instance, written out as a record, normalises back to itself at any position |
| ConfigProperties.NormalizeIdempotent | src/config.ts:131-160 | a normalised record, written back out, normalises to the same instance |
| ConfigProperties.UnknownOverrideIgnored | src/config.ts:168-172 | a property outside the rule keys never affects the overrides |
| ConfigProperties.OverridesReadOnlyRuleKeys | src/config.ts:168-172 | two objects that agree on every rule key yield the same overrides |
| ConfigProperties.DefaultNameInjective | src/config.ts:149 | unnamed instances at different positions get different default names |
| ConfigProperties.BlankInstancesVariableIgnored | src/config.ts:57-60 | a blank `SONARR_INSTANCES` resolves as though it were absent |
| ConfigProperties.NonArrayInstancesRejected | src/config.ts:64-66 | `SONARR_INSTANCES` parsing to a non-array stops the load, whatever the other sources say |
| ConfigProperties.EnvListWins | src/config.ts:38-41 | a non-empty valid list in `SONARR_INSTANCES` is the result |
| ConfigProperties.EmptyEnvListFallsThrough | src/config.ts:38-48 | an empty array in `SONARR_INSTANCES` resolves as though the variable were absent |
| ConfigProperties.FileListWins | src/config.ts:43-46 | without instances in the environment, a non-empty valid list in the file is the result |
| ConfigProperties.MissingFileRejected | src/config.ts:80-83 | without instances in the environment, a missing file stops the load |
| ConfigProperties.EmptyFileListFallsThrough | src/config.ts:43-48 | without instances in the environment, a file holding an empty array gives the legacy instance |
| ConfigProperties.EnvErrorEndsLoad | src/config.ts:38 | an error from `SONARR_INSTANCES` ends the load with that error |
| ConfigProperties.FileErrorEndsLoad | src/config.ts:43 | when the environment gives no instances, an error from the instance file ends the load with that error |
| ConfigProperties.LoadErrorsHaveASource | src/config.ts:24-54 | a failed load carries the error of a source it consulted, or the missing-key error |
| ConfigProperties.LegacyFallback | src/config.ts:48 | with neither list source set, the result is the single legacy instance |
| ConfigProperties.LoadedInstancesHaveKeys | src/config.ts:32 | every enabled instance of a successful load has a key |
| ConfigProperties.RecordNormalizes | src/config.ts:131-160 | a record with clean texts normalises to an instance with those texts, enabled unless it says otherwise, and without overrides |
| ConfigProperties.EnvironmentListLoaded | tests/config.test.ts:27-47 | entries with keys given in `SONARR_INSTANCES` load in order, each with its own name, host, key and switch |
| ConfigProperties.FileListLoaded | tests/config.test.ts:49-99 | entries with keys given in the instance file load in order, each with its own name, host, key and switch |
| ConfigProperties.InstanceWithoutKeyRejected | tests/config.test.ts:115-128 | an entry of `SONARR_INSTANCES` without a key is enabled, so it stops the load |
| ConfigProperties.LegacyVariablesLoaded | tests/config.test.ts:101-113 | the legacy variables alone give one enabled "Primary Sonarr" with the given host and key |

## Left out

- The Sonarr HTTP client (`src/sonarr.ts`) is not part of this model. Its
  `getQueue`, `removeFromQueue` and `blockRelease` are the `Gateway`: the
  fetched queue and the success of each mutating call are inputs.
- The scheduler and entry point (`src/index.ts`) and all logging and
  console output are left out: they do not affect which calls are made.
- Asynchrony is left out. The pass awaits each call in turn, so it is
  modelled as a sequence.
- `dotenv`, `fs`, `path.resolve`, `JSON.parse` and the optional `yaml`
  dependency are inputs (`parseJson`, `readFile`). A `readFileSync` failure,
  a parse error and a missing `yaml` module all appear as
  `FileUnparsable`.
- `process.exit(1)` and the printed messages are left out. A thrown error or
  an exit is a `Failure` with a reason, without the message text.
- InstanceWithoutKeyRejected: the test expects the console message "Sonarr
  API key is required for enabled instances: Broken"
  (tests/config.test.ts:125). The code prints a different fixed text
  (src/config.ts:206). Only the outcome, `MissingApiKey`, is modelled.
- InstanceWithoutKeyRejected: requires every entry of the list to be an
  object with a non-blank string host, so that the list normalises. It
  covers any such list holding the keyless entry; the test's list is the
  one-entry case.
- AllMatchingRemoved: the still-downloading entry of the test is
  generalised to any entry that is not completed. The rule switches are
  parameters, and the test's case has both on.
- EnvironmentListLoaded, FileListLoaded and LegacyVariablesLoaded: the
  literal test texts are generalised to any clean (non-empty, trimmed)
  texts. The test's lists are the cases with one and two entries.
- The dry-run switch is read but never consulted by the cleaner. The rules
  beyond quality and archive (no files, not an upgrade, series-id mismatch,
  undetermined sample) are configured but never consulted either. The
  model reads them and does nothing more with them.
- ConfigLoader.CoerceBoolean: numbers are integers only. JavaScript's
  floating point (`NaN`, fractions) is not modelled.
- Strings.ToLower: only ASCII letters are lowered. No non-ASCII character
  lowers to text that matters here.
- Cleaner.ShouldRemoveItem: a block whose `messages` is not an array would
  make the code throw. The model's types rule that out.
