# AchievementRetriever in Dafny

AchievementRetriever fetches a player's achievement list for one game from Steam or GOG. It
reconciles that list with the game's own requirement files, which say which DLC each
achievement needs. It caches the result as a CSV file named after the game and the unlock
filter. This project models the core of that pipeline:

- `Manager` (achievement_manager.dfy) holds `AchievementManager`: the cache-or-fetch
  method `CreateAchievements`, the tri-state unlock filter, and the DLC enrichment loop.
  - The enrichment joins each raw achievement to the first requirement record of the same
    name.
  - It fills `IsRequiredDlc`, `AllRequiredDlcNames` and `OneRequiredOfDlcNames`.
  - The class keeps the source's fields (`GameName`, `AchievementsResponse`, `_dlcNames` as
    `DlcNames`, `Achievements`), and its methods update them in place.
- `Grouping` (grouping.dfy) holds the unlocked and locked queries over a list of raw
  achievements, with a generic order-preserving `Where`.
- `AchievementModel` (achievement.dfy) holds the enriched entity and its constructor.
- `Filenames` (filename_creator.dfy) holds the cache file name: a token chosen by the unlock
  flag, then the game name, then the extension.
- `ParserDispatch` (parser_dispatcher.dfy) picks the provider parser from the configured
  source.
- `SteamRetrieval` and `GogRetrieval` cover the two retrieval strategies. Each checks its
  configuration, builds the request, maps the transport's outcome into an
  `AchievementsResponse`, and rethrows exceptions. Each strategy is a class over the shared
  `HttpClient`, whose `BaseAddress` and `Accept` headers it changes.
- `Files` and `ReadingResults` (file_service.dfy, result_of_reading_file.dfy) hold the
  directory-listing cascade and its success-or-error value.
- Support modules:
  - `DotNet` models the library behaviour the contracts are stated in: exceptions and their
    messages, `string.IsNullOrWhiteSpace`, `string.Replace`, integer formatting, the HTTP
    success range, and the `HttpClient` state.
  - `ApiModels` holds the raw records and the outcome types that stand for I/O.
  - `Requirements` holds the requirement records from the game-file parser.
  - `Wrappers` holds `Option` and `Result`.

Every reference the core checks for `null` is an `Option`: configuration strings, the
unlock flag, the result directory, the game name, and each level of a requirement record
reached with `?.`. Names, descriptions and DLC keys and values are plain strings (see
"## Left out"). Every exception is a value. The
network, the filesystem, `Uri.EscapeDataString`, the provider parsers and the game-file
parsers are parameters:

- an `Exchange` says whether the URI was rejected, the send failed, or a status and body came
  back;
- a `Parser` decodes a body or fails;
- a `FileLister` lists a directory or fails;
- the cache reader and the game-structure parse are `Result`s.

How the code differs from what one might expect:

- An unmatched achievement might be expected to keep the entity's empty DLC lists. Lines 97-98
  of AchievementManager.cs assign the `null` that `?.` yields instead, so its lists are null,
  and the model follows the code.
- `GameName` is taken from the first *unfiltered* fetched achievement.
- `CreateFullPath` joins the configured directory and the file name as text, with no
  separator. A directory configured without a trailing separator therefore writes next to
  that directory, not inside it (`Filenames.FullPathAddsNoSeparator`).
- The strategies are created per use, but they share a single `HttpClient`, and .NET
  refuses to change `BaseAddress` once that client has sent a request. A second GOG fetch
  through the same client therefore throws at GogAchievementsRetrieving.cs:41, and the model
  says so.
- The GOG placeholders are each replaced in one left-to-right pass, not until none remain:
  `GogRetrieval.SubstitutionIsSinglePass`.
- Only the directory probe and the cache read can throw out of `CreateAchievements`. Every
  step after them runs inside a catch-all.
- `FilenameCreator` is modelled exactly as FilenameCreator.cs shows it: no source argument,
  no suffix, no separators. Its constructor call at AchievementManager.cs:32, the call with
  `suffix:` at AchievementManager.cs:74, and FilenameCreatorTests.cs:12-55 all use a
  different signature. That signature appears in none of the files here. The model does not
  invent it; `Filenames.ShownSignatureHasNoSeparators` shows what the shown file produces
  instead.

## Model

| member | source | states |
|---|---|---|
| AchievementModel.FromGameAchievement | AchievementRetriever/Models/Achievement.cs:10-20 | `Achieved` is true exactly when `IsUnlocked` is true (null and false both give false); name and description are copied; `Countries` is empty, `IsRequiredDlc` false, both DLC lists empty |
| Grouping.Where | AchievementRetriever/Filters/AchievementGrouping.cs:13 | LINQ `Where(..).ToList()`: exactly the elements satisfying the predicate, as an order-preserving subsequence, never longer than the input |
| Grouping.WherePartition | AchievementRetriever/Filters/AchievementGrouping.cs:11-19 | two complementary filters split a list: lengths and multisets add up to the input's |
| Grouping.GetUnlockedAchievements | AchievementRetriever/Filters/AchievementGrouping.cs:11-14 | keeps exactly the entries whose `IsUnlocked` is true, in order (a subsequence of the stored list) |
| Grouping.GetLockedAchievements | AchievementRetriever/Filters/AchievementGrouping.cs:16-19 | keeps exactly the entries whose `IsUnlocked` is false or null, in order |
| Grouping.UnlockedLockedPartition | AchievementRetriever/Filters/AchievementGrouping.cs:11-19 | the two queries partition the list: lengths and multisets sum to the input's and every entry is on exactly one side |
| Grouping.FiltersIdempotent | AchievementRetriever/Filters/AchievementGrouping.cs:13-18 | applying either query to its own output returns it unchanged |
| Filenames.Token | AchievementRetriever/FilenameCreator.cs:7-11 | "UnlockedAchievements" for true, "LockedAchievements" for false, "Achievements" for null |
| Filenames.FilenameCreator.CreateFilename | AchievementRetriever/FilenameCreator.cs:5-13 | the name starts with the flag's token, ends with the extension, and the game name sits verbatim between them, with no separators |
| Filenames.FilenameCreator.CreateFullPath | AchievementRetriever/FilenameCreator.cs:15-18 | the configured directory (null as empty) followed by the file name |
| Filenames.FilenameInjective | AchievementRetriever/FilenameCreator.cs:12 | for one extension, a file name determines both the flag and the game name |
| Filenames.DefaultExtensionIsCsv | AchievementRetriever/FilenameCreator.cs:5 | the default extension is ".csv" |
| Filenames.ProbePatternCoversFilenames | AchievementRetriever/FilenameCreator.cs:5-13 | the probe `CreateFilename("*")` is token + "*" + extension, and a name has that token prefix and extension suffix exactly when it is some game's file name for the same flag |
| Filenames.SavedFileMatchesProbe | AchievementRetriever/FilenameCreator.cs:15-18 | the full path is the directory followed directly by the file name, which has the probe's token prefix and extension suffix |
| Filenames.FullPathAddsNoSeparator | AchievementRetriever/FilenameCreator.cs:17 | the directory "out" and game "X" give "outAchievementsX.csv": no separator is inserted |
| Filenames.ShownSignatureHasNoSeparators | AchievementRetriever/FilenameCreator.cs:12 | the null-flag name of "HalfLife" is "AchievementsHalfLife.csv", not the spaced, source-prefixed form its callers expect |
| ParserDispatch.AchievementParserDispatcher.GetParser | AchievementRetriever/JsonParsers/AchievementParserDispatcher.cs:16-24 | Steam gives the Steam parser and GoG the GOG parser, each exactly; any other value fails with `InvalidOperationException` "Unsupported achievement source: " and the value |
| ParserDispatch.NewDispatcher | AchievementRetriever/JsonParsers/AchievementParserDispatcher.cs:8-14 | construction fails exactly when the service provider is null, with `ArgumentNullException` for "serviceProvider"; the source is kept as given |
| ParserDispatch.UndefinedSourceFailsLate | AchievementRetriever/JsonParsers/AchievementParserDispatcher.cs:14-22 | an out-of-range source constructs fine and fails only in `GetParser` |
| ParserDispatch.UnsupportedMessageNamesValue | AchievementRetriever/JsonParsers/AchievementParserDispatcher.cs:22 | for 999 the message is exactly "Unsupported achievement source: 999" |
| ReadingResults.ResultOfReadingFile.Ok | AchievementRetriever/IO/ResultOfReadingFile.cs:11-23 | a valid success carrying the value and no error |
| ReadingResults.ResultOfReadingFile.Fail | AchievementRetriever/IO/ResultOfReadingFile.cs:17-24 | a valid failure carrying the exception and no result |
| ReadingResults.ResultOfReadingFile.Deconstruct | AchievementRetriever/IO/ResultOfReadingFile.cs:26-31 | yields exactly (`Success`, `Result`, `Error`) |
| ReadingResults.ResultOfReadingFile.ToBool | AchievementRetriever/IO/ResultOfReadingFile.cs:33 | the implicit conversion equals `Success` |
| ReadingResults.FactoriesRoundTrip | AchievementRetriever/IO/ResultOfReadingFile.cs:5-33 | every valid value is what `Ok` or `Fail` makes from its own parts, and the bool conversion agrees with the deconstructed flag |
| Files.TryGetFilesFromConfig | AchievementRetriever/IO/FileService.cs:9-30 | the ordered cascade: null/blank path gives `ArgumentException` first, then a missing directory gives `DirectoryNotFoundException`, an empty listing `FileNotFoundException` with path and pattern in the message, a listing failure is passed through as `Fail(ex)`; the result is always valid and a success is never empty |
| Files.SuccessIffFilesFound | AchievementRetriever/IO/FileService.cs:14-24 | success exactly when the path is usable, the directory exists and the listing is non-empty, and then it carries that listing |
| SteamRetrieval.BuildRequest | AchievementRetriever/SteamAchievementsRetrieving.cs:40-46 | the configured address with exactly four distinct keys: "?appid", "key", "steamid", "l" mapped to application id, key, Steam id and language |
| SteamRetrieval.ErrorMessageFor | AchievementRetriever/SteamAchievementsRetrieving.cs:62-73 | "HTTP request failed: " for `HttpRequestException`, "An error occurred: " for any other, then the message |
| SteamRetrieval.IsValidConfiguration | AchievementRetriever/SteamAchievementsRetrieving.cs:31-33 | a configuration passes only when all five settings are present and non-empty; a null one always fails it |
| SteamRetrieval.SteamAchievementsRetrieving.constructor | AchievementRetriever/SteamAchievementsRetrieving.cs:22-24 | the field assignments once the parser is known: the client, that parser and the configuration are kept |
| SteamRetrieval.NewSteamAchievementsRetrieving | AchievementRetriever/SteamAchievementsRetrieving.cs:20-25 | construction throws exactly the dispatcher's `GetParser` exception when it has one; otherwise a fresh strategy over the given client and configuration with the parser the provider resolves for the dispatcher's choice |
| SteamRetrieval.SteamAchievementsRetrieving.GetAllAchievementsAsync | AchievementRetriever/SteamAchievementsRetrieving.cs:27-76 | a blank setting throws `InvalidOperationException` before anything is built or changed; otherwise one `Accept: application/json` is appended and the request logged; a failed status is returned with its code and nothing parsed; a success status returns the parsed list, its first game name and `Success`; any exception escapes after `Success` false and the matching `ErrorMessage`; a returned response's `Success` holds exactly for a 2xx status |
| SteamRetrieval.SteamAchievementsRetrieving.GetFilePathToSaveResult | AchievementRetriever/SteamAchievementsRetrieving.cs:78-81 | the configured directory, unchanged |
| SteamRetrieval.SteamAchievementsRetrieving.GetFlagIsAchieved | AchievementRetriever/SteamAchievementsRetrieving.cs:83-86 | the configured unlock flag, unchanged |
| GogRetrieval.IsValidConfiguration | AchievementRetriever/GogAchievementsRetrieving.cs:28 | a configuration passes only when the template and the user are present and non-empty; a null one always fails it |
| GogRetrieval.GameIdNotValidated | AchievementRetriever/GogAchievementsRetrieving.cs:28 | the check's answer does not depend on the game id, even a null one |
| GogRetrieval.BuildAddress | AchievementRetriever/GogAchievementsRetrieving.cs:37-39 | fails exactly when the (unchecked) game id is null, with the `ArgumentNullException` of `Uri.EscapeDataString`; the success value is given by the lemmas below |
| GogRetrieval.TemplateWithoutPlaceholdersIsVerbatim | AchievementRetriever/GogAchievementsRetrieving.cs:37-39 | a template with neither placeholder is used verbatim |
| GogRetrieval.GameIdSkippedByUserPass | AchievementRetriever/GogAchievementsRetrieving.cs:38 | the "{User}" pass steps over a "{GameId}" placeholder and carries on after it |
| GogRetrieval.UserPass | AchievementRetriever/GogAchievementsRetrieving.cs:38 | for any template of brace-free literals and placeholders, the "{User}" pass puts the escaped user in every user slot and keeps everything else |
| GogRetrieval.GameIdPass | AchievementRetriever/GogAchievementsRetrieving.cs:39 | the "{GameId}" pass then puts the escaped game id in every game-id slot and keeps everything else, when the escaped user has no '{' |
| GogRetrieval.TemplateSubstitution | AchievementRetriever/GogAchievementsRetrieving.cs:37-39 | for any template of brace-free literals and placeholders, in any order and number, the address is the template with every user slot holding the escaped user and every game-id slot the escaped game id |
| GogRetrieval.SubstitutionIsSinglePass | AchievementRetriever/GogAchievementsRetrieving.cs:37-39 | each placeholder is replaced in one pass: "{{User}}" with user "User" becomes the text "{User}" |
| GogRetrieval.ErrorMessageFor | AchievementRetriever/GogAchievementsRetrieving.cs:56-73 | "Request failed: " for `UriFormatException` and `HttpRequestException`, "An error occurred: " otherwise, then the message |
| GogRetrieval.GogAchievementsRetrieving.constructor | AchievementRetriever/GogAchievementsRetrieving.cs:21-23 | the field assignments once the parser is known: the client, that parser and the configuration are kept |
| GogRetrieval.NewGogAchievementsRetrieving | AchievementRetriever/GogAchievementsRetrieving.cs:19-24 | construction throws exactly the dispatcher's `GetParser` exception when it has one; otherwise a fresh strategy over the given client and configuration with the parser the provider resolves for the dispatcher's choice |
| GogRetrieval.GogAchievementsRetrieving.GetAllAchievementsAsync | AchievementRetriever/GogAchievementsRetrieving.cs:26-76 | a blank template or user throws before anything is built; an address or URI failure escapes with the client unchanged; on a client that has already sent a request, setting `BaseAddress` throws `InvalidOperationException`, recorded as "An error occurred: ", with the client unchanged; otherwise `BaseAddress` becomes the built address, one `Accept` entry is appended and that address requested; status, parse and rethrow cases as for Steam, with GOG's messages |
| GogRetrieval.GogAchievementsRetrieving.GetFilePathToSaveResult | AchievementRetriever/GogAchievementsRetrieving.cs:78-81 | the configured directory, unchanged |
| GogRetrieval.GogAchievementsRetrieving.GetFlagIsAchieved | AchievementRetriever/GogAchievementsRetrieving.cs:83-86 | the configured unlock flag, unchanged |
| DotNet.IsNullOrWhiteSpace | AchievementRetriever/IO/FileService.cs:14 | null and "" count as blank; a value that is not blank is present and holds a non-white-space character, and any such value is not blank |
| DotNet.Replace | AchievementRetriever/GogAchievementsRetrieving.cs:37-39 | replacing text with itself changes nothing; a same-length replacement keeps the length; deleting never lengthens |
| DotNet.ReplaceAbsent | AchievementRetriever/GogAchievementsRetrieving.cs:37-39 | `Replace` leaves a string without the searched text unchanged |
| DotNet.ReplaceSkipsPrefix | AchievementRetriever/GogAchievementsRetrieving.cs:37-39 | `Replace` copies through a stretch that lacks the searched text's first character |
| DotNet.NatToString | AchievementRetriever/JsonParsers/AchievementParserDispatcher.cs:22 | the decimal form is non-empty, all digits, without a leading zero, and the digits denote the number |
| DotNet.IntToString | AchievementRetriever/JsonParsers/AchievementParserDispatcher.cs:22 | a non-negative value is its decimal digits; a negative one is "-" followed by the digits of its magnitude |
| DotNet.HttpClient.AddAccept | AchievementRetriever/SteamAchievementsRetrieving.cs:48 | one more `Accept` entry, appended; earlier ones (even equal ones) stay |
| DotNet.HttpClient.SetBaseAddress | AchievementRetriever/GogAchievementsRetrieving.cs:41 | before the first request `BaseAddress` becomes the given address; after it the setter throws `InvalidOperationException` and the address stays |
| DotNet.HttpClient.GetAsync | AchievementRetriever/SteamAchievementsRetrieving.cs:50 | the request is appended to the client's sent requests |
| Manager.FirstOrDefault | AchievementRetriever/Managers/AchievementManager.cs:90-93 | null exactly when no record has the achievement's name; otherwise the record at the first position with exactly that name |
| Manager.SelectManyNames | AchievementRetriever/Managers/AchievementManager.cs:93 | the flattened entries are exactly those of some group |
| Manager.SelectManyNamesSingle | AchievementRetriever/Managers/AchievementManager.cs:93 | one group flattens to its own entries |
| Manager.SelectManyNamesAppend | AchievementRetriever/Managers/AchievementManager.cs:93 | flattening distributes over concatenation, lengths adding up, so entries come group after group, in order, repeats kept |
| Manager.ValuesWithKey | AchievementRetriever/Managers/AchievementManager.cs:98 | the values of the entries under the key, in order; exactly those values; empty exactly when no entry has the key |
| Manager.FilterThenSelectInOrder | AchievementRetriever/Managers/AchievementManager.cs:98 | filtering by key then selecting values equals walking the entries from the front |
| Manager.MapAchievement | AchievementRetriever/Managers/AchievementManager.cs:90-99 | `Achieved` as in the constructor, name and description copied, and `IsRequiredDlc` true exactly when one of the two lists is present and non-empty |
| Manager.MapAchievementUnmatched | AchievementRetriever/Managers/AchievementManager.cs:90-98 | with no record of that name, no DLC is required and both lists are null |
| Manager.MapAchievementMatched | AchievementRetriever/Managers/AchievementManager.cs:90-98 | with a first match: the all-of list is `HasAllDlc` as-is; the one-of list is null when a level is missing, otherwise exactly the `TokenHasDlc` values of the flattened groups in order; DLC is required exactly when `HasAllDlc` is non-empty or some flattened entry is keyed `TokenHasDlc` |
| Manager.EnrichmentExample | AchievementRetriever/Managers/AchievementManager.cs:90-99 | an unlocked "A1" whose record requires all of {"DLC1"} maps to achieved, DLC required, all-of ["DLC1"], one-of null |
| Manager.MapAll | AchievementRetriever/Managers/AchievementManager.cs:87-100 | one entry per raw achievement, same length, position by position the mapped entry with the same name, description and unlock |
| Manager.Filtered | AchievementRetriever/Managers/AchievementManager.cs:103-111 | true keeps exactly the unlocked entries, false exactly the others, null everything; always an order-preserving subsequence |
| Manager.FilteredIdempotent | AchievementRetriever/Managers/AchievementManager.cs:103-111 | filtering twice with the same flag equals filtering once |
| Manager.FilteredThenMappedMatchesFlag | AchievementRetriever/Managers/AchievementManager.cs:53-54 | after filtering with a definite flag, every mapped entry's `Achieved` equals the flag |
| Manager.AchievementManager.constructor | AchievementRetriever/Managers/AchievementManager.cs:27-33 | the filename creator gets the strategy's flag and directory; no state is set yet |
| Manager.AchievementManager.ProbeCache | AchievementRetriever/Managers/AchievementManager.cs:37-38 | a null result directory throws `ArgumentNullException` for "path"; otherwise the directory is listed with the pattern token + "*" + ".csv" |
| ApiModels.FirstGameName | AchievementRetriever/Managers/AchievementManager.cs:55 | null exactly for an empty list, otherwise the first entry's game name |
| Manager.AchievementManager.FilterAchievements | AchievementRetriever/Managers/AchievementManager.cs:103-111 | `AchievementsResponse` becomes its filtered form for the strategy's flag |
| Manager.AchievementManager.MapAchievements | AchievementRetriever/Managers/AchievementManager.cs:78-101 | a failed game-file parse throws with nothing changed; otherwise `DlcNames` becomes the parsed set and `Achievements` is reset and rebuilt by the loop to the mapped `AchievementsResponse` |
| Manager.AchievementManager.SaveAchievementsToFile | AchievementRetriever/Managers/AchievementManager.cs:72-76 | the CSV write goes to the full path of the current game name with the current DLC names and achievements; after the configured directory comes a name with the token prefix and ".csv" suffix that the next run's probe looks for |
| Manager.AchievementManager.CreateAchievements | AchievementRetriever/Managers/AchievementManager.cs:35-68 | a throwing probe escapes with nothing changed; a hit loads `files[0]` (DLC names as a set) and fetches nothing, or lets the read's exception escape; a miss never throws; a miss without a successful fetch changes nothing; a successful fetch filters, then on a good parse maps, takes `GameName` from the first unfiltered entry and writes the CSV, and on a failed parse leaves `Achievements`, `DlcNames` and `GameName` alone |

## Left out

- HTTP transport and async/await: the outcome of building and sending a request is the `Exchange` input, and `ReadAsStringAsync` is folded into its body.
- `Uri`, `UriBuilder`, `HttpUtility.ParseQueryString` and `Uri.EscapeDataString` are library code. A URI failure is an `Exchange` case, the escaper is a function parameter, and the Steam query is a key/value list, not an encoded query string.
- The provider parsers, `ReadFileManager`, `SaveFileManager`, and the description and structure parsers of the game-file library: none of their code is part of this model. They are oracles (`Parser`, the cache-read function, the `GameStructure` result), and the CSV write is returned as a `CsvWrite` value.
- `Requirements.TokenHasDlc`: the library that defines this constant is not part of this model. It is the named constant "has_dlc", and no contract depends on its value.
- `Directory.GetFiles` glob matching and `Directory.Exists` are functions given to the model. `searchOption` is dropped because only `TopDirectoryOnly` is ever passed.
- Console output at AchievementManager.cs:60 and :65 is not modelled.
- Manager.AchievementManager.CreateAchievements: the swallowed `NullReferenceException` for a null `results.Achievements` is not modelled, because the achievement list is never null here.
- Manager.AchievementManager.constructor: `AchievementsResponse` starts as an empty list instead of null, because it is read only after being assigned.
- Manager.AchievementManager.SaveAchievementsToFile: the `suffix` argument is dropped, because the shown `CreateFullPath` has no such parameter. The `source` argument of the constructor call at AchievementManager.cs:32 is dropped for the same reason.
- Manager.MapAchievement: null requirement lists, null groups and null `Names` inside a group would throw in the source; the model's records hold lists, not nulls, below the levels reached with `?.`.
- ParserDispatch.AchievementParserDispatcher.GetParser: `GetRequiredService` failing for an unregistered parser is not modelled; the provider is taken to have both parsers registered.
- SteamRetrieval.SteamAchievementsRetrieving.GetAllAchievementsAsync: the response filled in before an exception escapes is returned as `abandoned` in `Raised`, although the caller can never see it.
- ApiModels.GameAchievement: `GameName`, `Name` and `Description` are non-null strings, so `ApiModels.FirstGameName` yields `Some` even where the source's first entry has a null `GameName`, and a null achievement name cannot match a null record name at AchievementManager.cs:90. The provider parsers that produce these values are not part of this model.
- Requirements: a record's `Name` and a DLC entry's `Key` and `Value` are non-null strings, for the same reason.
- Hosting and dependency-injection wiring, the strategy factory and the post-processing after `CreateAchievements` are framework plumbing and are not modelled.
