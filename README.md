# Arc-Uploader: a Dafny model of the collection job

Arc-Uploader collects the ArcDPS combat logs of one day and uploads them. One
run reads the configuration (`config.json`: the ArcDPS log directory and an
allow-list of encounter names). For every allow-listed encounter
sub-directory, it selects the newest `.evtc` file created today. It uploads
those files and writes the returned permalinks, one `name - link` line each,
to the console and to `results/{Day}-{Month}-{Year}.log`. Any exception is
reported as one console line. Nothing is thrown to the caller.

The model has five modules:

- `Common`: the values the components share. These are `Option`, `Result`, the
  exception kinds the catch clauses tell apart, `Date`, and dictionary entries.
  A `Dictionary` that is only ever added to is a sequence of entries in
  insertion order.
- `Text`: unpadded decimal numerals, reading them back, and splitting at a
  separator.
- `Config` (`Config/UploaderConfig.cs`): `init` becomes the method
  `UploaderConfig.Init`, specified by the functions `InitError` and `Load`.
  The static `_instance` holder and the `INSTANCE` getter become the class
  `ConfigInstance`.
- `Collector` (`Components/LogCollector.cs`): `getLatestDailyLog` and `collect`
  are methods of `LogCollector`, specified by the functions `LatestDailyLog`
  and `CollectLogs`. The library steps they use are pure functions:
  `RemoveAll` becomes `CreatedToday` and `AllowListed`, and `List.Sort`
  becomes `SortNewestFirst`.
- `Job` (`Components/ArcJob.cs`): the results path and line format,
  `writeOutput` as a loop, and `start` as the method `Start`, specified by
  `StartReport`.

The model has no filesystem, clock or network. They are parameters:

- The base directory's listing is `Result<seq<Directory>>`: the directories,
  or what `GetDirectories` threw.
- Each directory carries the files its `*.evtc` listing gives, each file with a
  creation time in ticks.
- `dateOf: int -> Date` gives the calendar date of a time (`CreationTime.Date`).
- `today: Date` stands for `DateTime.Today`.
- What reading and parsing the configuration file gives is
  `Result<ConfigJson>`.
- `LogUploader.upload` is a function parameter that returns the permalinks or
  the exception it threw.

The code does one run. It has no polling loop, no change-detection baseline
and no concurrent uploads. Its same-day filter always applies: the
`same_day_only` and `polling_enabled` properties are never read.

The check at `Components/LogCollector.cs:59` tests `encounter == null` over
the kept directories, not over their logs. No directory is null, so it throws
only when no directory is allow-listed. It does not throw when allow-listed
directories have no log of today (`CollectSucceedsWithoutDailyLogs`). Those
null logs then reach the uploader.

## Model

| member | source | states |
|---|---|---|
| `Collector.CreatedToday` | Components/LogCollector.cs:91 | keeps exactly the listed files whose creation date is today |
| `Collector.SortNewestFirst` | Components/LogCollector.cs:94 | the result is a permutation of its input, ordered by creation time with the newest first |
| `Collector.InsertKeepsNewestFirst` | Components/LogCollector.cs:94 | inserting a file into a newest-first sequence keeps it newest first |
| `Collector.LatestDailyLog` | Components/LogCollector.cs:84-100 | no log exactly when no listed file was created today; otherwise a listed file created today whose creation time is at least that of every other file created today, so files of other days are never chosen |
| `Collector.LogCollector.GetLatestDailyLog` | Components/LogCollector.cs:84-100 | the method's result is `LatestDailyLog` of the directory's files: None exactly when no file was created today |
| `Collector.AllowListed` | Components/LogCollector.cs:46 | keeps exactly the directories whose name is on the allow-list; unique names stay unique |
| `Collector.CollectLogs` | Components/LogCollector.cs:37-77 | a listing failure propagates; an empty base directory throws InvalidDataException "No encounters listed in config file. " before any filtering; success has at least one entry; the FileLoadException message names the base directory |
| `Collector.CollectKeysAreAllowListedNames` | Components/LogCollector.cs:43-56 | on success the keys are exactly the allow-listed names of directories present; directories not on the list never appear |
| `Collector.CollectValuesAreDailyLogs` | Components/LogCollector.cs:53-56 | on success each value is the `LatestDailyLog` of the one directory with that name, and so is absent or a file of that directory |
| `Collector.CollectFileLoadExactlyWhenNoneAllowListed` | Components/LogCollector.cs:43-62 | for a non-empty base directory, collect throws FileLoadException exactly when no sub-directory name is on the allow-list |
| `Collector.CollectSucceedsWithoutDailyLogs` | Components/LogCollector.cs:53-62 | allow-listed directories with no file of today do not make collect fail; every value is then absent |
| `Collector.DuplicateKeyFound` | Components/LogCollector.cs:53-56 | collect's loop meets a key it has already added only when two kept directories share a name |
| `Collector.EntryAdded` | Components/LogCollector.cs:53-56 | each round of collect's loop appends one entry (the directory's name and its daily log) to `LogEntries` of the directories so far, and the names added so far stay unique |
| `Collector.LogCollector.Collect` | Components/LogCollector.cs:37-77 | the method (filter, `Dictionary.Add` loop, emptiness guard) returns `CollectLogs` of its configuration, including the duplicate-key ArgumentException of `Dictionary.Add` |
| `Config.InitError` | Config/UploaderConfig.cs:56-68 | init succeeds exactly when the base directory is neither null nor empty and the encounter array is non-empty; the base-directory error wins when both are invalid; both errors are InvalidDataException |
| `Config.Load` | Config/UploaderConfig.cs:51-75 | a failed read propagates; a validation error propagates; on success the base directory is non-empty and the encounters are the array's values, same length, same order |
| `Config.UploaderConfig.Init` | Config/UploaderConfig.cs:51-75 | sets the base directory, then throws per `InitError`; on success copies the encounter names in order (loop); on failure leaves the encounter list as it was |
| `Config.ConfigInstance.Resolve` | Config/UploaderConfig.cs:26-37 | whatever an access of INSTANCE yields is a validated configuration (non-empty base directory, at least one encounter); once an instance is stored no access fails; without one, an access succeeds exactly when the file reads and passes init's validation, and then yields the file's encounters |
| `Config.ConfigInstance.Instance` | Config/UploaderConfig.cs:25-37 | an existing instance is returned unchanged, with no new init; otherwise a new object is stored only when its init returns normally, so a failed access leaves `_instance` null for the next one to retry |
| `Config.AccessTwice` | Config/UploaderConfig.cs:25-36 | after a successful first access the second returns the same object; after a failed one the second constructs again from its own read |
| `Text.NatToString` | Components/ArcJob.cs:49 | an int interpolates as a non-empty run of digits with no leading zero |
| `Text.NatToStringRoundTrip` | Components/ArcJob.cs:49 | reading the printed numeral back gives the number |
| `Job.OutputPathRoundTrip` | Components/ArcJob.cs:49-50 | `OutputPath` (built from `OutputFileName`) is injective: the path `results/{Day}-{Month}-{Year}.log` reads back to the date it was built from |
| `Job.OutputPathExample` | Components/ArcJob.cs:15-16 | the numbers are unpadded: 7 March 2020 gives `results/7-3-2020.log` |
| `Job.ResultLineRoundTrip` | Components/ArcJob.cs:55 | a `ResultLine` is the key, `" - "` and the link, where null prints as nothing; for a link without spaces, splitting at the last separator gives back the key and the link |
| `Job.WriteOutput` | Components/ArcJob.cs:47-62 | the file path is that of today's date; exactly one line per result entry in dictionary order (`ResultLines`); the console and the file receive identical lines |
| `Job.CatchMessage` | Components/ArcJob.cs:32-43 | FileNotFoundException prints the config-not-found message; InvalidDataException prints "Configuration contains invalid values - " and its message; every other exception prints its message unchanged |
| `Job.StartReport` | Components/ArcJob.cs:21-45 | a results file exists exactly when all three stages, chained by `Pipeline` (ArcJob.cs:25-27), succeed; otherwise one line, the caught exception's message, and nothing is thrown |
| `Job.OutputOnlyAfterCollectAndUpload` | Components/ArcJob.cs:25-30 | the file is written exactly when the configuration is obtained and collect and then upload return; the console and the file then get the result lines on today's path |
| `Job.UploadOnlyAfterCollect` | Components/ArcJob.cs:25-27 | when the configuration or collect fails the report is the same whatever the uploader would do, and no file is written |
| `Job.NoAllowListedEncounterReported` | Components/ArcJob.cs:40-43 | collect's FileLoadException reaches the console through the generic catch as "No daily runs found in {base directory}." |
| `Job.EmptyBaseDirectoryReported` | Components/ArcJob.cs:36-39 | an empty base directory is reported as "Configuration contains invalid values - No encounters listed in config file. " |
| `Job.Start` | Components/ArcJob.cs:21-45 | the run (INSTANCE access by the collector's constructor, collect, upload, writeOutput) yields `StartReport` of the configuration the instance holder resolves to, and keeps the holder valid; an instance already stored is kept, otherwise a new one is stored exactly when the access succeeds, and the stored instance holds the configuration the run used |

## Left out

- `LogUploader.upload` (Components/LogUploader.cs): the HTTP upload and the JSON response parsing are I/O. The model takes `upload` as a function parameter that returns the permalinks or an exception.
- `Job.Pipeline`: `upload` is unconstrained. The real `upload` dereferences `log.Value` for every entry (LogUploader.cs:31), so it always throws when collect gave a null log. The model also admits an `upload` that returns normally on such logs, and so admits runs that write a results file the source never writes.
- Filesystem and clock: `GetDirectories`, the `*.evtc` pattern semantics of `GetFiles`, `CreationTime` and `DateTime.Today` are inputs. The conversion from ticks to a calendar date is the parameter `dateOf`. The listing's failure stands only for what `GetDirectories` throws.
- `Collector.LogCollector.GetLatestDailyLog`: the exception `GetFiles` on an encounter directory may throw (LogCollector.cs:88) is not modelled. In the source it arises only for kept directories, after the empty-listing check; the model's `Directory.files` is a plain sequence.
- `Job.Start`: `DateTime.Today` is read once. The source reads it inside the `RemoveAll` predicate, once per listed file (LogCollector.cs:91), and three more times when writing the output, so a run that crosses midnight is not modelled.
- Reading and parsing `config.json` (SimpleJSON): the parsed document is an input. `init` reads `CONFIG_PATH` (`./config/`, a directory) rather than `CONFIG_FILE` (Config/UploaderConstants.cs:5-6). What that read gives is the input `read`, success or exception. That covers SimpleJSON's handling of a missing `encounters` array and of non-string array elements.
- The console lines that `collect` and `upload` print as they go (LogCollector.cs:39 and :64-74, LogUploader.cs:23, :29 and :38): they only echo values. `Report.console` holds only the lines that `start` and `writeOutput` print.
- `Directory.CreateDirectory` and `StreamWriter`: the results file is returned as its path and lines. Exceptions while writing it are not modelled.
- `Collector.LatestDailyLog`: does not say which of several files with the same newest creation time is returned, because `List.Sort` is unstable. `SortNewestFirst` is one particular sort with that contract.
- `Collector.DuplicateKeyMessage`: the text of `Dictionary.Add`'s ArgumentException depends on the .NET version. Names in one directory listing are unique anyway.
- The static `LogCollector.config` field is an instance field set by the constructor: within one run there is only one collector.
- `Config/UploaderConstants.cs`: constants only. The model uses its strings where the core uses them (`./config/`, the property names). The log4net XML, the browser and output-directory keys, and the unused `same_day_only` and `polling_enabled` keys have no behaviour here.
- `Application.cs`: a one-line entry point that calls `start`.
