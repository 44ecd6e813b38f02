/** Log collection (Components/LogCollector.cs): for every allow-listed
    encounter directory, the newest log file created today. */
module Collector {
  import opened Common
  import opened Config

  /** The file pattern collected from each encounter directory. */
  const LogPattern := "*.evtc"

  const NoEncountersListedMessage := "No encounters listed in config file. "
  /** The message of the ArgumentException that Dictionary.Add throws for a key already present. */
  const DuplicateKeyMessage := "An item with the same key has already been added."

  function NoDailyRunsMessage(baseDirectory: string): string {
    "No daily runs found in " + baseDirectory + "."
  }

  /** A log file: its name and its CreationTime in ticks. */
  datatype LogFile = LogFile(name: string, creationTime: int)

  /** An encounter sub-directory: its Name and the files GetFiles(LogPattern)
      lists in it, in listing order. */
  datatype Directory = Directory(name: string, files: seq<LogFile>)

  /** The logs the collector hands on: encounter name to its daily log, if any. */
  type Logs = seq<Entry<Option<LogFile>>>

  /** CreationTime.Date == day, with dateOf giving the calendar date of a time. */
  predicate CreatedOn(f: LogFile, day: Date, dateOf: int -> Date) {
    dateOf(f.creationTime) == day
  }

  /** What files.RemoveAll(log => log.CreationTime.Date != DateTime.Today) leaves. */
  function CreatedToday(files: seq<LogFile>, today: Date, dateOf: int -> Date): (r: seq<LogFile>)
    ensures forall f :: f in r <==> f in files && CreatedOn(f, today, dateOf)
    decreases |files|
  {
    if files == [] then []
    else
      var rest := CreatedToday(files[1..], today, dateOf);
      assert forall f :: f in files <==> f == files[0] || f in files[1..];
      if CreatedOn(files[0], today, dateOf) then [files[0]] + rest else rest
  }

  /** Ordered by creation time, newest first. */
  predicate NewestFirst(s: seq<LogFile>) {
    forall i, j :: 0 <= i < j < |s| ==> s[i].creationTime >= s[j].creationTime
  }

  /** s with f inserted before the first element not newer than f. */
  function InsertByCreation(f: LogFile, s: seq<LogFile>): (r: seq<LogFile>)
    ensures multiset(r) == multiset(s) + multiset{f}
    ensures |r| == |s| + 1
    ensures r[0] == f || (s != [] && r[0] == s[0])
    decreases |s|
  {
    if s == [] || f.creationTime >= s[0].creationTime then [f] + s
    else
      assert s == [s[0]] + s[1..];
      [s[0]] + InsertByCreation(f, s[1..])
  }

  /** Inserting into a newest-first sequence keeps it newest first. */
  lemma {:induction false} InsertKeepsNewestFirst(f: LogFile, s: seq<LogFile>)
    requires NewestFirst(s)
    ensures NewestFirst(InsertByCreation(f, s))
    decreases |s|
  {
    if s != [] && f.creationTime < s[0].creationTime {
      InsertKeepsNewestFirst(f, s[1..]);
      var rest := InsertByCreation(f, s[1..]);
      assert rest[0].creationTime <= s[0].creationTime;
      var r := [s[0]] + rest;
      forall i, j | 0 <= i < j < |r|
        ensures r[i].creationTime >= r[j].creationTime
      {
        if i == 0 && j > 1 {
          assert rest[0].creationTime >= rest[j - 1].creationTime;
        }
      }
    }
  }

  /** What files.Sort((x, y) => y.CreationTime.CompareTo(x.CreationTime))
      leaves: the same files, newest first. List.Sort is unstable, so the
      order among equal creation times is the library's; this one is an
      insertion sort, and nothing below depends on how ties are broken. */
  function SortNewestFirst(s: seq<LogFile>): (r: seq<LogFile>)
    ensures NewestFirst(r) && multiset(r) == multiset(s)
    decreases |s|
  {
    if s == [] then []
    else
      var sorted := SortNewestFirst(s[1..]);
      InsertKeepsNewestFirst(s[0], sorted);
      assert s == [s[0]] + s[1..];
      InsertByCreation(s[0], sorted)
  }

  /** getLatestDailyLog as a value: no log when no file was created today,
      and otherwise a file of the listing created today whose creation time
      no other file created today exceeds. */
  function LatestDailyLog(files: seq<LogFile>, today: Date, dateOf: int -> Date): (r: Option<LogFile>)
    ensures r.None? <==> forall f :: f in files ==> !CreatedOn(f, today, dateOf)
    ensures r.Some? ==> r.value in files && CreatedOn(r.value, today, dateOf)
    ensures r.Some? ==> forall f :: f in files && CreatedOn(f, today, dateOf) ==>
                          f.creationTime <= r.value.creationTime
  {
    if |files| == 0 then None
    else
      var todays := CreatedToday(files, today, dateOf);
      if |todays| == 0 then None
      else
        var sorted := SortNewestFirst(todays);
        assert |multiset(sorted)| == |multiset(todays)|;
        assert sorted[0] in multiset(sorted);
        assert sorted[0] in todays;
        assert forall f :: f in todays ==> f.creationTime <= sorted[0].creationTime by {
          forall f | f in todays
            ensures f.creationTime <= sorted[0].creationTime
          {
            assert f in multiset(sorted);
            var j :| 0 <= j < |sorted| && sorted[j] == f;
          }
        }
        Some(sorted[0])
  }

  /** No two directories share a name. */
  predicate UniqueNames(dirs: seq<Directory>) {
    forall i, j :: 0 <= i < j < |dirs| ==> dirs[i].name != dirs[j].name
  }

  /** What encounters.RemoveAll(encounter => !config.encounters.Contains(encounter.Name))
      leaves: the allow-listed directories, in listing order. */
  function AllowListed(dirs: seq<Directory>, allow: seq<string>): (r: seq<Directory>)
    ensures forall d :: d in r <==> d in dirs && d.name in allow
    ensures UniqueNames(dirs) ==> UniqueNames(r)
    decreases |dirs|
  {
    if dirs == [] then []
    else
      var rest := AllowListed(dirs[1..], allow);
      assert forall d :: d in dirs <==> d == dirs[0] || d in dirs[1..];
      if dirs[0].name in allow then
        assert UniqueNames(dirs) ==> forall k :: 0 <= k < |rest| ==> dirs[0].name != rest[k].name by {
          if UniqueNames(dirs) {
            forall k | 0 <= k < |rest|
              ensures dirs[0].name != rest[k].name
            {
              var j :| 0 <= j < |dirs[1..]| && dirs[1..][j] == rest[k];
              assert dirs[j + 1] == rest[k];
            }
          }
        }
        [dirs[0]] + rest
      else rest
  }

  /** The dictionary built from the kept directories, one entry each, in order. */
  function LogEntries(kept: seq<Directory>, today: Date, dateOf: int -> Date): (r: Logs)
    ensures |r| == |kept|
    ensures forall i :: 0 <= i < |kept| ==>
              r[i] == Entry(kept[i].name, LatestDailyLog(kept[i].files, today, dateOf))
  {
    seq(|kept|, i requires 0 <= i < |kept| => Entry(kept[i].name, LatestDailyLog(kept[i].files, today, dateOf)))
  }

  /** collect as a value, given the configuration and what GetDirectories
      gave for the base directory. */
  function CollectLogs(settings: Settings, listing: Result<seq<Directory>>, today: Date, dateOf: int -> Date): (r: Result<Logs>)
    ensures listing.Failure? ==> r == Failure(listing.error)
    // an empty base directory fails before the allow-list is consulted
    ensures listing == Success([]) ==> r == Failure(Exception(InvalidData, NoEncountersListedMessage))
    ensures r.Success? ==> listing.Success? && |r.value| > 0
    ensures listing.Success? && r.Failure? && r.error.kind == FileLoad ==>
              r.error.message == NoDailyRunsMessage(settings.baseDirectory)
  {
    if listing.Failure? then Failure(listing.error)
    else if |listing.value| == 0 then Failure(Exception(InvalidData, NoEncountersListedMessage))
    else
      var kept := AllowListed(listing.value, settings.encounters);
      if !UniqueNames(kept) then Failure(Exception(Argument, DuplicateKeyMessage))
      else if |kept| == 0 then Failure(Exception(FileLoad, NoDailyRunsMessage(settings.baseDirectory)))
      else Success(LogEntries(kept, today, dateOf))
  }

  /** On success the keys are exactly the allow-listed directory names present. */
  lemma CollectKeysAreAllowListedNames(settings: Settings, listing: Result<seq<Directory>>, today: Date, dateOf: int -> Date)
    requires CollectLogs(settings, listing, today, dateOf).Success?
    ensures listing.Success?
    ensures forall k :: k in Keys(CollectLogs(settings, listing, today, dateOf).value) <==>
              k in settings.encounters && exists d :: d in listing.value && d.name == k
  {
    var dirs := listing.value;
    var kept := AllowListed(dirs, settings.encounters);
    var r := LogEntries(kept, today, dateOf);
    forall k
      ensures k in Keys(r) <==> k in settings.encounters && exists d :: d in dirs && d.name == k
    {
      if k in Keys(r) {
        var i :| 0 <= i < |r| && r[i].key == k;
        assert kept[i] in kept;
      }
      if k in settings.encounters && exists d :: d in dirs && d.name == k {
        var d :| d in dirs && d.name == k;
        assert d in kept;
        var i :| 0 <= i < |kept| && kept[i] == d;
        assert r[i].key == k;
      }
    }
  }

  /** On success each value is the daily log of the one directory of that
      name: no log, or a file of that directory created today that is the
      newest of those. */
  lemma CollectValuesAreDailyLogs(settings: Settings, listing: Result<seq<Directory>>, today: Date, dateOf: int -> Date,
                                  i: nat, d: Directory)
    requires CollectLogs(settings, listing, today, dateOf).Success?
    requires listing.Success? && d in listing.value
    requires i < |CollectLogs(settings, listing, today, dateOf).value|
    requires CollectLogs(settings, listing, today, dateOf).value[i].key == d.name
    ensures CollectLogs(settings, listing, today, dateOf).value[i].value == LatestDailyLog(d.files, today, dateOf)
    ensures CollectLogs(settings, listing, today, dateOf).value[i].value.Some? ==>
              CollectLogs(settings, listing, today, dateOf).value[i].value.value in d.files
  {
    var kept := AllowListed(listing.value, settings.encounters);
    assert kept[i] in kept;
    assert d.name in settings.encounters;
    assert d in kept;
    var j :| 0 <= j < |kept| && kept[j] == d;
  }

  /** For a non-empty base directory, collect throws a FileLoadException
      exactly when no sub-directory is allow-listed. */
  lemma CollectFileLoadExactlyWhenNoneAllowListed(settings: Settings, dirs: seq<Directory>, today: Date, dateOf: int -> Date)
    requires |dirs| > 0
    ensures var r := CollectLogs(settings, Success(dirs), today, dateOf);
            r.Failure? && r.error.kind == FileLoad <==> forall d :: d in dirs ==> d.name !in settings.encounters
  {
    var kept := AllowListed(dirs, settings.encounters);
    assert |kept| > 0 ==> kept[0] in kept;
    if exists d :: d in dirs && d.name in settings.encounters {
      var d :| d in dirs && d.name in settings.encounters;
      assert d in kept;
      assert |kept| > 0;
    }
  }

  /** The emptiness test after the loop is over directories, not over their
      logs: allow-listed directories without a log of today still make
      collect succeed, with no log for each of them. */
  lemma CollectSucceedsWithoutDailyLogs(settings: Settings, dirs: seq<Directory>, today: Date, dateOf: int -> Date)
    requires UniqueNames(dirs)
    requires exists d :: d in dirs && d.name in settings.encounters
    requires forall d, f :: d in dirs && f in d.files ==> !CreatedOn(f, today, dateOf)
    ensures CollectLogs(settings, Success(dirs), today, dateOf).Success?
    ensures forall e :: e in CollectLogs(settings, Success(dirs), today, dateOf).value ==> e.value == None
  {
    var kept := AllowListed(dirs, settings.encounters);
    var d :| d in dirs && d.name in settings.encounters;
    assert d in kept;
    var r := LogEntries(kept, today, dateOf);
    forall e | e in r
      ensures e.value == None
    {
      var i :| 0 <= i < |r| && r[i] == e;
      assert kept[i] in kept;
    }
  }

  /** The loop of collect finds a key it already added only when two kept
      directories share a name. */
  lemma DuplicateKeyFound(kept: seq<Directory>, i: nat, today: Date, dateOf: int -> Date)
    requires i < |kept|
    requires kept[i].name in Keys(LogEntries(kept[..i], today, dateOf))
    ensures !UniqueNames(kept)
  {
    var entries := LogEntries(kept[..i], today, dateOf);
    var j :| 0 <= j < |entries| && entries[j].key == kept[i].name;
    assert kept[j].name == kept[i].name;
  }

  /** One more round of the loop of collect: one more entry, and the names
      so far stay unique when the new one is not yet a key. */
  lemma EntryAdded(kept: seq<Directory>, i: nat, today: Date, dateOf: int -> Date)
    requires i < |kept|
    requires UniqueNames(kept[..i])
    requires kept[i].name !in Keys(LogEntries(kept[..i], today, dateOf))
    ensures LogEntries(kept[..i + 1], today, dateOf)
            == LogEntries(kept[..i], today, dateOf) + [Entry(kept[i].name, LatestDailyLog(kept[i].files, today, dateOf))]
    ensures UniqueNames(kept[..i + 1])
  {
    var entries := LogEntries(kept[..i], today, dateOf);
    forall j | 0 <= j < i
      ensures kept[j].name != kept[i].name
    {
      assert entries[j].key == kept[j].name;
    }
  }

  /** A LogCollector object. The source keeps the configuration in a static
      field that the constructor sets from UploaderConfig.INSTANCE. */
  class LogCollector {
    var config: UploaderConfig

    constructor (config: UploaderConfig)
      ensures this.config == config
    {
      this.config := config;
    }

    /** getLatestDailyLog: the listed files minus those not created today,
        sorted newest first, and the first of them if any remain. */
    method GetLatestDailyLog(directory: Directory, today: Date, dateOf: int -> Date) returns (latestFile: Option<LogFile>)
      ensures latestFile == LatestDailyLog(directory.files, today, dateOf)
      ensures latestFile == None <==> forall f :: f in directory.files ==> !CreatedOn(f, today, dateOf)
    {
      latestFile := None;
      var files := directory.files;
      if |files| > 0 {
        files := CreatedToday(files, today, dateOf);
        if |files| > 0 {
          files := SortNewestFirst(files);
          latestFile := Some(files[0]);
        }
      }
    }

    /** collect: listing is what GetDirectories gave for the configured base
        directory. Returns the dictionary or the exception collect throws. */
    method Collect(listing: Result<seq<Directory>>, today: Date, dateOf: int -> Date) returns (r: Result<Logs>)
      requires config.Initialised()
      ensures r == CollectLogs(config.AsSettings(), listing, today, dateOf)
    {
      if listing.Failure? {
        return Failure(listing.error);
      }
      ghost var settings := config.AsSettings();
      var encounters := listing.value;
      if |encounters| > 0 {
        encounters := AllowListed(encounters, config.encounters);
      } else {
        return Failure(Exception(InvalidData, NoEncountersListedMessage));
      }

      var logFiles: Logs := [];
      for i := 0 to |encounters|
        invariant logFiles == LogEntries(encounters[..i], today, dateOf)
        invariant UniqueNames(encounters[..i])
      {
        var encounter := encounters[i];
        var latest := GetLatestDailyLog(encounter, today, dateOf);
        if encounter.name in Keys(logFiles) {
          // Dictionary.Add throws for a key it already holds
          DuplicateKeyFound(encounters, i, today, dateOf);
          assert CollectLogs(settings, listing, today, dateOf) == Failure(Exception(Argument, DuplicateKeyMessage));
          return Failure(Exception(Argument, DuplicateKeyMessage));
        }
        EntryAdded(encounters, i, today, dateOf);
        logFiles := logFiles + [Entry(encounter.name, latest)];
      }
      assert encounters[..|encounters|] == encounters;

      // encounters.All(encounter => encounter == null): no DirectoryInfo is
      // null, so this holds exactly when no directory was kept
      if |encounters| == 0 {
        return Failure(Exception(FileLoad, NoDailyRunsMessage(config.baseDirectory.value)));
      }
      r := Success(logFiles);
    }
  }
}
