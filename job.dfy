/** The collection job (Components/ArcJob.cs): collect, upload, write the
    results file, and report whatever was thrown as one console line. */
module Job {
  import opened Common
  import opened Text
  import opened Config
  import opened Collector

  const LogExtension := ".log"
  const ResultsDirectory := "results"
  /** What separates the encounter name from its link on a results line. */
  const Separator := " - "
  const InvalidValuesPrefix := "Configuration contains invalid values - "
  const ConfigNotFoundMessage := "Configuration file could not be found. Ensure a " + ConfigPath + " file is present."

  /** The uploader's answer: encounter name to permalink (null when the
      response had none), in the order of the logs. */
  type Results = seq<Entry<Option<string>>>

  /** "{Day}-{Month}-{Year}" of the date. */
  function OutputFileName(today: Date): string {
    NatToString(today.day) + "-" + NatToString(today.month) + "-" + NatToString(today.year)
  }

  /** "results/{fileName}.log". */
  function OutputPath(today: Date): string {
    ResultsDirectory + "/" + OutputFileName(today) + LogExtension
  }

  /** The date a results file name stands for, if it is one. */
  function ParseOutputFileName(name: string): Option<Date> {
    var parts := SplitOn(name, '-');
    if |parts| == 3 && IsNumeral(parts[0]) && IsNumeral(parts[1]) && IsNumeral(parts[2]) then
      Some(Date(NumeralValue(parts[2]), NumeralValue(parts[1]), NumeralValue(parts[0])))
    else None
  }

  /** The date a results path stands for, if it is one. */
  function ParseOutputPath(path: string): Option<Date> {
    var prefix := ResultsDirectory + "/";
    if |path| >= |prefix| + |LogExtension| && path[..|prefix|] == prefix
       && path[|path| - |LogExtension|..] == LogExtension
    then ParseOutputFileName(path[|prefix|..|path| - |LogExtension|])
    else None
  }

  /** The results path names the day it was written on, unambiguously:
      reading the path back gives the date. */
  lemma OutputPathRoundTrip(today: Date)
    ensures ParseOutputPath(OutputPath(today)) == Some(today)
  {
    var d, m, y := NatToString(today.day), NatToString(today.month), NatToString(today.year);
    var name := OutputFileName(today);
    var path := OutputPath(today);
    assert path[..8] == "results/";
    assert path[|path| - 4..] == ".log";
    assert path[8..|path| - 4] == name;
    NumeralExcludes(d, '-');
    NumeralExcludes(m, '-');
    NumeralExcludes(y, '-');
    assert name == d + ['-'] + (m + ['-'] + y);
    SplitOnJoin(d, '-', m + ['-'] + y);
    SplitOnJoin(m, '-', y);
    SplitOnWithoutSeparator(y, '-');
    NatToStringRoundTrip(today.day);
    NatToStringRoundTrip(today.month);
    NatToStringRoundTrip(today.year);
  }

  /** The numbers are not padded. */
  lemma OutputPathExample()
    ensures OutputPath(Date(2020, 3, 7)) == "results/7-3-2020.log"
  {
  }

  /** What "{value}" interpolates: a null string prints as nothing. */
  function ValueText(value: Option<string>): string {
    if value.Some? then value.value else ""
  }

  /** "{result.Key} - {result.Value}". */
  function ResultLine(key: string, value: Option<string>): string {
    key + Separator + ValueText(value)
  }

  /** The start of the last separator that ends at or before end. */
  function LastSeparatorAt(line: string, end: nat): (r: Option<nat>)
    requires end <= |line|
    ensures r.Some? ==> r.value + |Separator| <= end && line[r.value..r.value + |Separator|] == Separator
    decreases end
  {
    if end < |Separator| then None
    else if line[end - |Separator|..end] == Separator then Some(end - |Separator|)
    else LastSeparatorAt(line, end - 1)
  }

  /** A results line read back: the text before its last separator and the text after it. */
  function SplitResultLine(line: string): Option<(string, string)> {
    match LastSeparatorAt(line, |line|)
    case None => None
    case Some(i) => Some((line[..i], line[i + |Separator|..]))
  }

  lemma {:induction false} LastSeparatorBeforeValue(key: string, text: string, end: nat)
    requires ' ' !in text
    requires |key| + |Separator| <= end <= |key + Separator + text|
    ensures LastSeparatorAt(key + Separator + text, end) == Some(|key|)
    decreases end
  {
    var line := key + Separator + text;
    if end > |key| + |Separator| {
      assert line[end - 1] == text[end - 1 - |key| - |Separator|];
      assert line[end - |Separator|..end][2] == line[end - 1];
      LastSeparatorBeforeValue(key, text, end - 1);
    } else {
      assert line[end - |Separator|..end] == Separator;
    }
  }

  /** A line names its encounter and its link: for a link without spaces
      (a URL has none), splitting at the last separator gives both back. */
  lemma ResultLineRoundTrip(key: string, value: Option<string>)
    requires ' ' !in ValueText(value)
    ensures SplitResultLine(ResultLine(key, value)) == Some((key, ValueText(value)))
  {
    var line := ResultLine(key, value);
    LastSeparatorBeforeValue(key, ValueText(value), |line|);
    assert line[..|key|] == key;
    assert line[|key| + |Separator|..] == ValueText(value);
  }

  /** The lines of the results, one per entry, in the dictionary's order. */
  function ResultLines(results: Results): (lines: seq<string>)
    ensures |lines| == |results|
    ensures forall i :: 0 <= i < |results| ==> lines[i] == ResultLine(results[i].key, results[i].value)
  {
    seq(|results|, i requires 0 <= i < |results| => ResultLine(results[i].key, results[i].value))
  }

  /** writeOutput: the path of the file it (re)creates, the lines it prints
      to the console and the lines it writes to that file. */
  method WriteOutput(results: Results, today: Date) returns (path: string, console: seq<string>, file: seq<string>)
    ensures path == OutputPath(today) && ParseOutputPath(path) == Some(today)
    ensures console == file
    ensures |file| == |results|
    ensures forall i :: 0 <= i < |results| ==> file[i] == ResultLine(results[i].key, results[i].value)
  {
    var fileName := OutputFileName(today);
    path := ResultsDirectory + "/" + fileName + LogExtension;
    OutputPathRoundTrip(today);
    console, file := [], [];
    for i := 0 to |results|
      invariant console == file
      invariant |file| == i
      invariant forall j :: 0 <= j < i ==> file[j] == ResultLine(results[j].key, results[j].value)
    {
      var line := ResultLine(results[i].key, results[i].value);
      console := console + [line];
      file := file + [line];
    }
  }

  /** What start prints for an exception it catches: the catch clauses are
      tried in order, FileNotFoundException, InvalidDataException, Exception. */
  function CatchMessage(e: Exception): (m: string)
    ensures e.kind == FileNotFound ==> m == ConfigNotFoundMessage
    ensures e.kind == InvalidData ==> m == InvalidValuesPrefix + e.message
    ensures e.kind != FileNotFound && e.kind != InvalidData ==> m == e.message
  {
    match e.kind
    case FileNotFound => ConfigNotFoundMessage
    case InvalidData => InvalidValuesPrefix + e.message
    case _ => e.message
  }

  /** The results file: where it is and what is in it. */
  datatype OutputFile = OutputFile(path: string, lines: seq<string>)

  /** What one run leaves behind: the lines start and writeOutput print, and
      the results file if one was written. */
  datatype Report = Report(console: seq<string>, output: Option<OutputFile>)

  /** The three stages as a value: the configuration, then collect, then
      upload. upload is the uploader: the permalinks, or what it threw. */
  function Pipeline(config: Result<Settings>, listing: Result<seq<Directory>>, today: Date, dateOf: int -> Date,
                    upload: Logs -> Result<Results>): Result<Results>
  {
    match config
    case Failure(e) => Failure(e)
    case Success(settings) =>
      match CollectLogs(settings, listing, today, dateOf)
      case Failure(e) => Failure(e)
      case Success(logs) => upload(logs)
  }

  /** start as a value: the results are written out, or the exception that
      ended the run is reported; nothing is thrown to the caller. */
  function StartReport(config: Result<Settings>, listing: Result<seq<Directory>>, today: Date, dateOf: int -> Date,
                       upload: Logs -> Result<Results>): (report: Report)
    ensures report.output.Some? <==> Pipeline(config, listing, today, dateOf, upload).Success?
    ensures report.output.None? ==>
              report.console == [CatchMessage(Pipeline(config, listing, today, dateOf, upload).error)]
  {
    match Pipeline(config, listing, today, dateOf, upload)
    case Success(results) => Report(ResultLines(results), Some(OutputFile(OutputPath(today), ResultLines(results))))
    case Failure(e) => Report([CatchMessage(e)], None)
  }

  /** The file is written only when the configuration was obtained, collect
      returned and upload returned; then the console and the file get the
      same lines, one per uploaded encounter, on the path of today's date. */
  lemma OutputOnlyAfterCollectAndUpload(config: Result<Settings>, listing: Result<seq<Directory>>, today: Date,
                                        dateOf: int -> Date, upload: Logs -> Result<Results>)
    ensures var report := StartReport(config, listing, today, dateOf, upload);
            report.output.Some? <==>
              config.Success? && CollectLogs(config.value, listing, today, dateOf).Success?
              && upload(CollectLogs(config.value, listing, today, dateOf).value).Success?
    ensures var report := StartReport(config, listing, today, dateOf, upload);
            report.output.Some? ==>
              var results := upload(CollectLogs(config.value, listing, today, dateOf).value).value;
              report.output.value.path == OutputPath(today) && report.output.value.lines == report.console
              && report.console == ResultLines(results)
  {
  }

  /** upload is not reached when the configuration or collect failed: the
      run's report is then the same whatever the uploader would do. */
  lemma UploadOnlyAfterCollect(config: Result<Settings>, listing: Result<seq<Directory>>, today: Date,
                               dateOf: int -> Date, upload: Logs -> Result<Results>, other: Logs -> Result<Results>)
    requires config.Failure? || CollectLogs(config.value, listing, today, dateOf).Failure?
    ensures StartReport(config, listing, today, dateOf, upload) == StartReport(config, listing, today, dateOf, other)
    ensures StartReport(config, listing, today, dateOf, upload).output == None
  {
  }

  /** collect's FileLoadException for a base directory without a single
      allow-listed encounter reaches the console as its message, unchanged. */
  lemma NoAllowListedEncounterReported(settings: Settings, dirs: seq<Directory>, today: Date,
                                       dateOf: int -> Date, upload: Logs -> Result<Results>)
    requires |dirs| > 0
    requires forall d :: d in dirs ==> d.name !in settings.encounters
    ensures StartReport(Success(settings), Success(dirs), today, dateOf, upload)
            == Report(["No daily runs found in " + settings.baseDirectory + "."], None)
  {
    CollectFileLoadExactlyWhenNoneAllowListed(settings, dirs, today, dateOf);
  }

  /** An empty base directory is reported as an invalid configuration value. */
  lemma EmptyBaseDirectoryReported(settings: Settings, today: Date, dateOf: int -> Date, upload: Logs -> Result<Results>)
    ensures StartReport(Success(settings), Success([]), today, dateOf, upload)
            == Report([InvalidValuesPrefix + NoEncountersListedMessage], None)
  {
  }

  /** start. The configuration is the UploaderConfig.INSTANCE that the
      LogCollector constructor reads (read is what the configuration file
      gives should the instance have to be constructed), listing is what
      GetDirectories gives for the configured base directory, and upload is
      LogUploader.upload. */
  method Start(statics: ConfigInstance, read: Result<ConfigJson>, listing: Result<seq<Directory>>, today: Date,
               dateOf: int -> Date, upload: Logs -> Result<Results>) returns (report: Report)
    requires statics.Valid()
    modifies statics
    ensures statics.Valid()
    ensures report == StartReport(old(statics.Resolve(read)), listing, today, dateOf, upload)
    // an instance already stored is kept; otherwise one is stored exactly when the access succeeded
    ensures old(statics.instance) != null ==> statics.instance == old(statics.instance)
    ensures statics.instance != null <==> old(statics.Resolve(read)).Success?
    ensures statics.instance != null ==> statics.instance.AsSettings() == old(statics.Resolve(read)).value
    ensures old(statics.instance) == null && statics.instance != null ==> fresh(statics.instance)
  {
    var config := statics.Instance(read);
    if config.Failure? {
      return Report([CatchMessage(config.error)], None);
    }
    var collector := new LogCollector(config.value);
    var logs := collector.Collect(listing, today, dateOf);
    if logs.Failure? {
      return Report([CatchMessage(logs.error)], None);
    }
    var results := upload(logs.value);
    if results.Failure? {
      return Report([CatchMessage(results.error)], None);
    }
    var path, console, file := WriteOutput(results.value, today);
    assert console == ResultLines(results.value);
    report := Report(console, Some(OutputFile(path, file)));
  }
}
