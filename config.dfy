/** The run-time configuration (Config/UploaderConfig.cs): validation of the
    parsed config.json and the lazily created process-wide instance. */
module Config {
  import opened Common

  /** Where the configuration is read from (Config/UploaderConstants.cs). */
  const ConfigPath := "./config/"
  const BaseDirectoryProperty := "logs_directory"
  const EncountersProperty := "encounters"

  const MissingBaseDirectoryMessage := "Base directory for ArcDPS logs was not provided."
  const NoEncountersMessage := "No encounters provided in the configuration file. log collection terminated."

  /** What the parsed config.json offers: the string under "logs_directory"
      (absent when the property is missing or null) and the string values of
      the "encounters" array, in array order. */
  datatype ConfigJson = ConfigJson(logsDirectory: Option<string>, encounters: seq<string>)

  /** A successfully initialised configuration, as a value. */
  datatype Settings = Settings(baseDirectory: string, encounters: seq<string>)

  /** String.IsNullOrEmpty. */
  predicate IsNullOrEmpty(s: Option<string>) {
    s.None? || s.value == []
  }

  /** The exception init throws for this configuration, if any. */
  function InitError(json: ConfigJson): (e: Option<Exception>)
    ensures e.None? <==> !IsNullOrEmpty(json.logsDirectory) && |json.encounters| > 0
    ensures e.Some? ==> e.value.kind == InvalidData
    // the base directory is checked first, so it wins when both are invalid
    ensures IsNullOrEmpty(json.logsDirectory) ==> e == Some(Exception(InvalidData, MissingBaseDirectoryMessage))
    ensures !IsNullOrEmpty(json.logsDirectory) && |json.encounters| == 0 ==>
              e == Some(Exception(InvalidData, NoEncountersMessage))
  {
    if IsNullOrEmpty(json.logsDirectory) then Some(Exception(InvalidData, MissingBaseDirectoryMessage))
    else if |json.encounters| == 0 then Some(Exception(InvalidData, NoEncountersMessage))
    else None
  }

  /** What constructing the configuration gives, from what reading and
      parsing the file gave: the read's own exception, the validation's
      exception, or the settings. */
  function Load(read: Result<ConfigJson>): (r: Result<Settings>)
    ensures read.Failure? ==> r == Failure(read.error)
    ensures read.Success? && InitError(read.value).Some? ==> r == Failure(InitError(read.value).value)
    ensures r.Success? ==> read.Success? && InitError(read.value).None?
    ensures r.Success? ==> read.value.logsDirectory == Some(r.value.baseDirectory) && r.value.baseDirectory != []
    ensures r.Success? ==> r.value.encounters == read.value.encounters && |r.value.encounters| > 0
  {
    match read
    case Failure(e) => Failure(e)
    case Success(json) =>
      match InitError(json)
      case Some(e) => Failure(e)
      case None => Success(Settings(json.logsDirectory.value, json.encounters))
  }

  /** An UploaderConfig object. */
  class UploaderConfig {
    /** The allow-list of encounter (sub-directory) names. */
    var encounters: seq<string>
    /** The ArcDPS log directory; absent until init sets it. */
    var baseDirectory: Option<string>

    /** The state init leaves behind when it returns normally. */
    predicate Initialised()
      reads this
    {
      !IsNullOrEmpty(baseDirectory) && |encounters| > 0
    }

    function AsSettings(): (s: Settings)
      reads this
      requires Initialised()
      ensures s.baseDirectory != [] && |s.encounters| > 0
    {
      Settings(baseDirectory.value, encounters)
    }

    /** The private constructor's allocation; init is the separate step below. */
    constructor ()
      ensures encounters == [] && baseDirectory == None
    {
      encounters := [];
      baseDirectory := None;
    }

    /** init: reads and parses the configuration file (read is what that
        gives: its exception or the parsed values), sets the base directory,
        rejects a null or empty one and an empty encounter array, then
        copies the encounter names in order. Returns the exception it
        throws, or None. */
    method Init(read: Result<ConfigJson>) returns (thrown: Option<Exception>)
      modifies this
      ensures read.Failure? ==> thrown == Some(read.error) && unchanged(this)
      ensures read.Success? ==> thrown == InitError(read.value) && baseDirectory == read.value.logsDirectory
      ensures thrown.None? <==> Load(read).Success?
      ensures thrown.None? ==> Initialised() && AsSettings() == Load(read).value
      ensures thrown.Some? ==> encounters == old(encounters)
    {
      if read.Failure? {
        return Some(read.error);
      }
      var json := read.value;
      baseDirectory := json.logsDirectory;
      if IsNullOrEmpty(baseDirectory) {
        return Some(Exception(InvalidData, MissingBaseDirectoryMessage));
      }
      if |json.encounters| == 0 {
        return Some(Exception(InvalidData, NoEncountersMessage));
      }
      encounters := [];
      for i := 0 to |json.encounters|
        invariant encounters == json.encounters[..i]
        invariant baseDirectory == json.logsDirectory
      {
        encounters := encounters + [json.encounters[i]];
      }
      assert json.encounters[..|json.encounters|] == json.encounters;
      thrown := None;
    }
  }

  /** The static state of UploaderConfig: the singleton holder _instance. */
  class ConfigInstance {
    var instance: UploaderConfig?

    /** Only an object whose init returned normally is ever stored. */
    predicate Valid()
      reads this, instance
    {
      instance != null ==> instance.Initialised()
    }

    /** The configuration the next access of INSTANCE yields: whatever it
        yields has been validated, and once an instance is stored no access
        fails, whatever the file would now give. */
    function Resolve(read: Result<ConfigJson>): (r: Result<Settings>)
      reads this, instance
      requires Valid()
      ensures r.Success? ==> r.value.baseDirectory != [] && |r.value.encounters| > 0
      ensures instance != null ==> r.Success?
      ensures instance == null ==> (r.Success? <==> read.Success? && InitError(read.value).None?)
      ensures instance == null && r.Success? ==> r.value.encounters == read.value.encounters
    {
      if instance != null then Success(instance.AsSettings()) else Load(read)
    }

    constructor ()
      ensures instance == null && Valid()
    {
      instance := null;
    }

    /** The INSTANCE getter. An existing instance is returned as it is and
        init is not run again; otherwise a new object is constructed, and it
        is stored only when its construction succeeds, so a failed access
        is retried by the next one. read is what reading and parsing the
        configuration file gives on this access. */
    method Instance(read: Result<ConfigJson>) returns (r: Result<UploaderConfig>)
      requires Valid()
      modifies this
      ensures Valid()
      ensures old(instance) != null ==> r == Success(old(instance)) && instance == old(instance)
      ensures old(instance) != null ==> unchanged(old(instance))
      ensures old(instance) == null && r.Failure? ==> instance == null
      ensures old(instance) == null && r.Success? ==> instance == r.value && fresh(r.value)
      ensures r.Success? ==> r.value.Initialised() && old(Resolve(read)) == Success(r.value.AsSettings())
      ensures r.Failure? ==> old(Resolve(read)) == Failure(r.error)
    {
      if instance == null {
        var created := new UploaderConfig();
        var thrown := created.Init(read);
        if thrown.Some? {
          return Failure(thrown.value);
        }
        instance := created;
      }
      r := Success(instance);
    }
  }

  /** Two accesses in a row: once the first succeeds, the second yields the
      same object whatever the file would now give; after a failed first
      access the second constructs afresh from its own read. */
  method AccessTwice(statics: ConfigInstance, first: Result<ConfigJson>, second: Result<ConfigJson>)
    returns (a: Result<UploaderConfig>, b: Result<UploaderConfig>)
    requires statics.Valid() && statics.instance == null
    modifies statics
    ensures statics.Valid()
    ensures a.Success? ==> b == a && statics.instance == a.value
    ensures a.Failure? ==> Load(first) == Failure(a.error)
    ensures a.Failure? && b.Success? ==>
              statics.instance == b.value && Load(second) == Success(b.value.AsSettings())
    ensures a.Failure? && b.Failure? ==> Load(second) == Failure(b.error) && statics.instance == null
  {
    a := statics.Instance(first);
    b := statics.Instance(second);
  }
}
