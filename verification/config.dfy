/** Loading the cleaner's configuration: boolean parsing of environment
    variables, coercion of loosely typed values, normalisation of instance
    records, the precedence between the three instance sources, and the
    check that every enabled instance has an API key. Environment, files and
    parsers are inputs; a thrown error, or the process exiting on a missing
    API key, is a `Failure`. */
module ConfigLoader {
  import opened Wrappers
  import opened Strings
  import opened Json
  import opened Types

  /** The process environment: a variable is either set to a string or absent. */
  type Env = map<string, string>

  /** A partial rule configuration: an override per rule key that was given. */
  type Overrides = map<string, bool>

  /** One download-manager instance as the configuration describes it. */
  datatype Instance = Instance(name: string, host: string, apiKey: string, enabled: bool, rules: Option<Overrides>)

  /** What an instance file yields once its path has been resolved: it is
      missing, it cannot be read or parsed (as JSON, or as YAML by extension),
      or it parses to a value. */
  datatype FileSource = FileNotFound | FileUnparsable | FileParsed(v: Value)

  datatype InstanceError = NotAnObject(index: nat) | MissingHost(index: nat)

  /** Why `SONARR_INSTANCES` was rejected (the source wraps each reason in one
      "Failed to parse SONARR_INSTANCES" error). */
  datatype EnvFailure = EnvSyntax | EnvNotArray | EnvEntry(e: InstanceError)

  datatype ConfigError =
    | InvalidInstancesEnv(reason: EnvFailure)
    | InstancesFileNotFound
    | InstancesFileUnparsable
    | InstancesFileNotArray
    | InvalidInstance(e: InstanceError)
    | MissingApiKey

  /** The loaded configuration. */
  datatype Settings = Settings(
    sonarrInstances: seq<Instance>,
    rules: RuleConfig,
    dryRun: bool,
    schedule: string,
    logLevel: string)

  const DefaultHost := "http://localhost:8989"
  const LegacyName := "Primary Sonarr"
  const DefaultSchedule := "*/5 * * * *"
  const DefaultLogLevel := "info"

  /** The rule keys, in declaration order: the only keys an override may set. */
  const RuleKeys: seq<string> := [
    "removeQualityBlocked", "blockRemovedQualityReleases",
    "removeArchiveBlocked", "blockRemovedArchiveReleases",
    "removeNoFilesReleases", "blockRemovedNoFilesReleases",
    "removeNotAnUpgrade",
    "removeSeriesIdMismatch", "blockRemovedSeriesIdMismatchReleases",
    "removeUndeterminedSample", "blockRemovedUndeterminedSampleReleases"]

  const TrueWords: seq<string> := ["true", "1", "yes", "y", "on"]
  const FalseWords: seq<string> := ["false", "0", "no", "n", "off"]

  /** A variable counts as set only when it is present and not blank. */
  predicate Provided(env: Env, key: string) {
    key in env && !IsBlank(env[key])
  }

  /** A variable is set exactly when it is present and its trimmed text is
      not empty. */
  lemma ProvidedMeansTrimmedText(env: Env, key: string)
    ensures Provided(env, key) <==> key in env && Trim(env[key]) != ""
  {
  }

  /** A boolean environment flag: on only for the exact text "true". The
      ensures repeats the body so that proofs need not unfold it. */
  function ParseBooleanEnv(env: Env, key: string): (b: bool)
    ensures b <==> key in env && env[key] == "true"
  {
    key in env && env[key] == "true"
  }

  /** The form a string is compared in: trimmed and lower-cased. */
  function Normalized(s: string): string {
    ToLower(Trim(s))
  }

  /** No word is both a yes-word and a no-word. */
  lemma WordListsDisjoint()
    ensures forall w :: w in TrueWords ==> w !in FalseWords
  {
  }

  /** Coerces a loosely typed value to a boolean. Booleans are kept; strings
      are read as yes/no words, ignoring case and surrounding whitespace, and
      otherwise by being non-empty; integers by being non-zero; anything else
      by JavaScript truthiness. */
  function CoerceBoolean(v: Value): (b: bool)
    ensures v.VBool? ==> b == v.b
    ensures v.VStr? && Normalized(v.s) in TrueWords ==> b
    ensures v.VStr? && Normalized(v.s) in FalseWords ==> !b
    ensures v.VStr? && Normalized(v.s) !in TrueWords && Normalized(v.s) !in FalseWords ==> (b <==> v.s != "")
    ensures v.VInt? ==> (b <==> v.i != 0)
    ensures v.VNull? || v.VUndef? ==> !b
    ensures v.VObj? || v.VArr? ==> b
  {
    match v
    case VBool(x) => x
    case VStr(s) =>
      var normalized := Normalized(s);
      WordListsDisjoint();
      if normalized in TrueWords then true
      else if normalized in FalseWords then false
      else Truthy(v)
    case VInt(i) => i != 0
    case _ => Truthy(v)
  }

  /** The loop over the rule keys: each key the value defines is kept,
      coerced to a boolean. */
  function CollectOverrides(v: Value, keys: seq<string>): (m: Overrides)
    ensures forall k :: k in m <==> k in keys && !Prop(v, k).VUndef?
    ensures forall k :: k in m ==> m[k] == CoerceBoolean(Prop(v, k))
  {
    if keys == [] then map[]
    else
      var m := CollectOverrides(v, keys[..|keys| - 1]);
      var key := keys[|keys| - 1];
      assert keys == keys[..|keys| - 1] + [key];
      var value := Prop(v, key);
      if !value.VUndef? then m[key := CoerceBoolean(value)] else m
  }

  /** Per-instance rule overrides: only known rule keys that are present
      survive, each coerced; a non-object, or an object with no such key,
      yields no overrides at all. */
  function NormalizeRuleOverrides(v: Value): (r: Option<Overrides>)
    ensures r.Some? <==> v.VObj? && exists k :: k in RuleKeys && !Prop(v, k).VUndef?
    ensures r.Some? ==> r.value != map[]
    ensures r.Some? ==> forall k :: k in r.value <==> k in RuleKeys && !Prop(v, k).VUndef?
    ensures r.Some? ==> forall k :: k in r.value ==> r.value[k] == CoerceBoolean(Prop(v, k))
  {
    if !IsObject(v) then None
    else
      var result := CollectOverrides(v, RuleKeys);
      if result != map[] then Some(result)
      else
        assert forall k :: k in RuleKeys ==> Prop(v, k).VUndef? by {
          forall k | k in RuleKeys
            ensures Prop(v, k).VUndef?
          {
            assert k !in result;
          }
        }
        None
  }

  /** The name an unnamed instance gets: "Sonarr " and its 1-based position. */
  function DefaultName(index: nat): (name: string)
    ensures |name| > |DefaultPrefix| && name[..|DefaultPrefix|] == DefaultPrefix
    ensures var digits := name[|DefaultPrefix|..]; AllDigits(digits) && DigitsValue(digits) == index + 1 && digits[0] != '0'
  {
    var digits := NatToString(index + 1);
    var name := DefaultPrefix + digits;
    assert name[|DefaultPrefix|..] == digits;
    name
  }

  const DefaultPrefix := "Sonarr "

  /** An instance record as normalisation produces it: host, name and API
      key trimmed, host and name not blank, overrides limited to known keys
      and never empty. */
  predicate WellFormed(inst: Instance) {
    && inst.host == Trim(inst.host) && inst.host != ""
    && inst.name == Trim(inst.name) && inst.name != ""
    && inst.apiKey == Trim(inst.apiKey)
    && (inst.rules.Some? ==> inst.rules.value != map[] && forall k :: k in inst.rules.value ==> k in RuleKeys)
  }

  lemma DefaultNameWellFormed(index: nat)
    ensures Trim(DefaultName(index)) == DefaultName(index) && DefaultName(index) != ""
  {
    var s := DefaultName(index);
    var digits := s[|DefaultPrefix|..];
    assert s[0] == DefaultPrefix[0];
    assert s[|s| - 1] == digits[|digits| - 1];
    TrimTrimmed(s);
  }

  /** The trimmed host of a record, when it is a string that is not blank. */
  function HostOf(v: Value): (host: Option<string>)
    ensures host.Some? <==> Prop(v, "host").VStr? && !IsBlank(Prop(v, "host").s)
    ensures host.Some? ==> host.value == Trim(Prop(v, "host").s) && host.value != "" && Trim(host.value) == host.value
  {
    var raw := Prop(v, "host");
    if raw.VStr? && Trim(raw.s) != "" then
      TrimIdempotent(raw.s);
      Some(Trim(raw.s))
    else None
  }

  /** A missing `enabled` means enabled; any other value is coerced. The
      ensures repeats the body so that proofs need not unfold it. */
  function EnabledOf(v: Value): (enabled: bool)
    ensures Prop(v, "enabled").VUndef? ==> enabled
    ensures !Prop(v, "enabled").VUndef? ==> enabled == CoerceBoolean(Prop(v, "enabled"))
  {
    var raw := Prop(v, "enabled");
    if raw.VUndef? then true else CoerceBoolean(raw)
  }

  /** The trimmed API key, or the empty string when it is not a string. */
  function ApiKeyOf(v: Value): (key: string)
    ensures key == if Prop(v, "apiKey").VStr? then Trim(Prop(v, "apiKey").s) else ""
    ensures Trim(key) == key
  {
    var raw := Prop(v, "apiKey");
    if raw.VStr? then
      TrimIdempotent(raw.s);
      Trim(raw.s)
    else ""
  }

  /** The trimmed name when it is a non-blank string, else the positional default. */
  function NameOf(v: Value, index: nat): (name: string)
    ensures Prop(v, "name").VStr? && !IsBlank(Prop(v, "name").s) ==> name == Trim(Prop(v, "name").s)
    ensures !(Prop(v, "name").VStr? && !IsBlank(Prop(v, "name").s)) ==> name == DefaultName(index)
    ensures name != "" && Trim(name) == name
  {
    var raw := Prop(v, "name");
    if raw.VStr? && Trim(raw.s) != "" then
      TrimIdempotent(raw.s);
      Trim(raw.s)
    else
      DefaultNameWellFormed(index);
      DefaultName(index)
  }

  /** Normalises the instance record at position `index`. It fails when the
      value is not an object or has no non-blank string host; otherwise host,
      API key and name are trimmed, a missing `enabled` means enabled, a
      missing or blank name becomes the positional default, and `rules` is
      kept only when it yields overrides. */
  function NormalizeInstance(v: Value, index: nat): (r: Result<Instance, InstanceError>)
    ensures !IsObject(v) ==> r == Failure(NotAnObject(index))
    ensures IsObject(v) && HostOf(v).None? ==> r == Failure(MissingHost(index))
    ensures r.Success? <==> IsObject(v) && HostOf(v).Some?
    ensures r.Success? ==> WellFormed(r.value)
    ensures r.Success? ==> r.value == Instance(NameOf(v, index), HostOf(v).value, ApiKeyOf(v), EnabledOf(v),
                                              NormalizeRuleOverrides(Prop(v, "rules")))
  {
    if !IsObject(v) then Failure(NotAnObject(index))
    else
      match HostOf(v)
      case None => Failure(MissingHost(index))
      case Some(host) =>
        Success(Instance(NameOf(v, index), host, ApiKeyOf(v), EnabledOf(v), NormalizeRuleOverrides(Prop(v, "rules"))))
  }

  predicate AllWellFormed(instances: seq<Instance>) {
    forall k :: 0 <= k < |instances| ==> WellFormed(instances[k])
  }

  /** Maps every entry together with its position, where the mapping may
      fail: the first entry whose mapping fails decides the error; otherwise
      every entry is mapped with its own position. `base` is the position of
      `items[0]`. */
  function MapIndexed<A, B, E>(f: (A, nat) -> Result<B, E>, items: seq<A>, base: nat): (r: Result<seq<B>, E>)
    ensures r.Success? <==> forall j :: 0 <= j < |items| ==> f(items[j], base + j).Success?
    ensures r.Success? ==> |r.value| == |items|
    ensures r.Success? ==> forall j :: 0 <= j < |items| ==> r.value[j] == f(items[j], base + j).value
    ensures r.Failure? ==> exists j :: 0 <= j < |items| && FirstFailure(f, items, base, j) && f(items[j], base + j).error == r.error
    decreases |items|
  {
    if items == [] then Success([])
    else
      match f(items[0], base)
      case Failure(e) =>
        assert FirstFailure(f, items, base, 0);
        Failure(e)
      case Success(b) =>
        var tail := MapIndexed(f, items[1..], base + 1);
        MapIndexedStep(f, items, base, tail);
        match tail
        case Failure(e) => Failure(e)
        case Success(rest) => Success([b] + rest)
  }

  /** Entry `j` is the first one whose mapping fails. */
  ghost predicate FirstFailure<A, B, E>(f: (A, nat) -> Result<B, E>, items: seq<A>, base: nat, j: nat)
    requires j < |items|
  {
    && f(items[j], base + j).Failure?
    && forall i :: 0 <= i < j ==> f(items[i], base + i).Success?
  }

  /** What the recursive call promises about the tail, re-indexed. */
  lemma MapIndexedStep<A, B, E>(f: (A, nat) -> Result<B, E>, items: seq<A>, base: nat, tail: Result<seq<B>, E>)
    requires items != [] && f(items[0], base).Success?
    requires tail.Success? <==> forall j :: 0 <= j < |items[1..]| ==> f(items[1..][j], base + 1 + j).Success?
    requires tail.Success? ==> |tail.value| == |items[1..]|
    requires tail.Success? ==> forall j :: 0 <= j < |items[1..]| ==> tail.value[j] == f(items[1..][j], base + 1 + j).value
    requires tail.Failure? ==>
      exists j :: 0 <= j < |items[1..]| && FirstFailure(f, items[1..], base + 1, j) && f(items[1..][j], base + 1 + j).error == tail.error
    ensures tail.Success? <==> forall j :: 0 <= j < |items| ==> f(items[j], base + j).Success?
    ensures tail.Success? ==>
      forall j :: 0 <= j < |items| ==> ([f(items[0], base).value] + tail.value)[j] == f(items[j], base + j).value
    ensures tail.Failure? ==>
      exists j :: 0 <= j < |items| && FirstFailure(f, items, base, j) && f(items[j], base + j).error == tail.error
  {
    if tail.Failure? {
      var j :| 0 <= j < |items[1..]| && FirstFailure(f, items[1..], base + 1, j) && f(items[1..][j], base + 1 + j).error == tail.error;
      assert items[1..][j] == items[j + 1];
      forall i | 0 <= i < j + 1
        ensures f(items[i], base + i).Success?
      {
        if i > 0 {
          assert items[1..][i - 1] == items[i];
        }
      }
      assert FirstFailure(f, items, base, j + 1);
    } else {
      forall j | 0 < j < |items|
        ensures f(items[j], base + j) == f(items[1..][j - 1], base + 1 + (j - 1))
      {
      }
    }
  }

  /** Normalises a parsed instance list, each entry with its position; the
      first entry that does not normalise decides the error. */
  function NormalizeList(items: seq<Value>): (r: Result<seq<Instance>, InstanceError>)
    ensures r.Success? <==> forall k :: 0 <= k < |items| ==> NormalizeInstance(items[k], k).Success?
    ensures r.Success? ==> |r.value| == |items| && AllWellFormed(r.value)
    ensures r.Success? ==> forall k :: 0 <= k < |items| ==> r.value[k] == NormalizeInstance(items[k], k).value
    ensures r.Failure? ==> exists k :: 0 <= k < |items| && NormalizeInstance(items[k], k) == Failure(r.error)
                                       && forall i :: 0 <= i < k ==> NormalizeInstance(items[i], i).Success?
  {
    MapIndexed((v, index) => NormalizeInstance(v, index), items, 0)
  }

  /** A parsed value as an instance list: it must be an array whose entries
      all normalise. */
  function InstancesOf(parsed: Value): (r: Result<seq<Instance>, Option<InstanceError>>)
    ensures !parsed.VArr? ==> r == Failure(None)
    ensures parsed.VArr? ==> (r.Success? <==> NormalizeList(parsed.items).Success?)
    ensures parsed.VArr? && r.Failure? ==> r.error == Some(NormalizeList(parsed.items).error)
    ensures parsed.VArr? && r.Success? ==> r.value == NormalizeList(parsed.items).value
    ensures r.Success? ==> |r.value| == |parsed.items| && AllWellFormed(r.value)
  {
    if !parsed.VArr? then Failure(None)
    else
      match NormalizeList(parsed.items)
      case Failure(e) => Failure(Some(e))
      case Success(list) => Success(list)
  }

  /** Instances from the `SONARR_INSTANCES` variable, parsed by `parseJson`:
      absent when the variable is missing or blank; otherwise it must parse
      to an array of valid instance records. */
  function LoadInstancesFromEnv(env: Env, parseJson: string -> Option<Value>): (r: Result<Option<seq<Instance>>, ConfigError>)
    ensures !Provided(env, "SONARR_INSTANCES") ==> r == Success(None)
    ensures Provided(env, "SONARR_INSTANCES") && parseJson(env["SONARR_INSTANCES"]).None? ==>
      r == Failure(InvalidInstancesEnv(EnvSyntax))
    ensures Provided(env, "SONARR_INSTANCES") && parseJson(env["SONARR_INSTANCES"]).Some? ==>
      var parsed := parseJson(env["SONARR_INSTANCES"]).value;
      && (!parsed.VArr? ==> r == Failure(InvalidInstancesEnv(EnvNotArray)))
      && (r.Success? <==> InstancesOf(parsed).Success?)
      && (parsed.VArr? && r.Failure? ==> r.error == InvalidInstancesEnv(EnvEntry(NormalizeList(parsed.items).error)))
      && (parsed.VArr? && r.Success? ==> r == Success(Some(NormalizeList(parsed.items).value)))
    ensures r.Success? && r.value.Some? ==> AllWellFormed(r.value.value)
  {
    if !Provided(env, "SONARR_INSTANCES") then Success(None)
    else
      match parseJson(env["SONARR_INSTANCES"])
      case None => Failure(InvalidInstancesEnv(EnvSyntax))
      case Some(parsed) =>
        match InstancesOf(parsed)
        case Failure(None) => Failure(InvalidInstancesEnv(EnvNotArray))
        case Failure(Some(e)) => Failure(InvalidInstancesEnv(EnvEntry(e)))
        case Success(list) => Success(Some(list))
  }

  /** Instances from the file named by `SONARR_INSTANCES_FILE`, read through
      `readFile`: absent when the variable is missing or blank; otherwise the
      file must exist, parse, and hold an array of valid instance records. */
  function LoadInstancesFromFile(env: Env, readFile: string -> FileSource): (r: Result<Option<seq<Instance>>, ConfigError>)
    ensures !Provided(env, "SONARR_INSTANCES_FILE") ==> r == Success(None)
    ensures Provided(env, "SONARR_INSTANCES_FILE") && readFile(env["SONARR_INSTANCES_FILE"]).FileNotFound? ==>
      r == Failure(InstancesFileNotFound)
    ensures Provided(env, "SONARR_INSTANCES_FILE") && readFile(env["SONARR_INSTANCES_FILE"]).FileUnparsable? ==>
      r == Failure(InstancesFileUnparsable)
    ensures Provided(env, "SONARR_INSTANCES_FILE") && readFile(env["SONARR_INSTANCES_FILE"]).FileParsed? ==>
      var parsed := readFile(env["SONARR_INSTANCES_FILE"]).v;
      && (!parsed.VArr? ==> r == Failure(InstancesFileNotArray))
      && (r.Success? <==> InstancesOf(parsed).Success?)
      && (parsed.VArr? && r.Failure? ==> r.error == InvalidInstance(NormalizeList(parsed.items).error))
      && (parsed.VArr? && r.Success? ==> r == Success(Some(NormalizeList(parsed.items).value)))
    ensures r.Success? && r.value.Some? ==> AllWellFormed(r.value.value)
  {
    if !Provided(env, "SONARR_INSTANCES_FILE") then Success(None)
    else
      match readFile(env["SONARR_INSTANCES_FILE"])
      case FileNotFound => Failure(InstancesFileNotFound)
      case FileUnparsable => Failure(InstancesFileUnparsable)
      case FileParsed(parsed) =>
        match InstancesOf(parsed)
        case Failure(None) => Failure(InstancesFileNotArray)
        case Failure(Some(e)) => Failure(InvalidInstance(e))
        case Success(list) => Success(Some(list))
  }

  /** The single instance described by the older `SONARR_HOST` and
      `SONARR_API_KEY` variables. It is enabled exactly when a non-blank host
      is given; its host is then the trimmed value, and the local default
      otherwise. */
  function LoadLegacyInstance(env: Env): (inst: Instance)
    ensures inst.name == LegacyName && inst.rules.None?
    ensures inst.enabled <==> Provided(env, "SONARR_HOST")
    ensures inst.host == if inst.enabled then Trim(env["SONARR_HOST"]) else DefaultHost
    ensures inst.apiKey == if "SONARR_API_KEY" in env then Trim(env["SONARR_API_KEY"]) else ""
  {
    var host := if "SONARR_HOST" in env && Trim(env["SONARR_HOST"]) != "" then Trim(env["SONARR_HOST"]) else DefaultHost;
    var hostProvided := "SONARR_HOST" in env && !IsBlank(env["SONARR_HOST"]);
    var apiKey := if "SONARR_API_KEY" in env then Trim(env["SONARR_API_KEY"]) else "";
    Instance(LegacyName, host, apiKey, hostProvided, None)
  }

  lemma LegacyWellFormed(env: Env)
    ensures WellFormed(LoadLegacyInstance(env))
  {
    LegacyHostTrimmed(env);
    LegacyNameTrimmed();
    LegacyKeyTrimmed(env);
    WellFormedFromParts(LoadLegacyInstance(env));
  }

  lemma LegacyKeyTrimmed(env: Env)
    ensures var key := LoadLegacyInstance(env).apiKey; key == Trim(key)
  {
    if "SONARR_API_KEY" in env {
      TrimIdempotent(env["SONARR_API_KEY"]);
    }
  }

  lemma LegacyHostTrimmed(env: Env)
    ensures var host := LoadLegacyInstance(env).host; host == Trim(host) && host != ""
  {
    if Provided(env, "SONARR_HOST") {
      TrimIdempotent(env["SONARR_HOST"]);
    } else {
      TrimTrimmed(DefaultHost);
    }
  }

  lemma LegacyNameTrimmed()
    ensures LegacyName == Trim(LegacyName) && LegacyName != ""
  {
    TrimTrimmed(LegacyName);
  }

  lemma WellFormedFromParts(inst: Instance)
    requires inst.host == Trim(inst.host) && inst.host != ""
    requires inst.name == Trim(inst.name) && inst.name != ""
    requires inst.apiKey == Trim(inst.apiKey) && inst.rules.None?
    ensures WellFormed(inst)
  {
  }

  lemma SingleWellFormed(inst: Instance)
    requires WellFormed(inst)
    ensures AllWellFormed([inst])
  {
  }

  /** A source's list counts only when it is present and non-empty. */
  predicate NonEmptyList(o: Option<seq<Instance>>) {
    o.Some? && |o.value| > 0
  }

  /** The instance list: a non-empty list from `SONARR_INSTANCES` wins, then
      the later sources. An error from a source that is consulted ends the
      load. Whatever the source, the list is non-empty and every record is
      well formed. */
  function ResolveSonarrInstances(env: Env, parseJson: string -> Option<Value>, readFile: string -> FileSource)
    : (r: Result<seq<Instance>, ConfigError>)
    ensures var fromEnv := LoadInstancesFromEnv(env, parseJson);
      && (fromEnv.Failure? ==> r == Failure(fromEnv.error))
      && (fromEnv.Success? && NonEmptyList(fromEnv.value) ==> r == Success(fromEnv.value.value))
      && (fromEnv.Success? && !NonEmptyList(fromEnv.value) ==> r == FileOrLegacyInstances(env, readFile))
    ensures r.Success? ==> |r.value| >= 1 && AllWellFormed(r.value)
  {
    match LoadInstancesFromEnv(env, parseJson)
    case Failure(e) => Failure(e)
    case Success(fromEnv) =>
      if NonEmptyList(fromEnv) then Success(fromEnv.value)
      else FileOrLegacyInstances(env, readFile)
  }

  /** The sources consulted when the environment gives no instances: a
      non-empty list from the instance file, else the legacy instance. */
  function FileOrLegacyInstances(env: Env, readFile: string -> FileSource): (r: Result<seq<Instance>, ConfigError>)
    ensures var fromFile := LoadInstancesFromFile(env, readFile);
      && (fromFile.Failure? ==> r == Failure(fromFile.error))
      && (fromFile.Success? && NonEmptyList(fromFile.value) ==> r == Success(fromFile.value.value))
      && (fromFile.Success? && !NonEmptyList(fromFile.value) ==> r == Success([LoadLegacyInstance(env)]))
    ensures r.Success? ==> |r.value| >= 1 && AllWellFormed(r.value)
  {
    match LoadInstancesFromFile(env, readFile)
    case Failure(e) => Failure(e)
    case Success(fromFile) =>
      if NonEmptyList(fromFile) then Success(fromFile.value)
      else
        var legacy := LoadLegacyInstance(env);
        LegacyWellFormed(env);
        SingleWellFormed(legacy);
        Success([legacy])
  }

  /** The instances that are enabled but have no API key. */
  function MissingApiKeys(instances: seq<Instance>): (missing: seq<Instance>)
    ensures forall k :: 0 <= k < |missing| ==> missing[k].enabled && missing[k].apiKey == "" && missing[k] in instances
    ensures forall k :: 0 <= k < |instances| && instances[k].enabled && instances[k].apiKey == "" ==> instances[k] in missing
    ensures missing == [] <==> forall k :: 0 <= k < |instances| ==> !instances[k].enabled || instances[k].apiKey != ""
  {
    if instances == [] then []
    else
      var rest := MissingApiKeys(instances[1..]);
      if instances[0].enabled && instances[0].apiKey == "" then [instances[0]] + rest else rest
  }

  /** Fails exactly when some enabled instance has an empty API key. */
  function ValidateInstances(instances: seq<Instance>): (o: Outcome<ConfigError>)
    ensures o.Pass? <==> forall k :: 0 <= k < |instances| ==> !instances[k].enabled || instances[k].apiKey != ""
    ensures o.Fail? ==> o.error == MissingApiKey
  {
    if |MissingApiKeys(instances)| > 0 then Fail(MissingApiKey) else Pass
  }

  /** A variable's value when it is set to a non-empty string; an absent or
      empty variable takes the fallback. The first two ensures repeat the
      body so that proofs need not unfold it; `EnvOrIsLogicalOr` relates it
      to JavaScript's `||`. */
  function EnvOr(env: Env, key: string, fallback: string): (s: string)
    ensures key in env && env[key] != "" ==> s == env[key]
    ensures !(key in env && env[key] != "") ==> s == fallback
    ensures s == fallback || (key in env && s == env[key])
    ensures s == "" ==> fallback == ""
  {
    if key in env && env[key] != "" then env[key] else fallback
  }

  /** The variables the rule switches are read from, in field order. */
  const RuleVariables: seq<string> := [
    "REMOVE_QUALITY_BLOCKED", "BLOCK_REMOVED_QUALITY_RELEASES",
    "REMOVE_ARCHIVE_BLOCKED", "BLOCK_REMOVED_ARCHIVE_RELEASES",
    "REMOVE_NO_FILES_RELEASES", "BLOCK_REMOVED_NO_FILES_RELEASES",
    "REMOVE_NOT_AN_UPGRADE",
    "REMOVE_SERIES_ID_MISMATCH", "BLOCK_REMOVED_SERIES_ID_MISMATCH_RELEASES",
    "REMOVE_UNDETERMINED_SAMPLE", "BLOCK_REMOVED_UNDETERMIND_SAMPLE"]

  /** The switch of `rules` at position `i` of the field order, the order of
      `RuleKeys` and `RuleVariables`. */
  function RuleSwitch(rules: RuleConfig, i: nat): bool
    requires i < |RuleKeys|
  {
    match i
    case 0 => rules.removeQualityBlocked
    case 1 => rules.blockRemovedQualityReleases
    case 2 => rules.removeArchiveBlocked
    case 3 => rules.blockRemovedArchiveReleases
    case 4 => rules.removeNoFilesReleases
    case 5 => rules.blockRemovedNoFilesReleases
    case 6 => rules.removeNotAnUpgrade
    case 7 => rules.removeSeriesIdMismatch
    case 8 => rules.blockRemovedSeriesIdMismatchReleases
    case 9 => rules.removeUndeterminedSample
    case _ => rules.blockRemovedUndeterminedSampleReleases
  }

  /** The rule switches read from the environment: each switch is on exactly
      when the variable at its position in `RuleVariables` is the text
      "true". The variable for the undetermined-sample block flag is spelled
      without the second E of UNDETERMINED, as the loader spells it. */
  function RulesFromEnv(env: Env): (rules: RuleConfig)
    ensures forall i :: 0 <= i < |RuleVariables| ==>
      (RuleSwitch(rules, i) <==> RuleVariables[i] in env && env[RuleVariables[i]] == "true")
  {
    RuleConfig(
      RuleFlag(env, 0), RuleFlag(env, 1), RuleFlag(env, 2), RuleFlag(env, 3),
      RuleFlag(env, 4), RuleFlag(env, 5), RuleFlag(env, 6), RuleFlag(env, 7),
      RuleFlag(env, 8), RuleFlag(env, 9), RuleFlag(env, 10))
  }

  /** The strict flag of the rule variable at position `i`. */
  function RuleFlag(env: Env, i: nat): bool
    requires i < |RuleVariables|
  {
    ParseBooleanEnv(env, RuleVariables[i])
  }

  /** The whole load: instances resolved and validated, then the settings
      read from the environment. A successful load holds at least one
      well-formed instance, every enabled one with an API key, and the rule
      switches and dry-run flag read strictly from their variables; a failed
      load carries the instance sources' error or the missing-key error. */
  function LoadConfig(env: Env, parseJson: string -> Option<Value>, readFile: string -> FileSource)
    : (r: Result<Settings, ConfigError>)
    ensures r.Success? ==> |r.value.sonarrInstances| >= 1 && AllWellFormed(r.value.sonarrInstances)
    ensures r.Success? ==> forall k :: 0 <= k < |r.value.sonarrInstances| ==>
      !r.value.sonarrInstances[k].enabled || r.value.sonarrInstances[k].apiKey != ""
    ensures r.Success? ==> r.value.rules == RulesFromEnv(env) && r.value.dryRun == ParseBooleanEnv(env, "DRY_RUN")
    ensures r.Failure? ==> r.error == MissingApiKey || ResolveSonarrInstances(env, parseJson, readFile) == Failure(r.error)
    ensures ResolveSonarrInstances(env, parseJson, readFile).Failure? ==>
      r == Failure(ResolveSonarrInstances(env, parseJson, readFile).error)
    ensures ResolveSonarrInstances(env, parseJson, readFile).Success? ==>
      r == Settle(env, ResolveSonarrInstances(env, parseJson, readFile).value)
  {
    match ResolveSonarrInstances(env, parseJson, readFile)
    case Failure(e) => Failure(e)
    case Success(instances) => Settle(env, instances)
  }

  /** Validates the resolved instances and reads the remaining settings: it
      fails exactly when an enabled instance lacks an API key; otherwise the
      instances are kept as they are, and the schedule and log level fall
      back to their defaults when unset or empty. */
  function Settle(env: Env, instances: seq<Instance>): (r: Result<Settings, ConfigError>)
    ensures r.Success? <==> forall k :: 0 <= k < |instances| ==> !instances[k].enabled || instances[k].apiKey != ""
    ensures r.Failure? ==> r.error == MissingApiKey
    ensures r.Success? ==> r.value.sonarrInstances == instances
    ensures r.Success? ==> r.value.rules == RulesFromEnv(env)
    ensures r.Success? ==> r.value.dryRun == ParseBooleanEnv(env, "DRY_RUN")
    ensures r.Success? ==> r.value.schedule != "" && r.value.logLevel != ""
    ensures r.Success? ==> ("SCHEDULE" !in env || env["SCHEDULE"] == "" ==> r.value.schedule == DefaultSchedule)
    ensures r.Success? ==> ("LOG_LEVEL" !in env || env["LOG_LEVEL"] == "" ==> r.value.logLevel == DefaultLogLevel)
    ensures r.Success? ==> ("SCHEDULE" in env && env["SCHEDULE"] != "" ==> r.value.schedule == env["SCHEDULE"])
    ensures r.Success? ==> ("LOG_LEVEL" in env && env["LOG_LEVEL"] != "" ==> r.value.logLevel == env["LOG_LEVEL"])
  {
    match ValidateInstances(instances)
    case Fail(e) => Failure(e)
    case Pass =>
      Success(Settings(
        instances,
        RulesFromEnv(env),
        ParseBooleanEnv(env, "DRY_RUN"),
        EnvOr(env, "SCHEDULE", DefaultSchedule),
        EnvOr(env, "LOG_LEVEL", DefaultLogLevel)))
  }
}
