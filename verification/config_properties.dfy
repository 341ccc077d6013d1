/** Properties of configuration loading: how the two boolean readings relate
    to each other and to JavaScript truthiness, the round trip between
    instance records and their normalised form, the precedence between the
    instance sources, and the load scenarios the configuration tests walk
    through. */
module ConfigProperties {
  import opened Wrappers
  import opened Strings
  import opened Json
  import opened ConfigLoader

  // ----- Boolean readings -----

  /** An environment flag that is on also coerces to true: the flag reading
      is the stricter of the two. */
  lemma EnvFlagImpliesCoercion(env: Env, key: string)
    requires ParseBooleanEnv(env, key)
    ensures CoerceBoolean(VStr(env[key]))
  {
    TrueWordNormalized();
    NormalizedTrueCoerces(env[key]);
  }

  lemma NormalizedTrueCoerces(s: string)
    requires Normalized(s) == "true"
    ensures CoerceBoolean(VStr(s))
  {
    assert Normalized(s) == TrueWords[0];
  }

  lemma TrueWordNormalized()
    ensures Normalized("true") == "true"
  {
    PlainWordNormalized("true");
  }

  /** A word of lower-case ASCII letters is its own normal form. */
  lemma PlainWordNormalized(s: string)
    requires s != [] && forall k :: 0 <= k < |s| ==> 'a' <= s[k] <= 'z'
    ensures Normalized(s) == s
  {
    var last := s[|s| - 1];
    assert 'a' <= s[0] <= 'z' && 'a' <= last <= 'z';
    assert !IsWhitespace(s[0]) && !IsWhitespace(last);
    TrimTrimmed(s);
    LowerWordUnchanged(s);
  }

  lemma LowerWordUnchanged(s: string)
    requires forall k :: 0 <= k < |s| ==> 'a' <= s[k] <= 'z'
    ensures ToLower(s) == s
  {
    assert forall k :: 0 <= k < |s| ==> ToLower(s)[k] == s[k];
  }

  /** A worked instance of `CaseVariantsOff`: "TRUE" coerces to yes but does
      not switch an environment flag on, and an absent flag is off. */
  lemma EnvFlagRejectsVariants()
    ensures var env := map["DRY_RUN" := "TRUE"];
      !ParseBooleanEnv(env, "DRY_RUN") && CoerceBoolean(VStr(env["DRY_RUN"]))
    ensures !ParseBooleanEnv(map[], "DRY_RUN")
  {
    UpperTrueNormalized();
    NormalizedTrueCoerces("TRUE");
    assert "TRUE" != "true";
  }

  /** Every text that is not exactly "true" but normalises to "true" (other
      case, surrounding whitespace) leaves an environment flag off although
      `coerceBoolean` reads it as true. */
  lemma CaseVariantsOff(env: Env, key: string)
    requires key in env && env[key] != "true" && Normalized(env[key]) == "true"
    ensures !ParseBooleanEnv(env, key) && CoerceBoolean(VStr(env[key]))
  {
    NormalizedTrueCoerces(env[key]);
  }

  /** A variable as JavaScript reads it from the environment: its text, or
      `undefined` when it is absent. */
  function EnvValue(env: Env, key: string): Value {
    if key in env then VStr(env[key]) else VUndef
  }

  /** Reading a variable with a fallback is JavaScript's `||` on the
      variable's value and the fallback text. */
  lemma EnvOrIsLogicalOr(env: Env, key: string, fallback: string)
    ensures Or(EnvValue(env, key), VStr(fallback)) == VStr(EnvOr(env, key, fallback))
  {
  }

  lemma UpperTrueNormalized()
    ensures Normalized("TRUE") == "true"
  {
    NormalizesTo("TRUE", "true");
  }

  /** A word without surrounding whitespace normalises to its lower-case form. */
  lemma NormalizesTo(s: string, lower: string)
    requires s != [] && !IsWhitespace(s[0]) && !IsWhitespace(s[|s| - 1])
    requires ToLower(s) == lower
    ensures Normalized(s) == lower
  {
    TrimTrimmed(s);
  }

  /** Coercion agrees with JavaScript truthiness on every value except the
      strings that normalise to a no-word. */
  lemma CoercionVersusTruthiness(v: Value)
    ensures CoerceBoolean(v) != Truthy(v) <==> v.VStr? && Normalized(v.s) in FalseWords
  {
    if v.VStr? {
      StringCoercion(v.s);
    }
  }

  /** On strings, coercion differs from non-emptiness exactly for no-words. */
  lemma StringCoercion(s: string)
    ensures CoerceBoolean(VStr(s)) != (s != "") <==> Normalized(s) in FalseWords
  {
    if s == "" {
      EmptyNormalized();
      NoEmptyWord();
    }
  }

  lemma EmptyNormalized()
    ensures Normalized("") == ""
  {
    assert Trim("") == [];
  }

  lemma NoEmptyWord()
    ensures "" !in TrueWords && "" !in FalseWords
  {
  }

  /** A string of spaces is not one of the words, and being non-empty it
      coerces to true. */
  lemma BlankStringCoercesToTrue(s: string)
    requires s != "" && IsBlank(s)
    ensures CoerceBoolean(VStr(s))
  {
    assert Normalized(s) == [];
  }

  /** The rule switches depend on their own variables only: setting any
      other variable, the correctly spelled
      `BLOCK_REMOVED_UNDETERMINED_SAMPLE` among them, changes none. */
  lemma RulesReadOnlyRuleVariables(env: Env, key: string, text: string)
    requires key !in RuleVariables
    ensures RulesFromEnv(env[key := text]) == RulesFromEnv(env)
  {
    var env' := env[key := text];
    forall name | name in RuleVariables
      ensures ParseBooleanEnv(env', name) == ParseBooleanEnv(env, name)
    {
      assert name != key;
    }
  }

  /** The undetermined-sample block switch is read from the variable spelled
      `BLOCK_REMOVED_UNDETERMIND_SAMPLE`; the correct spelling has no effect. */
  lemma CorrectSpellingIgnored(env: Env, text: string)
    ensures RulesFromEnv(env["BLOCK_REMOVED_UNDETERMINED_SAMPLE" := text]) == RulesFromEnv(env)
  {
    RulesReadOnlyRuleVariables(env, "BLOCK_REMOVED_UNDETERMINED_SAMPLE", text);
  }

  /** A successful load carries the undetermined-sample block switch of
      the misspelled variable, whatever the correctly spelled one says. */
  lemma MisspelledVariableLoaded(env: Env, parseJson: string -> Option<Value>, readFile: string -> FileSource)
    ensures var r := LoadConfig(env, parseJson, readFile);
      r.Success? ==>
        (r.value.rules.blockRemovedUndeterminedSampleReleases <==>
           "BLOCK_REMOVED_UNDETERMIND_SAMPLE" in env && env["BLOCK_REMOVED_UNDETERMIND_SAMPLE"] == "true")
  {
    var rules := RulesFromEnv(env);
    assert RuleSwitch(rules, 10) == rules.blockRemovedUndeterminedSampleReleases;
    assert RuleVariables[10] == "BLOCK_REMOVED_UNDETERMIND_SAMPLE";
  }

  // ----- Instance records -----

  /** An override map as the record literal `{ key: value, ... }`. */
  function EncodeRules(m: Overrides): Value {
    VObj(map k | k in m :: VBool(m[k]))
  }

  /** An instance record as the object a configuration file would hold; the
      `rules` property appears only when there are overrides. */
  function Encode(inst: Instance): Value {
    var fields := map["name" := VStr(inst.name), "host" := VStr(inst.host),
                      "apiKey" := VStr(inst.apiKey), "enabled" := VBool(inst.enabled)];
    VObj(if inst.rules.Some? then fields["rules" := EncodeRules(inst.rules.value)] else fields)
  }

  /** Overrides limited to known keys and not empty survive normalisation
      unchanged. */
  lemma {:induction false} RulesRoundTrip(m: Overrides)
    requires m != map[] && forall k :: k in m ==> k in RuleKeys
    ensures NormalizeRuleOverrides(EncodeRules(m)) == Some(m)
  {
    var v := EncodeRules(m);
    var k :| k in m;
    EncodedRule(m, k);
    var r := NormalizeRuleOverrides(v);
    forall key
      ensures key in r.value <==> key in m
      ensures key in m ==> r.value[key] == m[key]
    {
      EncodedRule(m, key);
    }
    assert r.value == m;
  }

  lemma EncodedRule(m: Overrides, key: string)
    ensures Prop(EncodeRules(m), key) == if key in m then VBool(m[key]) else VUndef
  {
  }

  /** A well-formed record normalises to itself, whatever its position. */
  lemma {:induction false} NormalizeEncoded(inst: Instance, index: nat)
    requires WellFormed(inst)
    ensures NormalizeInstance(Encode(inst), index) == Success(inst)
  {
    var v := Encode(inst);
    EncodedFieldsRead(inst, index);
    EncodedProperties(inst);
    if inst.rules.Some? {
      RulesRoundTrip(inst.rules.value);
    }
    assert NormalizeRuleOverrides(Prop(v, "rules")) == inst.rules;
  }

  /** Host, name, API key and switch come back from the encoded record as
      they were. */
  lemma EncodedFieldsRead(inst: Instance, index: nat)
    requires WellFormed(inst)
    ensures var v := Encode(inst);
      && HostOf(v) == Some(inst.host) && NameOf(v, index) == inst.name
      && ApiKeyOf(v) == inst.apiKey && EnabledOf(v) == inst.enabled
  {
    var v := Encode(inst);
    EncodedProperties(inst);
    HostRead(v, inst.host);
    NameRead(v, inst.name, index);
    KeyRead(v, inst.apiKey);
    EnabledRead(v, inst.enabled);
  }

  lemma HostRead(v: Value, host: string)
    requires Prop(v, "host") == VStr(host) && Trim(host) == host && host != ""
    ensures HostOf(v) == Some(host)
  {
    TrimmedRead(v, "host", host);
  }

  lemma NameRead(v: Value, name: string, index: nat)
    requires Prop(v, "name") == VStr(name) && Trim(name) == name && name != ""
    ensures NameOf(v, index) == name
  {
    TrimmedRead(v, "name", name);
  }

  lemma KeyRead(v: Value, key: string)
    requires Prop(v, "apiKey") == VStr(key) && Trim(key) == key
    ensures ApiKeyOf(v) == key
  {
  }

  lemma EnabledRead(v: Value, enabled: bool)
    requires Prop(v, "enabled") == VBool(enabled)
    ensures EnabledOf(v) == enabled
  {
  }

  /** A property holding trimmed, non-empty text is read back as it is. */
  lemma TrimmedRead(v: Value, key: string, text: string)
    requires Prop(v, key) == VStr(text) && Trim(text) == text && text != ""
    ensures Prop(v, key).VStr? && !IsBlank(Prop(v, key).s) && Trim(Prop(v, key).s) == text
  {
  }

  /** Reading the encoded record's properties back. */
  lemma EncodedProperties(inst: Instance)
    ensures var v := Encode(inst);
      && Prop(v, "host") == VStr(inst.host) && Prop(v, "name") == VStr(inst.name)
      && Prop(v, "apiKey") == VStr(inst.apiKey) && Prop(v, "enabled") == VBool(inst.enabled)
      && Prop(v, "rules") == if inst.rules.Some? then EncodeRules(inst.rules.value) else VUndef
  {
  }

  /** Normalisation is idempotent: a normalised record, written back out,
      normalises to itself. */
  lemma NormalizeIdempotent(v: Value, index: nat, again: nat)
    requires v.VObj? && Prop(v, "host").VStr? && !IsBlank(Prop(v, "host").s)
    ensures NormalizeInstance(Encode(NormalizeInstance(v, index).value), again) == NormalizeInstance(v, index)
  {
    NormalizeEncoded(NormalizeInstance(v, index).value, again);
  }

  /** Properties outside the rule keys never reach the overrides. */
  lemma UnknownOverrideIgnored(fields: map<string, Value>, key: string, x: Value)
    requires key !in RuleKeys
    ensures NormalizeRuleOverrides(VObj(fields[key := x])) == NormalizeRuleOverrides(VObj(fields))
  {
    var v, w := VObj(fields[key := x]), VObj(fields);
    forall k | k in RuleKeys
      ensures Prop(v, k) == Prop(w, k)
    {
      assert k != key;
    }
    OverridesReadOnlyRuleKeys(v, w);
  }

  /** Two records that agree on every rule key yield the same overrides. */
  lemma OverridesReadOnlyRuleKeys(v: Value, w: Value)
    requires v.VObj? && w.VObj?
    requires forall k :: k in RuleKeys ==> Prop(v, k) == Prop(w, k)
    ensures NormalizeRuleOverrides(v) == NormalizeRuleOverrides(w)
  {
    CollectReadsOnlyKeys(v, w, RuleKeys);
  }

  lemma {:induction false} CollectReadsOnlyKeys(v: Value, w: Value, keys: seq<string>)
    requires forall k :: k in keys ==> Prop(v, k) == Prop(w, k)
    ensures CollectOverrides(v, keys) == CollectOverrides(w, keys)
  {
    if keys != [] {
      CollectReadsOnlyKeys(v, w, keys[..|keys| - 1]);
    }
  }

  /** Unnamed instances at different positions get different names. */
  lemma DefaultNameInjective(i: nat, j: nat)
    requires DefaultName(i) == DefaultName(j)
    ensures i == j
  {
    assert NatToString(i + 1) == DefaultName(i)[|DefaultPrefix|..];
    assert NatToString(j + 1) == DefaultName(j)[|DefaultPrefix|..];
    NatToStringInjective(i + 1, j + 1);
  }

  // ----- Precedence between the instance sources -----

  /** A blank `SONARR_INSTANCES` is the same as no variable at all. */
  lemma BlankInstancesVariableIgnored(env: Env, parseJson: string -> Option<Value>, readFile: string -> FileSource)
    requires "SONARR_INSTANCES" in env && IsBlank(env["SONARR_INSTANCES"])
    ensures ResolveSonarrInstances(env, parseJson, readFile)
         == ResolveSonarrInstances(env - {"SONARR_INSTANCES"}, parseJson, readFile)
  {
    LaterSourcesIgnoreInstancesVariable(env, readFile);
    assert LoadInstancesFromEnv(env - {"SONARR_INSTANCES"}, parseJson) == Success(None);
  }

  /** `SONARR_INSTANCES` that parses to something other than an array stops
      the load, whatever the file or the legacy variables say. */
  lemma NonArrayInstancesRejected(env: Env, parseJson: string -> Option<Value>, readFile: string -> FileSource)
    requires Provided(env, "SONARR_INSTANCES")
    requires parseJson(env["SONARR_INSTANCES"]).Some? && !parseJson(env["SONARR_INSTANCES"]).value.VArr?
    ensures ResolveSonarrInstances(env, parseJson, readFile) == Failure(InvalidInstancesEnv(EnvNotArray))
  {
  }

  /** A non-empty valid list in `SONARR_INSTANCES` is the result: the file
      and the legacy variables are not consulted. */
  lemma EnvListWins(env: Env, parseJson: string -> Option<Value>, readFile: string -> FileSource, items: seq<Value>)
    requires Provided(env, "SONARR_INSTANCES") && parseJson(env["SONARR_INSTANCES"]) == Some(VArr(items))
    requires |items| > 0 && forall k :: 0 <= k < |items| ==> NormalizeInstance(items[k], k).Success?
    ensures ResolveSonarrInstances(env, parseJson, readFile) == Success(NormalizeList(items).value)
  {
  }

  /** An empty array in `SONARR_INSTANCES` falls through to the next source,
      as though the variable were absent. */
  lemma EmptyEnvListFallsThrough(env: Env, parseJson: string -> Option<Value>, readFile: string -> FileSource)
    requires Provided(env, "SONARR_INSTANCES") && parseJson(env["SONARR_INSTANCES"]) == Some(VArr([]))
    ensures ResolveSonarrInstances(env, parseJson, readFile)
         == ResolveSonarrInstances(env - {"SONARR_INSTANCES"}, parseJson, readFile)
  {
    assert LoadInstancesFromEnv(env, parseJson) == Success(Some([]));
    LaterSourcesIgnoreInstancesVariable(env, readFile);
    assert LoadInstancesFromEnv(env - {"SONARR_INSTANCES"}, parseJson) == Success(None);
  }

  /** The file and legacy sources do not read `SONARR_INSTANCES`. */
  lemma LaterSourcesIgnoreInstancesVariable(env: Env, readFile: string -> FileSource)
    ensures FileOrLegacyInstances(env, readFile) == FileOrLegacyInstances(env - {"SONARR_INSTANCES"}, readFile)
  {
    var env' := env - {"SONARR_INSTANCES"};
    assert SameVariable(env, env', "SONARR_INSTANCES_FILE");
    assert SameVariable(env, env', "SONARR_HOST") && SameVariable(env, env', "SONARR_API_KEY");
    FileReadsOnlyItsVariable(env, env', readFile);
    LegacyReadsOnlyItsVariables(env, env');
  }

  /** Both environments agree on the variable `key`. */
  predicate SameVariable(env: Env, env': Env, key: string) {
    && (key in env <==> key in env')
    && (key in env ==> env[key] == env'[key])
  }

  lemma FileReadsOnlyItsVariable(env: Env, env': Env, readFile: string -> FileSource)
    requires SameVariable(env, env', "SONARR_INSTANCES_FILE")
    ensures LoadInstancesFromFile(env, readFile) == LoadInstancesFromFile(env', readFile)
  {
  }

  lemma LegacyReadsOnlyItsVariables(env: Env, env': Env)
    requires SameVariable(env, env', "SONARR_HOST") && SameVariable(env, env', "SONARR_API_KEY")
    ensures LoadLegacyInstance(env) == LoadLegacyInstance(env')
  {
    var a, b := LoadLegacyInstance(env), LoadLegacyInstance(env');
    assert a.enabled == b.enabled;
    assert a.host == b.host && a.apiKey == b.apiKey;
  }

  /** Without instances in the environment, a non-empty valid list in the
      instance file is the result. */
  lemma FileListWins(env: Env, parseJson: string -> Option<Value>, readFile: string -> FileSource, items: seq<Value>)
    requires !Provided(env, "SONARR_INSTANCES")
    requires Provided(env, "SONARR_INSTANCES_FILE") && readFile(env["SONARR_INSTANCES_FILE"]) == FileParsed(VArr(items))
    requires |items| > 0 && forall k :: 0 <= k < |items| ==> NormalizeInstance(items[k], k).Success?
    ensures ResolveSonarrInstances(env, parseJson, readFile) == Success(NormalizeList(items).value)
  {
  }

  /** A missing instance file stops the load when the environment gives no
      instances. */
  lemma MissingFileRejected(env: Env, parseJson: string -> Option<Value>, readFile: string -> FileSource)
    requires !Provided(env, "SONARR_INSTANCES")
    requires Provided(env, "SONARR_INSTANCES_FILE") && readFile(env["SONARR_INSTANCES_FILE"]) == FileNotFound
    ensures ResolveSonarrInstances(env, parseJson, readFile) == Failure(InstancesFileNotFound)
  {
  }

  /** Without instances in the environment, an instance file holding an
      empty array falls through to the legacy instance. */
  lemma EmptyFileListFallsThrough(env: Env, parseJson: string -> Option<Value>, readFile: string -> FileSource)
    requires !Provided(env, "SONARR_INSTANCES")
    requires Provided(env, "SONARR_INSTANCES_FILE") && readFile(env["SONARR_INSTANCES_FILE"]) == FileParsed(VArr([]))
    ensures ResolveSonarrInstances(env, parseJson, readFile) == Success([LoadLegacyInstance(env)])
  {
    assert LoadInstancesFromFile(env, readFile) == Success(Some([]));
  }

  /** An error from `SONARR_INSTANCES` ends the whole load with that error:
      neither the file nor the legacy variables can rescue it. */
  lemma EnvErrorEndsLoad(env: Env, parseJson: string -> Option<Value>, readFile: string -> FileSource)
    requires LoadInstancesFromEnv(env, parseJson).Failure?
    ensures LoadConfig(env, parseJson, readFile) == Failure(LoadInstancesFromEnv(env, parseJson).error)
  {
  }

  /** When the environment gives no instances, an error from the instance
      file ends the whole load with that error: the legacy variables cannot
      rescue it. */
  lemma FileErrorEndsLoad(env: Env, parseJson: string -> Option<Value>, readFile: string -> FileSource)
    requires LoadInstancesFromEnv(env, parseJson).Success? && !NonEmptyList(LoadInstancesFromEnv(env, parseJson).value)
    requires LoadInstancesFromFile(env, readFile).Failure?
    ensures LoadConfig(env, parseJson, readFile) == Failure(LoadInstancesFromFile(env, readFile).error)
  {
  }

  /** A load fails only with the error of a source it consulted, or because
      an enabled instance lacks an API key. */
  lemma LoadErrorsHaveASource(env: Env, parseJson: string -> Option<Value>, readFile: string -> FileSource)
    ensures var r := LoadConfig(env, parseJson, readFile);
      var fromEnv := LoadInstancesFromEnv(env, parseJson);
      var fromFile := LoadInstancesFromFile(env, readFile);
      r.Failure? ==>
        || (fromEnv.Failure? && r.error == fromEnv.error)
        || (fromEnv.Success? && !NonEmptyList(fromEnv.value) && fromFile.Failure? && r.error == fromFile.error)
        || r.error == MissingApiKey
  {
  }

  /** With neither instance source set, the one legacy instance is the
      result (named "Primary Sonarr", and enabled exactly when a non-blank
      `SONARR_HOST` is set, as `LoadLegacyInstance` states). */
  lemma LegacyFallback(env: Env, parseJson: string -> Option<Value>, readFile: string -> FileSource)
    requires !Provided(env, "SONARR_INSTANCES") && !Provided(env, "SONARR_INSTANCES_FILE")
    ensures ResolveSonarrInstances(env, parseJson, readFile) == Success([LoadLegacyInstance(env)])
  {
    assert LoadInstancesFromEnv(env, parseJson) == Success(None);
    assert LoadInstancesFromFile(env, readFile) == Success(None);
    assert FileOrLegacyInstances(env, readFile) == Success([LoadLegacyInstance(env)]);
  }

  /** Whatever the sources say, a successful load validated every enabled
      instance's API key. */
  lemma LoadedInstancesHaveKeys(env: Env, parseJson: string -> Option<Value>, readFile: string -> FileSource)
    ensures var r := LoadConfig(env, parseJson, readFile);
      r.Success? ==> forall k :: 0 <= k < |r.value.sonarrInstances| ==>
        !r.value.sonarrInstances[k].enabled || r.value.sonarrInstances[k].apiKey != ""
  {
  }

  // ----- Load scenarios -----

  /** An instance record as a configuration file writes it: a name, a host,
      and optionally an API key and an `enabled` flag. */
  function Record(name: string, host: string, apiKey: Option<string>, enabled: Option<bool>): Value {
    var fields := map["name" := VStr(name), "host" := VStr(host)];
    var fields := if apiKey.Some? then fields["apiKey" := VStr(apiKey.value)] else fields;
    VObj(if enabled.Some? then fields["enabled" := VBool(enabled.value)] else fields)
  }

  /** Text as a tidy configuration writes it: not empty, no surrounding
      whitespace. */
  predicate Clean(s: string) {
    s != "" && Trim(s) == s
  }

  lemma RecordProperties(name: string, host: string, apiKey: Option<string>, enabled: Option<bool>)
    ensures var v := Record(name, host, apiKey, enabled);
      && Prop(v, "host") == VStr(host) && Prop(v, "name") == VStr(name)
      && Prop(v, "apiKey") == (if apiKey.Some? then VStr(apiKey.value) else VUndef)
      && Prop(v, "enabled") == (if enabled.Some? then VBool(enabled.value) else VUndef)
      && Prop(v, "rules") == VUndef
  {
  }

  /** A record whose texts are clean normalises to an instance with those
      texts, enabled unless it says otherwise. */
  lemma RecordNormalizes(name: string, host: string, apiKey: Option<string>, enabled: Option<bool>, index: nat)
    requires Clean(name) && Clean(host) && (apiKey.Some? ==> Trim(apiKey.value) == apiKey.value)
    ensures NormalizeInstance(Record(name, host, apiKey, enabled), index)
         == Success(Instance(name, host, if apiKey.Some? then apiKey.value else "",
                             if enabled.Some? then enabled.value else true, None))
  {
    var v := Record(name, host, apiKey, enabled);
    RecordProperties(name, host, apiKey, enabled);
    TrimmedRead(v, "host", host);
    TrimmedRead(v, "name", name);
    assert HostOf(v) == Some(host);
    assert NameOf(v, index) == name;
    assert ApiKeyOf(v) == if apiKey.Some? then apiKey.value else "";
    assert EnabledOf(v) == if enabled.Some? then enabled.value else true;
    assert NormalizeRuleOverrides(Prop(v, "rules")) == None;
  }

  /** One entry of an instance list as a configuration writes it: clean
      texts, a key, and an optional `enabled`. */
  datatype Entry = Entry(name: string, host: string, apiKey: string, enabled: Option<bool>)

  predicate CleanEntry(e: Entry) {
    Clean(e.name) && Clean(e.host) && Clean(e.apiKey)
  }

  function EntryRecord(e: Entry): Value {
    Record(e.name, e.host, Some(e.apiKey), e.enabled)
  }

  /** The instance an entry should load as: its own texts, enabled unless it
      says otherwise, no overrides. */
  function Expected(e: Entry): Instance {
    Instance(e.name, e.host, e.apiKey, if e.enabled.Some? then e.enabled.value else true, None)
  }

  /** Instances given in `SONARR_INSTANCES`, each with a key, are loaded in
      order with their own names, hosts, keys and switches. The two-instance
      list of the configuration tests, the second one switched off, is the
      case `|entries| == 2`. */
  lemma EnvironmentListLoaded(env: Env, parseJson: string -> Option<Value>, readFile: string -> FileSource,
                              items: seq<Value>, entries: seq<Entry>)
    requires Provided(env, "SONARR_INSTANCES") && parseJson(env["SONARR_INSTANCES"]) == Some(VArr(items))
    requires |entries| > 0 && |items| == |entries|
    requires forall j :: 0 <= j < |entries| ==> CleanEntry(entries[j]) && items[j] == EntryRecord(entries[j])
    ensures LoadConfig(env, parseJson, readFile).Success?
    ensures var loaded := LoadConfig(env, parseJson, readFile).value.sonarrInstances;
      && |loaded| == |entries|
      && forall j :: 0 <= j < |entries| ==> loaded[j] == Expected(entries[j])
  {
    EntriesNormalize(items, entries);
    var loaded := NormalizeList(items).value;
    ExpectedKeyed(entries, loaded);
    EnvListWins(env, parseJson, readFile, items);
  }

  /** Without instances in the environment, entries with keys given in the
      instance file, JSON or YAML alike, are loaded in order with their own
      names, hosts, keys and switches. */
  lemma FileListLoaded(env: Env, parseJson: string -> Option<Value>, readFile: string -> FileSource,
                       items: seq<Value>, entries: seq<Entry>)
    requires !Provided(env, "SONARR_INSTANCES")
    requires Provided(env, "SONARR_INSTANCES_FILE") && readFile(env["SONARR_INSTANCES_FILE"]) == FileParsed(VArr(items))
    requires |entries| > 0 && |items| == |entries|
    requires forall j :: 0 <= j < |entries| ==> CleanEntry(entries[j]) && items[j] == EntryRecord(entries[j])
    ensures LoadConfig(env, parseJson, readFile).Success?
    ensures var loaded := LoadConfig(env, parseJson, readFile).value.sonarrInstances;
      && |loaded| == |entries|
      && forall j :: 0 <= j < |entries| ==> loaded[j] == Expected(entries[j])
  {
    EntriesNormalize(items, entries);
    var loaded := NormalizeList(items).value;
    ExpectedKeyed(entries, loaded);
    FileListWins(env, parseJson, readFile, items);
  }

  /** Instances loaded from clean entries all carry a key. */
  lemma ExpectedKeyed(entries: seq<Entry>, loaded: seq<Instance>)
    requires |loaded| == |entries|
    requires forall j :: 0 <= j < |entries| ==> CleanEntry(entries[j]) && loaded[j] == Expected(entries[j])
    ensures forall k :: 0 <= k < |loaded| ==> !loaded[k].enabled || loaded[k].apiKey != ""
  {
  }

  /** Each clean entry normalises to its expected instance, so the list does. */
  lemma EntriesNormalize(items: seq<Value>, entries: seq<Entry>)
    requires |items| == |entries|
    requires forall j :: 0 <= j < |entries| ==> CleanEntry(entries[j]) && items[j] == EntryRecord(entries[j])
    ensures NormalizeList(items).Success?
    ensures forall j :: 0 <= j < |entries| ==> NormalizeList(items).value[j] == Expected(entries[j])
  {
    forall j | 0 <= j < |items|
      ensures NormalizeInstance(items[j], j) == Success(Expected(entries[j]))
    {
      var e := entries[j];
      RecordNormalizes(e.name, e.host, Some(e.apiKey), e.enabled, j);
    }
  }

  /** An entry of `SONARR_INSTANCES` without an API key is enabled, so it
      stops the load. */
  lemma InstanceWithoutKeyRejected(env: Env, parseJson: string -> Option<Value>, readFile: string -> FileSource,
                                   items: seq<Value>, k: nat, name: string, host: string)
    requires Provided(env, "SONARR_INSTANCES") && parseJson(env["SONARR_INSTANCES"]) == Some(VArr(items))
    requires forall j :: 0 <= j < |items| ==> items[j].VObj? && Prop(items[j], "host").VStr? && !IsBlank(Prop(items[j], "host").s)
    requires k < |items| && items[k] == Record(name, host, None, None) && Clean(name) && Clean(host)
    ensures LoadConfig(env, parseJson, readFile) == Failure(MissingApiKey)
  {
    KeylessEntryNormalizes(items, k, name, host);
    EnvListWins(env, parseJson, readFile, items);
    KeylessRejected(env, NormalizeList(items).value, k);
  }

  /** In a list of records with hosts, the keyless record normalises to an
      enabled instance without a key. */
  lemma KeylessEntryNormalizes(items: seq<Value>, k: nat, name: string, host: string)
    requires forall j :: 0 <= j < |items| ==> items[j].VObj? && Prop(items[j], "host").VStr? && !IsBlank(Prop(items[j], "host").s)
    requires k < |items| && items[k] == Record(name, host, None, None) && Clean(name) && Clean(host)
    ensures NormalizeList(items).Success? && k < |NormalizeList(items).value|
    ensures NormalizeList(items).value[k] == Instance(name, host, "", true, None)
  {
    HostedListNormalizes(items);
    RecordNormalizes(name, host, None, None, k);
  }

  /** A list of objects that all carry a non-blank string host normalises. */
  lemma HostedListNormalizes(items: seq<Value>)
    requires forall j :: 0 <= j < |items| ==> items[j].VObj? && Prop(items[j], "host").VStr? && !IsBlank(Prop(items[j], "host").s)
    ensures NormalizeList(items).Success?
  {
    forall j | 0 <= j < |items|
      ensures NormalizeInstance(items[j], j).Success?
    {
      assert HostOf(items[j]).Some?;
    }
  }

  /** A list with an enabled instance lacking a key fails validation. */
  lemma KeylessRejected(env: Env, list: seq<Instance>, k: nat)
    requires k < |list| && list[k].enabled && list[k].apiKey == ""
    ensures Settle(env, list) == Failure(MissingApiKey)
  {
  }

  /** The legacy variables alone give one enabled instance named "Primary
      Sonarr" with the given host and key. */
  lemma LegacyVariablesLoaded(env: Env, parseJson: string -> Option<Value>, readFile: string -> FileSource)
    requires !Provided(env, "SONARR_INSTANCES") && !Provided(env, "SONARR_INSTANCES_FILE")
    requires "SONARR_HOST" in env && Clean(env["SONARR_HOST"])
    requires "SONARR_API_KEY" in env && Clean(env["SONARR_API_KEY"])
    ensures LoadConfig(env, parseJson, readFile).Success?
    ensures LoadConfig(env, parseJson, readFile).value.sonarrInstances
         == [Instance("Primary Sonarr", env["SONARR_HOST"], env["SONARR_API_KEY"], true, None)]
  {
    assert Provided(env, "SONARR_HOST");
    LegacyFallback(env, parseJson, readFile);
    var inst := LoadLegacyInstance(env);
    assert inst == Instance("Primary Sonarr", env["SONARR_HOST"], env["SONARR_API_KEY"], true, None);
    assert LoadConfig(env, parseJson, readFile) == Settle(env, [inst]);
  }
}
