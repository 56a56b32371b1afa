/** Typed configuration of src/config.rs: reading the fields under their aliases, and
    validation. */
module Config {
  import opened Wrappers
  import opened Domain
  import opened Toml
  import Text
  import TomlRoundTrip

  datatype Config = Config(
    intervalSecs: u64,
    highWatermarkPercent: u8,
    targetWatermarkPercent: u8,
    minUnusedAgeDays: u64,
    maxDeletePerRunGb: u64,
    dryRun: bool,
    enabledBackends: seq<string>,
    protectedImages: seq<string>,
    protectedVolumes: seq<string>,
    protectedLabels: seq<string>,
    dockerHost: Option<string>,
    dockerContext: Option<string>)

  const DEFAULTS := Config(900, 85, 70, 30, 10, false, ["docker"], [], [], [], None, None)

  const INTERVAL := ["interval_secs", "runtime.interval_secs"]
  const HIGH := ["high_watermark_percent", "thresholds.high_watermark_percent", "watermarks.high_watermark_percent"]
  const TARGET := ["target_watermark_percent", "thresholds.target_watermark_percent", "watermarks.target_watermark_percent"]
  const MIN_AGE := ["min_unused_age_days", "cleanup.min_unused_age_days"]
  const MAX_DELETE := ["max_delete_per_run_gb", "cleanup.max_delete_per_run_gb"]
  const DRY_RUN := ["dry_run", "safety.dry_run", "runtime.dry_run"]
  const BACKENDS := ["enabled_backends", "backends.enabled_backends"]
  const IMAGES := ["protected_images", "allowlists.protected_images", "safety.protected_images"]
  const VOLUMES := ["protected_volumes", "allowlists.protected_volumes", "safety.protected_volumes"]
  const LABELS := ["protected_labels", "allowlists.protected_labels", "safety.protected_labels"]
  const HOST := ["docker_host", "docker.host"]
  const CONTEXT := ["docker_context", "docker.context"]
  const ALIASES := [INTERVAL, HIGH, TARGET, MIN_AGE, MAX_DELETE, DRY_RUN, BACKENDS, IMAGES, VOLUMES, LABELS, HOST, CONTEXT]

  type TomlMap = map<string, TomlValue>

  // ---------- one field under several names ----------

  /** The aliases that occur. */
  function Present(m: TomlMap, aliases: seq<string>): seq<string> {
    if aliases == [] then []
    else
      Present(m, aliases[..|aliases| - 1])
      + (if aliases[|aliases| - 1] in m then [aliases[|aliases| - 1]] else [])
  }

  lemma {:induction false} PresentOccurs(m: TomlMap, aliases: seq<string>)
    ensures forall k :: 0 <= k < |Present(m, aliases)| ==> Present(m, aliases)[k] in m
  {
    if aliases != [] {
      PresentOccurs(m, aliases[..|aliases| - 1]);
    }
  }

  function Single(m: TomlMap, aliases: seq<string>): Result<Option<TomlValue>, ConfigError> {
    PresentOccurs(m, aliases);
    var names := Present(m, aliases);
    if |names| == 0 then Ok(None)
    else if |names| == 1 then Ok(Some(m[names[0]]))
    else Err(ValidationError)
  }

  lemma {:induction false} PresentGrows(m: TomlMap, aliases: seq<string>, k: nat)
    requires k <= |aliases|
    ensures |Present(m, aliases[..k])| <= |Present(m, aliases)|
    decreases |aliases|
  {
    if k < |aliases| {
      assert aliases[..|aliases| - 1][..k] == aliases[..k];
      PresentGrows(m, aliases[..|aliases| - 1], k);
    } else {
      assert aliases[..k] == aliases;
    }
  }

  method FindSingle(m: TomlMap, aliases: seq<string>) returns (r: Result<Option<TomlValue>, ConfigError>)
    ensures r == Single(m, aliases)
  {
    var found: Option<TomlValue> := None;
    for i := 0 to |aliases|
      invariant Single(m, aliases[..i]) == Ok(found)
    {
      assert aliases[..i + 1][..i] == aliases[..i];
      if aliases[i] in m {
        if found.Some? {
          PresentGrows(m, aliases, i + 1);
          return Err(ValidationError);
        }
        found := Some(m[aliases[i]]);
      }
    }
    assert aliases[..|aliases|] == aliases;
    r := Ok(found);
  }

  function TakeU64(m: TomlMap, aliases: seq<string>, default: u64): Result<u64, ConfigError> {
    var found :- Single(m, aliases);
    match found
    case None => Ok(default)
    case Some(Integer(i)) => if i >= 0 then Ok(i) else Err(ValidationError)
    case Some(_) => Err(ValidationError)
  }

  function TakeU8(m: TomlMap, aliases: seq<string>, default: u8): Result<u8, ConfigError> {
    var value :- TakeU64(m, aliases, default);
    if value > 255 then Err(ValidationError) else Ok(value)
  }

  function TakeBool(m: TomlMap, aliases: seq<string>, default: bool): Result<bool, ConfigError> {
    var found :- Single(m, aliases);
    match found
    case None => Ok(default)
    case Some(Boolean(b)) => Ok(b)
    case Some(_) => Err(ValidationError)
  }

  function StringsOf(vs: seq<TomlValue>): Option<seq<string>> {
    if vs == [] then Some([])
    else
      var before := StringsOf(vs[..|vs| - 1]);
      if before.None? || !vs[|vs| - 1].Str? then None else Some(before.value + [vs[|vs| - 1].s])
  }

  function TakeStrings(m: TomlMap, aliases: seq<string>, default: seq<string>): Result<seq<string>, ConfigError> {
    var found :- Single(m, aliases);
    match found
    case None => Ok(default)
    case Some(Array(vs)) =>
      var strings := StringsOf(vs);
      if strings.None? then Err(ValidationError) else Ok(strings.value)
    case Some(_) => Err(ValidationError)
  }

  function TakeOptionalString(m: TomlMap, aliases: seq<string>, default: Option<string>)
    : Result<Option<string>, ConfigError>
  {
    var found :- Single(m, aliases);
    match found
    case None => Ok(default)
    case Some(Str(s)) => Ok(Some(s))
    case Some(_) => Err(ValidationError)
  }

  // ---------- the whole configuration ----------

  predicate IsKnownKey(key: string) {
    exists k | 0 <= k < |ALIASES| :: key in ALIASES[k]
  }

  predicate Blank(value: Option<string>) {
    value.Some? && Text.Trim(value.value) == ""
  }

  /** The guardrails, in the order they are checked. */
  predicate Validates(c: Config) {
    if c.intervalSecs == 0 then false
    else if c.highWatermarkPercent > 100 then false
    else if c.targetWatermarkPercent > 100 then false
    else if c.targetWatermarkPercent >= c.highWatermarkPercent then false
    else if Blank(c.dockerHost) then false
    else if Blank(c.dockerContext) then false
    else !(c.dockerHost.Some? && c.dockerContext.Some?)
  }

  function FromEntries(m: TomlMap): Result<Config, ConfigError> {
    var intervalSecs :- TakeU64(m, INTERVAL, DEFAULTS.intervalSecs);
    var high :- TakeU8(m, HIGH, DEFAULTS.highWatermarkPercent);
    var target :- TakeU8(m, TARGET, DEFAULTS.targetWatermarkPercent);
    var minAge :- TakeU64(m, MIN_AGE, DEFAULTS.minUnusedAgeDays);
    var maxDelete :- TakeU64(m, MAX_DELETE, DEFAULTS.maxDeletePerRunGb);
    var dryRun :- TakeBool(m, DRY_RUN, DEFAULTS.dryRun);
    var backends :- TakeStrings(m, BACKENDS, DEFAULTS.enabledBackends);
    var images :- TakeStrings(m, IMAGES, DEFAULTS.protectedImages);
    var volumes :- TakeStrings(m, VOLUMES, DEFAULTS.protectedVolumes);
    var labels :- TakeStrings(m, LABELS, DEFAULTS.protectedLabels);
    var host :- TakeOptionalString(m, HOST, DEFAULTS.dockerHost);
    var context :- TakeOptionalString(m, CONTEXT, DEFAULTS.dockerContext);
    var config := Config(intervalSecs, high, target, minAge, maxDelete, dryRun,
                         backends, images, volumes, labels, host, context);
    if exists key | key in m :: !IsKnownKey(key) then Err(UnknownKey)
    else if !Validates(config) then Err(ValidationError)
    else Ok(config)
  }

  function ParseStr(input: string): Result<Config, ConfigError> {
    var entries :- Entries(input);
    FromEntries(entries)
  }

  // ---------- what a set of entries stands for ----------

  /** The field is written under exactly one of its names, with this value; or under none
      of them, and the value is the default. */
  predicate FieldIs(m: TomlMap, aliases: seq<string>, written: Option<TomlValue>, isDefault: bool) {
    var single := Single(m, aliases);
    single.Ok? && (if single.value.Some? then single.value == written else isDefault)
  }

  function Number(n: u64): Option<TomlValue> {
    if n <= I64_MAX then Some(Integer(n)) else None
  }

  function Strings(ss: seq<string>): TomlValue {
    Array(seq(|ss|, i requires 0 <= i < |ss| => Str(ss[i])))
  }

  function OptionalStr(s: Option<string>): Option<TomlValue> {
    if s.Some? then Some(Str(s.value)) else None
  }

  predicate Represents(m: TomlMap, c: Config) {
    && FieldIs(m, INTERVAL, Number(c.intervalSecs), c.intervalSecs == DEFAULTS.intervalSecs)
    && FieldIs(m, HIGH, Number(c.highWatermarkPercent), c.highWatermarkPercent == DEFAULTS.highWatermarkPercent)
    && FieldIs(m, TARGET, Number(c.targetWatermarkPercent), c.targetWatermarkPercent == DEFAULTS.targetWatermarkPercent)
    && FieldIs(m, MIN_AGE, Number(c.minUnusedAgeDays), c.minUnusedAgeDays == DEFAULTS.minUnusedAgeDays)
    && FieldIs(m, MAX_DELETE, Number(c.maxDeletePerRunGb), c.maxDeletePerRunGb == DEFAULTS.maxDeletePerRunGb)
    && FieldIs(m, DRY_RUN, Some(Boolean(c.dryRun)), c.dryRun == DEFAULTS.dryRun)
    && FieldIs(m, BACKENDS, Some(Strings(c.enabledBackends)), c.enabledBackends == DEFAULTS.enabledBackends)
    && FieldIs(m, IMAGES, Some(Strings(c.protectedImages)), c.protectedImages == DEFAULTS.protectedImages)
    && FieldIs(m, VOLUMES, Some(Strings(c.protectedVolumes)), c.protectedVolumes == DEFAULTS.protectedVolumes)
    && FieldIs(m, LABELS, Some(Strings(c.protectedLabels)), c.protectedLabels == DEFAULTS.protectedLabels)
    && FieldIs(m, HOST, OptionalStr(c.dockerHost), c.dockerHost == DEFAULTS.dockerHost)
    && FieldIs(m, CONTEXT, OptionalStr(c.dockerContext), c.dockerContext == DEFAULTS.dockerContext)
    && forall key :: key in m ==> IsKnownKey(key)
  }

  /** The constraints a running daemon relies on. */
  predicate IsValid(c: Config) {
    && c.intervalSecs > 0
    && c.targetWatermarkPercent < c.highWatermarkPercent <= 100
    && (c.dockerHost.Some? ==> Text.Trim(c.dockerHost.value) != "" && c.dockerContext.None?)
    && (c.dockerContext.Some? ==> Text.Trim(c.dockerContext.value) != "")
  }

  lemma TakesNumber(m: TomlMap, aliases: seq<string>, default: u64, n: u64)
    ensures TakeU64(m, aliases, default) == Ok(n) <==> FieldIs(m, aliases, Number(n), n == default)
  {
    hide Single;
  }

  lemma TakesSmallNumber(m: TomlMap, aliases: seq<string>, default: u8, n: u8)
    ensures TakeU8(m, aliases, default) == Ok(n) <==> FieldIs(m, aliases, Number(n), n == default)
  {
    hide Single;
    TakesNumber(m, aliases, default, n);
  }

  lemma TakesBool(m: TomlMap, aliases: seq<string>, default: bool, b: bool)
    ensures TakeBool(m, aliases, default) == Ok(b) <==> FieldIs(m, aliases, Some(Boolean(b)), b == default)
  {
    hide Single;
  }

  lemma {:induction false} StringsReadBack(vs: seq<TomlValue>, ss: seq<string>)
    ensures StringsOf(vs) == Some(ss) <==> Array(vs) == Strings(ss)
  {
    if vs == [] {
      assert ss == [] ==> Strings(ss).vs == [];
      assert Array(vs) == Strings(ss) ==> |ss| == 0;
    } else if ss == [] {
      assert Strings(ss).vs == [];
    } else {
      var v, front := vs[|vs| - 1], ss[..|ss| - 1];
      StringsReadBack(vs[..|vs| - 1], front);
      assert ss == front + [ss[|ss| - 1]];
      assert vs == vs[..|vs| - 1] + [v];
      assert Strings(ss).vs == Strings(front).vs + [Str(ss[|ss| - 1])];
      if StringsOf(vs) == Some(ss) {
        assert StringsOf(vs[..|vs| - 1]).value == front;
      }
    }
  }

  lemma TakesStrings(m: TomlMap, aliases: seq<string>, default: seq<string>, ss: seq<string>)
    ensures TakeStrings(m, aliases, default) == Ok(ss) <==> FieldIs(m, aliases, Some(Strings(ss)), ss == default)
  {
    hide Single, StringsOf, Strings;
    var single := Single(m, aliases);
    if single.Ok? && single.value.Some? && single.value.value.Array? {
      StringsReadBack(single.value.value.vs, ss);
    }
    StringsIsArray(ss);
  }

  lemma StringsIsArray(ss: seq<string>)
    ensures Strings(ss).Array?
  {
  }

  lemma TakesOptionalString(m: TomlMap, aliases: seq<string>, s: Option<string>)
    ensures TakeOptionalString(m, aliases, None) == Ok(s) <==> FieldIs(m, aliases, OptionalStr(s), s.None?)
  {
    hide Single;
  }

  lemma ValidationIsExact(c: Config)
    ensures Validates(c) <==> IsValid(c)
  {
  }

  /** Exactly the entries that represent a valid configuration are accepted, and as that
      configuration: no unknown key, no field under two names, no other reading. */
  lemma FromEntriesIsExact(m: TomlMap, c: Config)
    ensures FromEntries(m) == Ok(c) <==> Represents(m, c) && IsValid(c)
  {
    hide Single, TakeU64, TakeU8, TakeBool, TakeStrings, TakeOptionalString, FieldIs, IsKnownKey, Validates, IsValid;
    TakesNumber(m, INTERVAL, DEFAULTS.intervalSecs, c.intervalSecs);
    TakesSmallNumber(m, HIGH, DEFAULTS.highWatermarkPercent, c.highWatermarkPercent);
    TakesSmallNumber(m, TARGET, DEFAULTS.targetWatermarkPercent, c.targetWatermarkPercent);
    TakesNumber(m, MIN_AGE, DEFAULTS.minUnusedAgeDays, c.minUnusedAgeDays);
    TakesNumber(m, MAX_DELETE, DEFAULTS.maxDeletePerRunGb, c.maxDeletePerRunGb);
    TakesBool(m, DRY_RUN, DEFAULTS.dryRun, c.dryRun);
    TakesStrings(m, BACKENDS, DEFAULTS.enabledBackends, c.enabledBackends);
    TakesStrings(m, IMAGES, DEFAULTS.protectedImages, c.protectedImages);
    TakesStrings(m, VOLUMES, DEFAULTS.protectedVolumes, c.protectedVolumes);
    TakesStrings(m, LABELS, DEFAULTS.protectedLabels, c.protectedLabels);
    TakesOptionalString(m, HOST, c.dockerHost);
    TakesOptionalString(m, CONTEXT, c.dockerContext);
    ValidationIsExact(c);
  }

  /** Any document, with any sections, aliases, spacing and comments, parses to exactly the
      valid configuration its entries represent. */
  lemma DocumentIsReadExactly(doc: seq<TomlRoundTrip.DocLine>, c: Config)
    requires TomlRoundTrip.WellFormedDoc(doc)
    ensures ParseStr(TomlRoundTrip.PrintDoc(doc)) == Ok(c)
            <==> (&& ReadAll(TomlRoundTrip.Meanings(doc)).Ok?
                  && Represents(ReadAll(TomlRoundTrip.Meanings(doc)).value.entries, c)
                  && IsValid(c))
  {
    hide Represents, IsValid, FromEntries;
    TomlRoundTrip.DocumentRoundTrip(doc);
    var read := ReadAll(TomlRoundTrip.Meanings(doc));
    if read.Ok? {
      FromEntriesIsExact(read.value.entries, c);
    }
  }

  lemma EntriesBehind(input: string, c: Config) returns (m: TomlMap)
    requires ParseStr(input) == Ok(c)
    ensures Entries(input) == Ok(m) && FromEntries(m) == Ok(c)
  {
    hide Entries, FromEntries;
    m := Entries(input).value;
  }

  /** Nothing read leaves the defaults, and they are valid. */
  lemma EmptyTextIsDefault()
    ensures ParseStr("") == Ok(Config(900, 85, 70, 30, 10, false, ["docker"], [], [], [], None, None))
  {
    var c := Config(900, 85, 70, 30, 10, false, ["docker"], [], [], [], None, None);
    NothingToRead();
    FromEntriesIsExact(map[], c);
    NothingPresent();
  }

  lemma NothingToRead()
    ensures Entries("") == Ok(map[])
  {
  }

  lemma NothingPresent()
    ensures forall aliases: seq<string> {:trigger Single(map[], aliases)} :: Single(map[], aliases) == Ok(None)
  {
    forall aliases: seq<string> ensures Present(map[], aliases) == [] {
      NoneOf(aliases);
    }
  }

  lemma {:induction false} NoneOf(aliases: seq<string>)
    ensures Present(map[], aliases) == []
  {
    if aliases != [] {
      NoneOf(aliases[..|aliases| - 1]);
    }
  }
}
