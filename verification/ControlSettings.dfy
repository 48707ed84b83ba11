/**
 * The settings of the control panel: a patch is written to a store of strings, field by
 * field, and the settings are read back through validating parsers.
 */
module ControlSettings {
  import opened Wrappers
  import opened Decimals

  datatype LogonWakeMode = TriggeredRecognition | BackgroundSilentRecognition

  datatype Settings = Settings(
    presenceLockEnabled: bool,
    intruderSnapEnabled: bool,
    logonWakeMode: Option<LogonWakeMode>,
    logonFaceMatchThreshold: real,
    intruderSimilarityThreshold: real)

  datatype Patch = Patch(
    presenceLockEnabled: Option<bool>,
    intruderSnapEnabled: Option<bool>,
    logonWakeMode: Option<LogonWakeMode>,
    logonFaceMatchThreshold: Option<real>,
    intruderSimilarityThreshold: Option<real>)

  /** The names under which the values are stored. */
  datatype Name = PresenceLockEnabled | IntruderSnapEnabled | WakeMode | AutoWakeOnAdvise | MatchThreshold | IntruderSimilarity

  type Values = map<Name, string>

  datatype ControlStatusError = SettingsUnavailable | SettingsPersistenceFailed(message: string)

  const DEFAULT_LOGON_FACE_MATCH_THRESHOLD: real := 0.65
  const DEFAULT_INTRUDER_SIMILARITY_THRESHOLD: real := 0.30

  predicate IsValidLogonFaceMatchThreshold(threshold: real) {
    0.30 <= threshold <= 0.90
  }

  predicate IsValidIntruderSimilarityThreshold(threshold: real) {
    0.10 <= threshold <= 0.60
  }

  // ----- strings -----

  predicate IsWhitespace(c: char) {
    || '\t' <= c <= '\r' || c == ' ' || c == '\U{85}' || c == '\U{A0}' || c == '\U{1680}' || '\U{2000}' <= c <= '\U{200A}'
    || c == '\U{2028}' || c == '\U{2029}' || c == '\U{202F}' || c == '\U{205F}' || c == '\U{3000}'
  }

  function Trim(s: string): string {
    if s != [] && IsWhitespace(s[0]) then Trim(s[1..])
    else if s != [] && IsWhitespace(s[|s| - 1]) then Trim(s[..|s| - 1])
    else s
  }

  function ToLower(c: char): char {
    if 'A' <= c <= 'Z' then c - 'A' + 'a' else c
  }

  function ToAsciiLowercase(s: string): string {
    seq(|s|, i requires 0 <= i < |s| => ToLower(s[i]))
  }

  function ParseRegistryBool(value: string): Option<bool> {
    var text := ToAsciiLowercase(Trim(value));
    if text in ["1", "true", "yes", "enabled"] then Some(true)
    else if text in ["0", "false", "no", "disabled"] then Some(false)
    else None
  }

  function BoolRegistryValue(value: bool): string {
    if value then "true" else "false"
  }

  function LogonWakeModeRegistryValue(mode: LogonWakeMode): string {
    match mode
    case TriggeredRecognition => "triggered-recognition"
    case BackgroundSilentRecognition => "background-silent-recognition"
  }

  function ParseLogonWakeMode(value: string): Option<LogonWakeMode> {
    var text := Trim(value);
    if text in ["triggered-recognition", "triggered_recognition", "input-triggered", "input_triggered"] then Some(TriggeredRecognition)
    else if text in ["background-silent-recognition", "background_silent_recognition", "background-policy", "background_policy", "hybrid"]
    then Some(BackgroundSilentRecognition)
    else None
  }

  // ----- thresholds -----

  /** Reads a floating point number; nothing for text that is not one, or not a finite one. */
  type FloatParser = string -> Option<real>

  /** The nearest thousandth, and the even one of two that are equally near. */
  function Thousandths(t: real): int {
    var below := (t * 1000.0).Floor;
    var rest := t * 1000.0 - below as real;
    if rest < 0.5 || (rest == 0.5 && below % 2 == 0) then below else below + 1
  }

  /** A number below ten thousand thousandths with three decimals. */
  function ThreeDecimals(n: nat): string
    requires n < 10000
  {
    [DigitChar(n / 1000), '.', DigitChar(n / 100 % 10), DigitChar(n / 10 % 10), DigitChar(n % 10)]
  }

  /** Parsing gives back what printing with three decimals stands for. */
  ghost predicate ReadsDecimals(parse: FloatParser) {
    forall n: nat {:trigger ThreeDecimals(n)} :: n < 10000 ==> parse(ThreeDecimals(n)) == Some(n as real / 1000.0)
  }

  /** What is left of a threshold that was written and read back. */
  function Rounded(t: real): real {
    Thousandths(t) as real / 1000.0
  }

  lemma RoundedIsNear(t: real)
    ensures t - 0.0005 <= Rounded(t) <= t + 0.0005
    ensures Rounded(t) == t - 0.0005 || Rounded(t) == t + 0.0005 ==> Thousandths(t) % 2 == 0
  {
  }

  /** Rounding never leaves a range whose bounds are thousandths. */
  lemma RoundedStaysInRange(t: real, low: int, high: int)
    requires low as real / 1000.0 <= t <= high as real / 1000.0
    ensures low <= Thousandths(t) <= high
  {
    var below := (t * 1000.0).Floor;
    assert low <= below <= high;
    if below == high {
      assert t * 1000.0 - below as real == 0.0;
    }
  }

  function Printed(t: real): string
    requires 0.0 <= t <= 1.0
  {
    RoundedStaysInRange(t, 0, 1000);
    ThreeDecimals(Thousandths(t))
  }

  // ----- loading -----

  function ValueOf(values: Values, name: Name): Option<string> {
    if name in values then Some(values[name]) else None
  }

  function BoolAt(values: Values, name: Name): bool {
    match ValueOf(values, name)
    case None => false
    case Some(text) => ParseRegistryBool(text) == Some(true)
  }

  function ThresholdAt(parse: FloatParser, values: Values, name: Name, low: real, high: real, fallback: real): real {
    match ValueOf(values, name)
    case None => fallback
    case Some(text) =>
      match parse(Trim(text))
      case Some(threshold) => if low <= threshold <= high then threshold else fallback
      case None => fallback
  }

  /** The stored wake mode; an older switch counts if there is none, unless it cannot be read. */
  function WakeModeAt(values: Values, unreadable: set<Name>): Option<LogonWakeMode> {
    var mode := match ValueOf(values, WakeMode) case None => None case Some(text) => ParseLogonWakeMode(text);
    if mode.Some? then mode
    else if AutoWakeOnAdvise !in unreadable && BoolAt(values, AutoWakeOnAdvise) then Some(TriggeredRecognition)
    else None
  }

  function SettingsIn(parse: FloatParser, values: Values, unreadable: set<Name>): Settings {
    Settings(BoolAt(values, PresenceLockEnabled), BoolAt(values, IntruderSnapEnabled), WakeModeAt(values, unreadable),
             ThresholdAt(parse, values, MatchThreshold, 0.30, 0.90, DEFAULT_LOGON_FACE_MATCH_THRESHOLD),
             ThresholdAt(parse, values, IntruderSimilarity, 0.10, 0.60, DEFAULT_INTRUDER_SIMILARITY_THRESHOLD))
  }

  const NEEDED: set<Name> := {PresenceLockEnabled, IntruderSnapEnabled, WakeMode, MatchThreshold, IntruderSimilarity}

  function LoadControlSettings(parse: FloatParser, values: Values, unreadable: set<Name>): Result<Settings, ControlStatusError> {
    if unreadable * NEEDED != {} then Err(SettingsUnavailable) else Ok(SettingsIn(parse, values, unreadable))
  }

  /** Whatever the store holds, loaded thresholds are in range. */
  lemma LoadedThresholdsAreInRange(parse: FloatParser, values: Values, unreadable: set<Name>)
    ensures var loaded := LoadControlSettings(parse, values, unreadable);
            loaded.Ok? ==>
              && IsValidLogonFaceMatchThreshold(loaded.value.logonFaceMatchThreshold)
              && IsValidIntruderSimilarityThreshold(loaded.value.intruderSimilarityThreshold)
  {
  }

  /** Blanks around a text are dropped, whatever it is. */
  lemma {:induction false} TrimDropsBlanks(left: string, s: string, right: string)
    requires s != [] && !IsWhitespace(s[0]) && !IsWhitespace(s[|s| - 1])
    requires (forall i :: 0 <= i < |left| ==> IsWhitespace(left[i])) && (forall i :: 0 <= i < |right| ==> IsWhitespace(right[i]))
    ensures Trim(left + s + right) == s
  {
    var text := left + s + right;
    if left != [] {
      assert text[0] == left[0] && text[1..] == left[1..] + s + right;
      TrimDropsBlanks(left[1..], s, right);
    } else {
      assert text == s + right && text[0] == s[0];
      if right != [] {
        assert text[|text| - 1] == right[|right| - 1] && text[..|text| - 1] == [] + s + right[..|right| - 1];
        TrimDropsBlanks([], s, right[..|right| - 1]);
      } else {
        assert text == s;
      }
    }
  }

  /** Blanks only. */
  predicate IsBlank(s: string) {
    forall i :: 0 <= i < |s| ==> IsWhitespace(s[i])
  }

  /** Which words switch on and off and which name a mode, with any blanks around them. */
  lemma WhichWordsAreRead(left: string, word: string, right: string)
    requires IsBlank(left) && IsBlank(right) && word != [] && !IsWhitespace(word[0]) && !IsWhitespace(word[|word| - 1])
    ensures var text, lowered := left + word + right, ToAsciiLowercase(word);
            && (ParseRegistryBool(text) == Some(true) <==> lowered in {"1", "true", "yes", "enabled"})
            && (ParseRegistryBool(text) == Some(false) <==> lowered in {"0", "false", "no", "disabled"})
            && (word in {"triggered-recognition", "triggered_recognition", "input-triggered", "input_triggered"} ==>
                  ParseLogonWakeMode(text) == Some(TriggeredRecognition))
            && (word in {"background-silent-recognition", "background_silent_recognition", "background-policy",
                         "background_policy", "hybrid"} ==>
                  ParseLogonWakeMode(text) == Some(BackgroundSilentRecognition))
  {
    hide ToAsciiLowercase;
    TrimDropsBlanks(left, word, right);
  }

  /**
   * The older switch counts only where no wake mode can be read; when it is on it stands for
   * triggered recognition, and when it is off, missing or unreadable, for no mode at all.
   */
  lemma WhatTheOlderSwitchMeans(parse: FloatParser, values: Values, unreadable: set<Name>)
    requires LoadControlSettings(parse, values, unreadable).Ok?
    ensures var mode := LoadControlSettings(parse, values, unreadable).value.logonWakeMode;
            var isOn := AutoWakeOnAdvise in values && AutoWakeOnAdvise !in unreadable
                        && ParseRegistryBool(values[AutoWakeOnAdvise]) == Some(true);
            if WakeMode in values && ParseLogonWakeMode(values[WakeMode]).Some?
            then mode == ParseLogonWakeMode(values[WakeMode])
            else mode == if isOn then Some(TriggeredRecognition) else None
  {
    hide ParseRegistryBool, ParseLogonWakeMode;
  }

  /** Loading fails exactly when a value other than the older switch cannot be read. */
  lemma OnlyTheOlderSwitchMayBeUnreadable(parse: FloatParser, values: Values, unreadable: set<Name>)
    ensures LoadControlSettings(parse, values, unreadable).Err? <==> exists name :: name in unreadable && name != AutoWakeOnAdvise
  {
    if name :| name in unreadable && name != AutoWakeOnAdvise {
      assert name in unreadable * NEEDED;
    } else {
      assert unreadable * NEEDED == {};
    }
  }

  /** An empty store means: both switches off, no wake mode, and the two thresholds at 0.65 and 0.30. */
  lemma WhatAnEmptyStoreMeans(parse: FloatParser)
    ensures LoadControlSettings(parse, map[], {}) == Ok(Settings(false, false, None, 0.65, 0.30))
  {
  }

  // ----- writing a patch -----

  predicate MatchFits(patch: Patch) {
    patch.logonFaceMatchThreshold.Some? ==> IsValidLogonFaceMatchThreshold(patch.logonFaceMatchThreshold.value)
  }

  predicate IntruderFits(patch: Patch) {
    patch.intruderSimilarityThreshold.Some? ==> IsValidIntruderSimilarityThreshold(patch.intruderSimilarityThreshold.value)
  }

  /** The first fields of a patch, as far as validation lets them be written. */
  function Writable(patch: Patch): Patch {
    if !MatchFits(patch) then patch.(logonFaceMatchThreshold := None, intruderSimilarityThreshold := None)
    else if !IntruderFits(patch) then patch.(intruderSimilarityThreshold := None)
    else patch
  }

  function Put(values: Values, name: Name, text: Option<string>): Values {
    match text
    case None => values
    case Some(t) => values[name := t]
  }

  function PrintedBool(value: Option<bool>): Option<string> {
    match value
    case None => None
    case Some(b) => Some(BoolRegistryValue(b))
  }

  function PrintedMode(value: Option<LogonWakeMode>): Option<string> {
    match value
    case None => None
    case Some(mode) => Some(LogonWakeModeRegistryValue(mode))
  }

  function PrintedThreshold(value: Option<real>): Option<string>
    requires value.Some? ==> 0.0 <= value.value <= 1.0
  {
    match value
    case None => None
    case Some(t) => Some(Printed(t))
  }

  /** The store once all fields of a valid patch are written; a wake mode also sets the older switch. */
  function Written(values: Values, patch: Patch): Values
    requires MatchFits(patch) && IntruderFits(patch)
  {
    var v0 := Put(values, PresenceLockEnabled, PrintedBool(patch.presenceLockEnabled));
    var v1 := Put(v0, IntruderSnapEnabled, PrintedBool(patch.intruderSnapEnabled));
    var v2 := Put(v1, WakeMode, PrintedMode(patch.logonWakeMode));
    var v3 := Put(v2, AutoWakeOnAdvise, if patch.logonWakeMode.Some? then Some(BoolRegistryValue(true)) else None);
    var v4 := Put(v3, MatchThreshold, PrintedThreshold(patch.logonFaceMatchThreshold));
    Put(v4, IntruderSimilarity, PrintedThreshold(patch.intruderSimilarityThreshold))
  }

  /** Settings with the fields of a patch in place of their own; thresholds keep three decimals. */
  function Overlay(patch: Patch, settings: Settings): Settings {
    Settings(
      if patch.presenceLockEnabled.Some? then patch.presenceLockEnabled.value else settings.presenceLockEnabled,
      if patch.intruderSnapEnabled.Some? then patch.intruderSnapEnabled.value else settings.intruderSnapEnabled,
      if patch.logonWakeMode.Some? then patch.logonWakeMode else settings.logonWakeMode,
      if patch.logonFaceMatchThreshold.Some? then Rounded(patch.logonFaceMatchThreshold.value) else settings.logonFaceMatchThreshold,
      if patch.intruderSimilarityThreshold.Some? then Rounded(patch.intruderSimilarityThreshold.value)
      else settings.intruderSimilarityThreshold)
  }

  lemma TrimKeeps(s: string)
    requires s != [] && !IsWhitespace(s[0]) && !IsWhitespace(s[|s| - 1])
    ensures Trim(s) == s
  {
  }

  lemma BoolRoundTrip(b: bool)
    ensures ParseRegistryBool(BoolRegistryValue(b)) == Some(b)
  {
    var text := BoolRegistryValue(b);
    TrimKeeps(text);
    assert ToAsciiLowercase(text) == text;
  }

  lemma ModeRoundTrip(mode: LogonWakeMode)
    ensures ParseLogonWakeMode(LogonWakeModeRegistryValue(mode)) == Some(mode)
  {
    TrimKeeps(LogonWakeModeRegistryValue(mode));
    assert LogonWakeModeRegistryValue(TriggeredRecognition)[0] != LogonWakeModeRegistryValue(BackgroundSilentRecognition)[0];
  }

  lemma ThresholdRoundTrip(parse: FloatParser, t: real, low: int, high: int)
    requires ReadsDecimals(parse) && 0 <= low <= high <= 1000
    requires low as real / 1000.0 <= t <= high as real / 1000.0
    ensures parse(Trim(Printed(t))) == Some(Rounded(t))
    ensures low as real / 1000.0 <= Rounded(t) <= high as real / 1000.0
  {
    RoundedStaysInRange(t, low, high);
    TrimKeeps(Printed(t));
  }

  /** What is found under a name after a patch was written. */
  function After(values: Values, name: Name, text: Option<string>): Option<string> {
    if text.Some? then text else ValueOf(values, name)
  }

  lemma WhatIsWritten(values: Values, patch: Patch)
    requires MatchFits(patch) && IntruderFits(patch)
    ensures var written := Written(values, patch);
            && ValueOf(written, PresenceLockEnabled) == After(values, PresenceLockEnabled, PrintedBool(patch.presenceLockEnabled))
            && ValueOf(written, IntruderSnapEnabled) == After(values, IntruderSnapEnabled, PrintedBool(patch.intruderSnapEnabled))
            && ValueOf(written, WakeMode) == After(values, WakeMode, PrintedMode(patch.logonWakeMode))
            && (patch.logonWakeMode.None? ==> ValueOf(written, AutoWakeOnAdvise) == ValueOf(values, AutoWakeOnAdvise))
            && ValueOf(written, MatchThreshold) == After(values, MatchThreshold, PrintedThreshold(patch.logonFaceMatchThreshold))
            && ValueOf(written, IntruderSimilarity) ==
               After(values, IntruderSimilarity, PrintedThreshold(patch.intruderSimilarityThreshold))
  {
    hide ThreeDecimals, BoolRegistryValue, LogonWakeModeRegistryValue;
  }

  /** Writing a wake mode, either one, switches the older switch on, so that older readers see triggered recognition. */
  lemma OlderReadersSeeTriggered(values: Values, patch: Patch)
    requires MatchFits(patch) && IntruderFits(patch) && patch.logonWakeMode.Some?
    ensures var written := Written(values, patch);
            BoolAt(written, AutoWakeOnAdvise) && WakeModeAt(written - {WakeMode}, {}) == Some(TriggeredRecognition)
  {
    BoolRoundTrip(true);
    hide BoolRegistryValue, ParseRegistryBool, ParseLogonWakeMode, LogonWakeModeRegistryValue, Printed;
    assert Written(values, patch)[AutoWakeOnAdvise] == BoolRegistryValue(true);
  }

  lemma BoolIsOverlaid(values: Values, written: Values, name: Name, value: Option<bool>)
    requires ValueOf(written, name) == After(values, name, PrintedBool(value))
    ensures BoolAt(written, name) == if value.Some? then value.value else BoolAt(values, name)
  {
    hide ParseRegistryBool, BoolRegistryValue;
    if value.Some? {
      BoolRoundTrip(value.value);
    }
  }

  lemma ModeIsOverlaid(values: Values, written: Values, value: Option<LogonWakeMode>, unreadable: set<Name>)
    requires ValueOf(written, WakeMode) == After(values, WakeMode, PrintedMode(value))
    requires value.None? ==> ValueOf(written, AutoWakeOnAdvise) == ValueOf(values, AutoWakeOnAdvise)
    ensures WakeModeAt(written, unreadable) == if value.Some? then value else WakeModeAt(values, unreadable)
  {
    hide ParseRegistryBool, ParseLogonWakeMode, LogonWakeModeRegistryValue;
    if value.Some? {
      ModeRoundTrip(value.value);
    }
  }

  lemma ThresholdIsOverlaid(parse: FloatParser, values: Values, written: Values, name: Name, value: Option<real>,
                            low: int, high: int, fallback: real)
    requires ReadsDecimals(parse) && 0 <= low <= high <= 1000
    requires value.Some? ==> low as real / 1000.0 <= value.value <= high as real / 1000.0
    requires ValueOf(written, name) == After(values, name, PrintedThreshold(value))
    ensures ThresholdAt(parse, written, name, low as real / 1000.0, high as real / 1000.0, fallback) ==
            if value.Some? then Rounded(value.value)
            else ThresholdAt(parse, values, name, low as real / 1000.0, high as real / 1000.0, fallback)
  {
    hide Printed, Trim;
    if value.Some? {
      ThresholdRoundTrip(parse, value.value, low, high);
    }
  }

  /** Round trip: loading after a valid patch was written yields the old settings overlaid with it. */
  lemma PatchedSettingsAreOverlaid(parse: FloatParser, values: Values, patch: Patch, unreadable: set<Name>)
    requires ReadsDecimals(parse) && MatchFits(patch) && IntruderFits(patch)
    ensures SettingsIn(parse, Written(values, patch), unreadable) == Overlay(patch, SettingsIn(parse, values, unreadable))
  {
    hide Written, ValueOf, BoolAt, WakeModeAt, ThresholdAt, PrintedBool, PrintedMode, PrintedThreshold, Rounded, After;
    var written := Written(values, patch);
    WhatIsWritten(values, patch);
    BoolIsOverlaid(values, written, PresenceLockEnabled, patch.presenceLockEnabled);
    BoolIsOverlaid(values, written, IntruderSnapEnabled, patch.intruderSnapEnabled);
    ModeIsOverlaid(values, written, patch.logonWakeMode, unreadable);
    ThresholdIsOverlaid(parse, values, written, MatchThreshold, patch.logonFaceMatchThreshold, 300, 900,
                        DEFAULT_LOGON_FACE_MATCH_THRESHOLD);
    ThresholdIsOverlaid(parse, values, written, IntruderSimilarity, patch.intruderSimilarityThreshold, 100, 600,
                        DEFAULT_INTRUDER_SIMILARITY_THRESHOLD);
  }

  // ----- the update -----

  /** Every value is as it was, or as the written patch has it. */
  predicate Between(before: Values, now: Values, written: Values) {
    forall name: Name :: ValueOf(now, name) == ValueOf(before, name) || ValueOf(now, name) == ValueOf(written, name)
  }

  /** The store of strings; some names cannot be written, or not be read. */
  class SettingsSource {
    var values: Values
    const unwritable: set<Name>
    const unreadable: set<Name>

    constructor (values: Values, unwritable: set<Name>, unreadable: set<Name>)
      ensures this.values == values && this.unwritable == unwritable && this.unreadable == unreadable
    {
      this.values, this.unwritable, this.unreadable := values, unwritable, unreadable;
    }

    method Write(name: Name, text: string) returns (r: Result<(), ControlStatusError>)
      modifies this
      ensures if name in unwritable then r == Err(SettingsPersistenceFailed("")) && values == old(values)
              else r == Ok(()) && values == old(values)[name := text]
    {
      if name in unwritable {
        return Err(SettingsPersistenceFailed(""));
      }
      values := values[name := text];
      return Ok(());
    }

    /** Writes the two switches and the wake mode, with which the older switch is set. */
    method WriteModes(patch: Patch) returns (r: Result<(), ControlStatusError>)
      modifies this
      ensures r.Ok? ==> values == Written(old(values), OnlyModes(patch))
      ensures r.Err? ==> exists name :: name in unwritable
      ensures Between(old(values), values, Written(old(values), OnlyModes(patch)))
    {
      hide BoolRegistryValue, LogonWakeModeRegistryValue, Printed;
      if patch.presenceLockEnabled.Some? {
        var _ :- Write(PresenceLockEnabled, BoolRegistryValue(patch.presenceLockEnabled.value));
      }
      if patch.intruderSnapEnabled.Some? {
        var _ :- Write(IntruderSnapEnabled, BoolRegistryValue(patch.intruderSnapEnabled.value));
      }
      if patch.logonWakeMode.Some? {
        var _ :- Write(WakeMode, LogonWakeModeRegistryValue(patch.logonWakeMode.value));
        var _ :- Write(AutoWakeOnAdvise, BoolRegistryValue(true));
      }
      return Ok(());
    }

    /** Writes the thresholds, each of them only if it is valid. */
    method WriteThresholds(patch: Patch) returns (r: Result<(), ControlStatusError>)
      modifies this
      ensures r.Ok? ==> MatchFits(patch) && IntruderFits(patch) && values == Written(old(values), OnlyThresholds(patch))
      ensures Between(old(values), values, Written(old(values), OnlyThresholds(Writable(patch))))
      ensures unwritable == {} ==>
                && values == Written(old(values), OnlyThresholds(Writable(patch)))
                && (!MatchFits(patch) ==> r == Err(SettingsPersistenceFailed(MATCH_RANGE)))
                && (MatchFits(patch) && !IntruderFits(patch) ==> r == Err(SettingsPersistenceFailed(INTRUDER_RANGE)))
                && (MatchFits(patch) && IntruderFits(patch) ==> r.Ok?)
    {
      hide Printed;
      if patch.logonFaceMatchThreshold.Some? {
        var threshold := patch.logonFaceMatchThreshold.value;
        if !IsValidLogonFaceMatchThreshold(threshold) {
          return Err(SettingsPersistenceFailed(MATCH_RANGE));
        }
        var _ :- Write(MatchThreshold, Printed(threshold));
      }
      if patch.intruderSimilarityThreshold.Some? {
        var threshold := patch.intruderSimilarityThreshold.value;
        if !IsValidIntruderSimilarityThreshold(threshold) {
          return Err(SettingsPersistenceFailed(INTRUDER_RANGE));
        }
        var _ :- Write(IntruderSimilarity, Printed(threshold));
      }
      return Ok(());
    }

    /**
     * Writes a patch and loads the settings again.  An invalid threshold ends the update when
     * its turn comes, with the fields before it already written.
     */
    method UpdateControlSettings(parse: FloatParser, patch: Patch) returns (r: Result<Settings, ControlStatusError>)
      modifies this
      ensures r.Ok? ==>
                && MatchFits(patch) && IntruderFits(patch)
                && values == Written(old(values), patch) && r == LoadControlSettings(parse, values, unreadable)
      ensures Between(old(values), values, Written(old(values), Writable(patch)))
      ensures unwritable == {} ==>
                && values == Written(old(values), Writable(patch))
                && (!MatchFits(patch) ==> r == Err(SettingsPersistenceFailed(MATCH_RANGE)))
                && (MatchFits(patch) && !IntruderFits(patch) ==> r == Err(SettingsPersistenceFailed(INTRUDER_RANGE)))
                && (MatchFits(patch) && IntruderFits(patch) ==> r == LoadControlSettings(parse, values, unreadable))
    {
      hide Written, Between, LoadControlSettings;
      ghost var before := values;
      ModesComeFirst(before, values, patch);
      var modes := WriteModes(patch);
      ModesComeFirst(before, values, patch);
      if modes.Err? {
        return Err(modes.error);
      }
      var thresholds := WriteThresholds(patch);
      ThresholdsComeSecond(before, values, patch);
      if thresholds.Err? {
        return Err(thresholds.error);
      }
      return LoadControlSettings(parse, values, unreadable);
    }

    /**
     * The update as the service offers it: a patch without fields or with an invalid
     * threshold is refused before anything is written.
     */
    method UpdateSettings(parse: FloatParser, patch: Patch) returns (r: Result<Settings, UpdateRefused>)
      modifies this
      ensures !(HasUpdates(patch) && HasValidValues(patch)) ==> r == Err(InvalidPatch) && values == old(values)
      ensures HasUpdates(patch) && HasValidValues(patch) ==>
                && r != Err(InvalidPatch) && Between(old(values), values, Written(old(values), patch))
                && (unwritable == {} ==>
                      && values == Written(old(values), patch)
                      && r == if unreadable * NEEDED == {} then Ok(SettingsIn(parse, values, unreadable))
                              else Err(UpdateFailed(SettingsUnavailable)))
    {
      hide Written, Between, SettingsIn;
      if !HasUpdates(patch) || !HasValidValues(patch) {
        return Err(InvalidPatch);
      }
      var updated := UpdateControlSettings(parse, patch);
      match updated
      case Ok(settings) => return Ok(settings);
      case Err(error) => return Err(UpdateFailed(error));
    }
  }

  datatype UpdateRefused = InvalidPatch | UpdateFailed(error: ControlStatusError)

  predicate HasUpdates(patch: Patch) {
    || patch.presenceLockEnabled.Some? || patch.intruderSnapEnabled.Some? || patch.logonWakeMode.Some?
    || patch.logonFaceMatchThreshold.Some? || patch.intruderSimilarityThreshold.Some?
  }

  predicate HasValidValues(patch: Patch) {
    MatchFits(patch) && IntruderFits(patch)
  }

  /**
   * Behind that guard an update is all or nothing as far as validation goes: either the patch
   * is refused and the settings stay, or they become the old ones overlaid with all of it.
   */
  lemma GuardedUpdateIsAllOrNothing(parse: FloatParser, before: Values, after: Values, patch: Patch, unreadable: set<Name>)
    requires ReadsDecimals(parse)
    requires if HasUpdates(patch) && HasValidValues(patch) then after == Written(before, patch) else after == before
    ensures SettingsIn(parse, after, unreadable) ==
            if HasValidValues(patch) then Overlay(patch, SettingsIn(parse, before, unreadable))
            else SettingsIn(parse, before, unreadable)
  {
    hide ReadsDecimals, BoolAt, WakeModeAt, ThresholdAt, Rounded;
    if HasValidValues(patch) {
      PatchedSettingsAreOverlaid(parse, before, patch, unreadable);
    }
  }

  lemma ModesComeFirst(before: Values, now: Values, patch: Patch)
    requires Between(before, now, Written(before, OnlyModes(patch))) || now == before
    ensures Between(before, now, Written(before, Writable(patch)))
  {
    hide Printed, BoolRegistryValue, LogonWakeModeRegistryValue;
  }

  lemma ThresholdsComeSecond(before: Values, now: Values, patch: Patch)
    requires var modes := Written(before, OnlyModes(patch)); Between(modes, now, Written(modes, OnlyThresholds(Writable(patch))))
    ensures Between(before, now, Written(before, Writable(patch)))
    ensures Written(Written(before, OnlyModes(patch)), OnlyThresholds(Writable(patch))) == Written(before, Writable(patch))
  {
    hide Printed, BoolRegistryValue, LogonWakeModeRegistryValue;
  }

  const MATCH_RANGE: string := "logon face match threshold must be between 0.30 and 0.90"
  const INTRUDER_RANGE: string := "intruder similarity threshold must be between 0.10 and 0.60"

  function OnlyModes(patch: Patch): Patch {
    patch.(logonFaceMatchThreshold := None, intruderSimilarityThreshold := None)
  }

  function OnlyThresholds(patch: Patch): Patch {
    patch.(presenceLockEnabled := None, intruderSnapEnabled := None, logonWakeMode := None)
  }

  /**
   * A patch that is refused when it is written directly may have taken effect: the settings are the old ones if and only if the
   * fields in front of the invalid threshold asked for nothing new.
   */
  lemma RefusedPatchIsPartlyWritten(parse: FloatParser, values: Values, patch: Patch, unreadable: set<Name>)
    requires ReadsDecimals(parse) && !(MatchFits(patch) && IntruderFits(patch))
    ensures var before := SettingsIn(parse, values, unreadable);
            SettingsIn(parse, Written(values, Writable(patch)), unreadable) == before <==> AsksNothingNew(Writable(patch), before)
  {
    PatchedSettingsAreOverlaid(parse, values, Writable(patch), unreadable);
  }

  /** Every field of the patch is missing or has the value that the settings have already. */
  predicate AsksNothingNew(patch: Patch, settings: Settings) {
    && patch.presenceLockEnabled in {None, Some(settings.presenceLockEnabled)}
    && patch.intruderSnapEnabled in {None, Some(settings.intruderSnapEnabled)}
    && patch.logonWakeMode in {None, settings.logonWakeMode}
    && (patch.logonFaceMatchThreshold.Some? ==> Rounded(patch.logonFaceMatchThreshold.value) == settings.logonFaceMatchThreshold)
    && (patch.intruderSimilarityThreshold.Some? ==>
          Rounded(patch.intruderSimilarityThreshold.value) == settings.intruderSimilarityThreshold)
  }

  /** Such a patch: a direct update is refused, and the presence lock is on afterwards. */
  lemma RefusedPatchExample(parse: FloatParser)
    requires ReadsDecimals(parse)
    ensures var patch := Patch(Some(true), None, None, Some(0.95), None);
            && !MatchFits(patch)
            && !SettingsIn(parse, map[], {}).presenceLockEnabled
            && SettingsIn(parse, Written(map[], Writable(patch)), {}).presenceLockEnabled
  {
    PatchedSettingsAreOverlaid(parse, map[], Writable(Patch(Some(true), None, None, Some(0.95), None)), {});
  }
}
