/** Configured models: inference overrides are copied key by key, and an entry that may be edited loses nothing. */
module ModelConfig {
  import opened Wrappers
  import opened Json

  type Fields = map<string, Json>

  const MAX_TEXT: nat := 4096

  const LIMITED_KEYS: seq<string> := ["temperature", "top_p", "context_window"]
  const INFERENCE_KEYS: set<string> := {"temperature", "top_p", "context_window", "reasoning_effort", "model_hints"}
  const EFFORTS: set<string> := {"none", "low", "medium", "high", "max"}
  const HINT_BOOLEANS: seq<string> :=
    ["uses_completion_tokens", "fixed_temperature", "lacks_vision", "lacks_video", "retain_tool_images",
     "merge_system_messages"]
  const STYLE := "reasoning_style"
  const STYLES: set<string> :=
    {"none", "effort", "effort_and_thinking_toggle", "effort_max_only", "effort_low_high_max", "thinking_toggle"}
  const ROUTE_KEYS: set<string> := {"route_id", "label", "base_url", "api_key_env", "api_type"}
  const CONFIGURED_KEYS: set<string> :=
    {"provider", "model", "family_id", "model_id", "route", "route_id", "base_url", "api_key_env", "has_api_key",
     "selected", "available", "temperature", "top_p", "context_window", "reasoning_effort", "model_hints"}

  predicate IsHintKey(key: string) { key in HINT_BOOLEANS || key == STYLE }

  /** The part of a record under the given keys. */
  function Restrict(fields: Fields, keys: set<string>): Fields {
    map key | key in fields && key in keys :: fields[key]
  }

  // ---------------------------------------------------------------- which overrides are sound

  predicate WithinLimits(key: string, x: real) {
    if key == "context_window" then x.Floor as real == x && 1.0 <= x <= 4294967295.0
    else 0.0 <= x <= if key == "temperature" then 2.0 else 1.0
  }

  predicate SoundNumber(key: string, value: Json) {
    value.Null? || (value.Num? && value.n.Finite? && WithinLimits(key, value.n.value))
  }

  predicate SoundEffort(value: Json) {
    value.Null? || (value.Str? && value.s in EFFORTS)
  }

  predicate SoundHint(key: string, value: Json) {
    if key == STYLE then value.Str? && value.s in STYLES else key in HINT_BOOLEANS && value.Bool?
  }

  predicate SoundHints(value: Json) {
    value.Null? || (value.Obj? && forall key :: key in value.fields ==> SoundHint(key, value.fields[key]))
  }

  predicate SoundOverride(key: string, value: Json) {
    if key == "model_hints" then SoundHints(value)
    else if key == "reasoning_effort" then SoundEffort(value)
    else key in LIMITED_KEYS && SoundNumber(key, value)
  }

  predicate SoundOverrides(fields: Fields) {
    forall key :: key in fields ==> SoundOverride(key, fields[key])
  }

  // ---------------------------------------------------------------- the copying parsers

  /** The hint record, copied key by key. */
  method ParseHints(hints: Fields) returns (r: Option<Fields>)
    ensures r == if SoundHints(Obj(hints)) then Some(hints) else None
  {
    hide HINT_BOOLEANS, STYLE, STYLES;
    HintKeysAreDistinct();
    if exists key :: key in hints && !IsHintKey(key) {
      return None;
    }
    var parsed: Fields := map[];
    var i := 0;
    while i < |HINT_BOOLEANS|
      invariant 0 <= i <= |HINT_BOOLEANS|
      invariant parsed == Restrict(hints, set k | k in HINT_BOOLEANS[..i])
      invariant forall k :: k in parsed ==> SoundHint(k, parsed[k])
    {
      var key := HINT_BOOLEANS[i];
      assert HINT_BOOLEANS[..i + 1] == HINT_BOOLEANS[..i] + [key];
      i := i + 1;
      if key in hints {
        var item := hints[key];
        if !item.Bool? {
          assert !SoundHint(key, hints[key]);
          return None;
        }
        parsed := parsed[key := item];
      }
    }
    assert HINT_BOOLEANS[..i] == HINT_BOOLEANS;
    if STYLE in hints {
      var style := hints[STYLE];
      if !style.Str? || style.s !in STYLES {
        assert !SoundHint(STYLE, hints[STYLE]);
        return None;
      }
      parsed := parsed[STYLE := style];
    }
    assert parsed == hints;
    r := Some(parsed);
  }

  lemma HintKeysAreDistinct()
    ensures STYLE !in HINT_BOOLEANS
  {
  }

  lemma OverrideKeys()
    ensures |LIMITED_KEYS| == 3
    ensures "model_hints" !in LIMITED_KEYS && "reasoning_effort" !in LIMITED_KEYS && "model_hints" != "reasoning_effort"
    ensures forall key ::
              key in INFERENCE_KEYS <==> key in LIMITED_KEYS || key == "reasoning_effort" || key == "model_hints"
  {
  }

  const LIMITED: set<string> := set k | k in LIMITED_KEYS

  /** The three numeric overrides: the first loop of the parser. */
  method ParseLimited(fields: Fields) returns (r: Option<Fields>)
    ensures r == if forall key :: key in LIMITED_KEYS && key in fields ==> SoundNumber(key, fields[key])
                 then Some(Restrict(fields, LIMITED)) else None
  {
    var result: Fields := map[];
    var i := 0;
    while i < |LIMITED_KEYS|
      invariant 0 <= i <= |LIMITED_KEYS|
      invariant result == Restrict(fields, set k | k in LIMITED_KEYS[..i])
      invariant forall k :: k in LIMITED_KEYS[..i] && k in fields ==> SoundNumber(k, fields[k])
    {
      var key := LIMITED_KEYS[i];
      assert LIMITED_KEYS[..i + 1] == LIMITED_KEYS[..i] + [key];
      i := i + 1;
      if key !in fields {
        continue;
      }
      var item := fields[key];
      if item.Null? {
        result := result[key := Null];
        continue;
      }
      if !item.Num? || !item.n.Finite? || !WithinLimits(key, item.n.value) {
        return None;
      }
      result := result[key := item];
    }
    assert LIMITED_KEYS[..i] == LIMITED_KEYS;
    r := Some(result);
  }

  /** `parseLlmInferenceOverrides`: the result is built key by key, yet it is the input itself, or nothing. */
  method ParseOverrides(value: Json) returns (r: Option<Fields>)
    ensures r == if value.Obj? && SoundOverrides(value.fields) then Some(value.fields) else None
  {
    hide SoundNumber, SoundEffort, SoundHints, LIMITED_KEYS, INFERENCE_KEYS;
    OverrideKeys();
    if !value.Obj? {
      return None;
    }
    var fields := value.fields;
    if exists key :: key in fields && key !in INFERENCE_KEYS {
      return None;
    }
    var limited := ParseLimited(fields);
    if limited.None? {
      return None;
    }
    var result := limited.value;
    if "reasoning_effort" in fields {
      var item := fields["reasoning_effort"];
      if !SoundEffort(item) {
        return None;
      }
      result := result["reasoning_effort" := item];
    }
    if "model_hints" in fields {
      var hints := fields["model_hints"];
      HintsAreNullOrRecord(hints);
      if hints.Null? {
        result := result["model_hints" := Null];
      } else {
        if !hints.Obj? {
          return None;
        }
        var parsed := ParseHints(hints.fields);
        if parsed.None? {
          return None;
        }
        result := result["model_hints" := Obj(parsed.value)];
      }
    }
    assert result == fields;
    r := Some(result);
  }

  lemma HintsAreNullOrRecord(hints: Json)
    ensures hints.Null? ==> SoundHints(hints)
    ensures SoundHints(hints) ==> hints.Null? || hints.Obj?
  {
  }

  // ---------------------------------------------------------------- configured models

  datatype Configured = Configured(
    inference: Fields, familyId: string, modelId: string, route: map<string, string>, hasApiKey: bool, selected: bool,
    available: bool, editBlocked: bool)

  /** Absent, null and empty texts all count as not given. */
  predicate NotGiven(fields: Fields, key: string) {
    key !in fields || fields[key].Null? || fields[key] == Str("")
  }

  predicate Flag(fields: Fields, key: string) {
    key in fields && fields[key].Bool?
  }

  predicate ForeignHints(fields: Fields) {
    "model_hints" in fields && fields["model_hints"].Obj?
    && exists key :: key in fields["model_hints"].fields && !IsHintKey(key)
  }

  /** The five inference keys, with hints newer than this client removed. */
  function OfferedOverrides(fields: Fields): Fields {
    var own := Restrict(fields, INFERENCE_KEYS);
    if !ForeignHints(fields) then own
    else
      var hints := fields["model_hints"].fields;
      own["model_hints" := Obj(map key | key in hints && IsHintKey(key) :: hints[key])]
  }

  predicate EditBlocked(fields: Fields, route: Fields) {
    || ForeignHints(fields)
    || (exists key :: key in fields && key !in CONFIGURED_KEYS
                      && !((key == "cost_per_m" || key == "strong") && fields[key].Null?))
    || (exists key :: key in route && key !in ROUTE_KEYS)
  }

  function ParseConfigured(value: Json): Option<Configured> {
    match value
    case Obj(fields) =>
      (match Get(fields, "route")
       case Some(Obj(route)) =>
         var family, model :=
           ShortText(Get(fields, "family_id"), MAX_TEXT), ShortText(Get(fields, "model_id"), MAX_TEXT);
         if family.None? || model.None? || !Flag(fields, "has_api_key") || !Flag(fields, "selected")
            || !Flag(fields, "available")
         then None
         else if exists key :: key in ROUTE_KEYS && !NotGiven(route, key) && ShortText(Get(route, key), MAX_TEXT).None?
         then None
         else if !SoundOverrides(OfferedOverrides(fields)) then None
         else Some(Configured(
                     OfferedOverrides(fields), family.value, model.value,
                     map key | key in ROUTE_KEYS && !NotGiven(route, key) :: ShortText(Get(route, key), MAX_TEXT).value,
                     fields["has_api_key"].b, fields["selected"].b, fields["available"].b, EditBlocked(fields, route)))
       case _ => None)
    case _ => None
  }

  /**
   * The inference part equals the raw entry's five keys, null kept apart from absent, exactly when no hint was
   * foreign; and a foreign hint always blocks editing.
   */
  lemma InferenceIsLossless(value: Json)
    requires ParseConfigured(value).Some?
    ensures var m := ParseConfigured(value).value;
            && (m.inference == Restrict(value.fields, INFERENCE_KEYS) <==> !ForeignHints(value.fields))
            && (!m.editBlocked ==> m.inference == Restrict(value.fields, INFERENCE_KEYS))
            && SoundOverrides(m.inference)
  {
    var fields := value.fields;
    if ForeignHints(fields) {
      var key :| key in fields["model_hints"].fields && !IsHintKey(key);
      assert OfferedOverrides(fields)["model_hints"] != fields["model_hints"];
      assert "model_hints" in Restrict(fields, INFERENCE_KEYS);
    }
  }

  // ---------------------------------------------------------------- writing an entry back

  /** What the projection of an entry that may be edited can be. */
  predicate IsEditable(m: Configured) {
    && !m.editBlocked && SoundOverrides(m.inference)
    && IsShortText(m.familyId, MAX_TEXT) && IsShortText(m.modelId, MAX_TEXT)
    && m.route.Keys <= ROUTE_KEYS && forall key :: key in m.route ==> IsShortText(m.route[key], MAX_TEXT)
  }

  function EncodeRoute(m: Configured): Fields {
    map key | key in m.route :: Str(m.route[key])
  }

  function ConfiguredField(m: Configured, key: string): Option<Json> {
    match key
    case "family_id" => Some(Str(m.familyId))
    case "model_id" => Some(Str(m.modelId))
    case "route" => Some(Obj(EncodeRoute(m)))
    case "has_api_key" => Some(Bool(m.hasApiKey))
    case "selected" => Some(Bool(m.selected))
    case "available" => Some(Bool(m.available))
    case _ => if key in INFERENCE_KEYS then Get(m.inference, key) else None
  }

  function EncodeConfigured(m: Configured): (fields: Fields)
    ensures forall key :: key in CONFIGURED_KEYS ==> Get(fields, key) == ConfiguredField(m, key)
    ensures fields.Keys <= CONFIGURED_KEYS
  {
    map key | key in CONFIGURED_KEYS && ConfiguredField(m, key).Some? :: ConfiguredField(m, key).value
  }

  lemma ConfiguredFieldsRead(m: Configured)
    ensures var f := EncodeConfigured(m);
            && Get(f, "family_id") == Some(Str(m.familyId)) && Get(f, "model_id") == Some(Str(m.modelId))
            && Get(f, "route") == Some(Obj(EncodeRoute(m)))
            && Get(f, "has_api_key") == Some(Bool(m.hasApiKey))
            && Get(f, "selected") == Some(Bool(m.selected)) && Get(f, "available") == Some(Bool(m.available))
            && forall key :: key in INFERENCE_KEYS ==> Get(f, key) == Get(m.inference, key)
  {
    hide EncodeConfigured, INFERENCE_KEYS, EncodeRoute;
    InferenceFieldsRead(m);
  }

  lemma InferenceFieldsRead(m: Configured)
    ensures forall key :: key in INFERENCE_KEYS ==> Get(EncodeConfigured(m), key) == Get(m.inference, key)
  {
    hide EncodeConfigured, EncodeRoute;
    assert INFERENCE_KEYS <= CONFIGURED_KEYS;
  }

  lemma SoundOverridesHaveOwnKeys(fields: Fields)
    requires SoundOverrides(fields)
    ensures fields.Keys <= INFERENCE_KEYS && !ForeignHints(fields)
  {
  }

  lemma RouteReadsBack(m: Configured)
    requires IsEditable(m)
    ensures var route := EncodeRoute(m);
            && (map key | key in ROUTE_KEYS && !NotGiven(route, key) :: ShortText(Get(route, key), MAX_TEXT).value)
               == m.route
            && !exists key :: key in ROUTE_KEYS && !NotGiven(route, key) && ShortText(Get(route, key), MAX_TEXT).None?
  {
  }

  /** Every editable projection, written as an entry, is accepted and projects to itself: the flags, the ids and the
   *  route texts are not taken for one another, and the entry stays editable. */
  lemma EditableRoundTrip(m: Configured)
    requires IsEditable(m)
    ensures ParseConfigured(Obj(EncodeConfigured(m))) == Some(m)
  {
    hide SoundOverrides, EncodeConfigured, EncodeRoute, ConfiguredField, NotGiven, CONFIGURED_KEYS, ROUTE_KEYS,
      INFERENCE_KEYS;
    var f, route := EncodeConfigured(m), EncodeRoute(m);
    ConfiguredFieldsRead(m);
    SoundOverridesHaveOwnKeys(m.inference);
    RouteReadsBack(m);
    RouteHasOwnKeys(m);
    assert Get(f, "model_hints") == Get(m.inference, "model_hints") by { OverrideKeys(); }
    assert Restrict(f, INFERENCE_KEYS) == m.inference;
  }

  lemma RouteHasOwnKeys(m: Configured)
    requires IsEditable(m)
    ensures EncodeRoute(m).Keys <= ROUTE_KEYS
  {
  }

  /** What the display repeats of other fields; the client neither keeps nor writes it. */
  const DISPLAY_KEYS: set<string> := {"provider", "model", "route_id", "base_url", "api_key_env"}

  /** The route texts an entry gives. */
  function GivenRoute(route: Fields): Fields {
    map key | key in route && !NotGiven(route, key) :: route[key]
  }

  lemma EditableProjectionFits(value: Json)
    requires ParseConfigured(value).Some? && !ParseConfigured(value).value.editBlocked
    ensures IsEditable(ParseConfigured(value).value)
  {
    hide SoundOverrides, OfferedOverrides, EditBlocked;
  }

  lemma RouteIsTheEntrys(value: Json)
    requires ParseConfigured(value).Some?
    ensures EncodeRoute(ParseConfigured(value).value) ==
              Restrict(GivenRoute(value.fields["route"].fields), ROUTE_KEYS)
  {
    hide SoundOverrides, OfferedOverrides, ForeignHints, CONFIGURED_KEYS, ROUTE_KEYS, INFERENCE_KEYS, EditBlocked;
  }

  lemma OfferedIsTheEntrys(fields: Fields, key: string)
    requires key in INFERENCE_KEYS && (key == "model_hints" ==> !ForeignHints(fields))
    ensures Get(OfferedOverrides(fields), key) == Get(fields, key)
  {
  }

  /** Editable or not, every entry is projected as it is: only foreign hints, display fields and unknown fields go. */
  lemma ProjectionIsTheEntrys(value: Json, key: string)
    requires ParseConfigured(value).Some?
    requires key in CONFIGURED_KEYS && key !in DISPLAY_KEYS && key != "route"
    requires key == "model_hints" ==> !ForeignHints(value.fields)
    ensures Get(EncodeConfigured(ParseConfigured(value).value), key) == Get(value.fields, key)
  {
    hide SoundOverrides, EncodeConfigured, EncodeRoute, OfferedOverrides, EditBlocked, NotGiven, ForeignHints;
    if key in INFERENCE_KEYS {
      OfferedIsTheEntrys(value.fields, key);
    }
    ConfiguredFieldsRead(ParseConfigured(value).value);
  }

  /**
   * Writing back the projection of an entry that may be edited loses nothing: every field but the display's own is the
   * entry's, null kept apart from absent; the route holds exactly the texts the entry gives; the entry had no other
   * field, except a null price or strength; and reading it again gives the same projection, still editable.
   */
  lemma EditIsLossless(value: Json)
    requires ParseConfigured(value).Some? && !ParseConfigured(value).value.editBlocked
    ensures var m := ParseConfigured(value).value;
            var written := EncodeConfigured(m);
            && (forall key :: key !in DISPLAY_KEYS && key != "route" && key != "cost_per_m" && key != "strong" ==>
                  Get(written, key) == Get(value.fields, key))
            && Get(written, "route") == Some(Obj(GivenRoute(value.fields["route"].fields)))
            && (forall key :: key in value.fields && (key == "cost_per_m" || key == "strong") ==>
                  value.fields[key].Null?)
            && ParseConfigured(Obj(written)) == Some(m)
  {
    var m := ParseConfigured(value).value;
    EditableProjectionFits(value);
    EditableRoundTrip(m);
    RouteIsTheEntrys(value);
    ConfiguredFieldsRead(m);
    OnlyKnownKeys(value);
    hide ParseConfigured, EncodeConfigured, EncodeRoute, GivenRoute, IsEditable;
    forall key | key !in DISPLAY_KEYS && key != "route" && key != "cost_per_m" && key != "strong"
      ensures Get(EncodeConfigured(m), key) == Get(value.fields, key)
    {
      if key in CONFIGURED_KEYS {
        ProjectionIsTheEntrys(value, key);
      }
    }
  }

  lemma OnlyKnownKeys(value: Json)
    requires ParseConfigured(value).Some? && !ParseConfigured(value).value.editBlocked
    ensures forall key :: key in value.fields && key !in CONFIGURED_KEYS ==>
              (key == "cost_per_m" || key == "strong") && value.fields[key].Null?
    ensures "cost_per_m" !in CONFIGURED_KEYS && "strong" !in CONFIGURED_KEYS
    ensures !ForeignHints(value.fields)
    ensures var route := GivenRoute(value.fields["route"].fields); Restrict(route, ROUTE_KEYS) == route
  {
    hide SoundOverrides, OfferedOverrides, ForeignHints, NotGiven;
  }

  // ---------------------------------------------------------------- hints newer than this client

  /** The entry without the hints this client does not know. */
  function WithKnownHints(fields: Fields): Fields
    requires ForeignHints(fields)
  {
    var hints := fields["model_hints"].fields;
    fields["model_hints" := Obj(map key | key in hints && IsHintKey(key) :: hints[key])]
  }

  lemma KnownHintsOffered(fields: Fields)
    requires ForeignHints(fields)
    ensures !ForeignHints(WithKnownHints(fields))
    ensures OfferedOverrides(WithKnownHints(fields)) == OfferedOverrides(fields)
  {
  }

  /** A foreign hint costs the entry nothing but its editability: it reads exactly as if the hint were not there. */
  lemma ForeignHintsOnlyBlockEditing(fields: Fields)
    requires ForeignHints(fields)
    ensures var read, known := ParseConfigured(Obj(fields)), ParseConfigured(Obj(WithKnownHints(fields)));
            && (read.Some? <==> known.Some?)
            && (read.Some? ==> read.value == known.value.(editBlocked := true))
  {
    KnownHintsOffered(fields);
    hide SoundOverrides, OfferedOverrides, NotGiven, ROUTE_KEYS, CONFIGURED_KEYS, INFERENCE_KEYS;
    assert |"model_hints"| == 11 && |"route"| == 5 && |"family_id"| == 9 && |"model_id"| == 8;
    assert |"has_api_key"| == 11 && "has_api_key"[0] == 'h' && |"selected"| == 8 && |"available"| == 9;
    assert forall key :: key != "model_hints" ==> Get(WithKnownHints(fields), key) == Get(fields, key);
  }

  // ---------------------------------------------------------------- exactly what is read

  predicate SaysNumber(field: Option<Json>, low: real, high: real) {
    Missing(field) || (field.value.Num? && field.value.n.Finite? && low <= field.value.n.value <= high)
  }

  ghost predicate SaysInteger(field: Option<Json>, low: nat, high: nat) {
    Missing(field) || exists n: nat :: low <= n <= high && SaysCount(field, n)
  }

  predicate SaysChoice(field: Option<Json>, choices: set<string>) {
    field.Some? && field.value.Str? && field.value.s in choices
  }

  predicate IsKnownHint(key: string) {
    key in {"uses_completion_tokens", "fixed_temperature", "lacks_vision", "lacks_video", "retain_tool_images",
            "merge_system_messages", "reasoning_style"}
  }

  predicate SaysHints(field: Option<Json>) {
    || Missing(field)
    || (field.value.Obj?
        && forall key :: key in field.value.fields ==>
             && IsKnownHint(key)
             && if key == "reasoning_style" then
                  SaysChoice(Get(field.value.fields, key),
                             {"none", "effort", "effort_and_thinking_toggle", "effort_max_only",
                              "effort_low_high_max", "thinking_toggle"})
                else field.value.fields[key].Bool?)
  }

  /** Each override is absent, null or within its limits, and there is no other. */
  ghost predicate SaysOverrides(f: Fields) {
    && f.Keys <= {"temperature", "top_p", "context_window", "reasoning_effort", "model_hints"}
    && SaysNumber(Get(f, "temperature"), 0.0, 2.0) && SaysNumber(Get(f, "top_p"), 0.0, 1.0)
    && SaysInteger(Get(f, "context_window"), 1, 4294967295)
    && (Missing(Get(f, "reasoning_effort"))
        || SaysChoice(Get(f, "reasoning_effort"), {"none", "low", "medium", "high", "max"}))
    && SaysHints(Get(f, "model_hints"))
  }

  lemma NumbersExactly(v: Json)
    ensures SoundNumber("temperature", v) <==> SaysNumber(Some(v), 0.0, 2.0)
    ensures SoundNumber("top_p", v) <==> SaysNumber(Some(v), 0.0, 1.0)
    ensures SoundNumber("context_window", v) <==> SaysInteger(Some(v), 1, 4294967295)
  {
    assert |"temperature"| == 11 && |"top_p"| == 5 && |"context_window"| == 14;
    if SoundNumber("context_window", v) && !v.Null? {
      var n: nat := v.n.value.Floor;
      assert SaysCount(Some(v), n);
    }
  }

  lemma HintKeysExactly(key: string)
    ensures IsHintKey(key) <==> IsKnownHint(key)
    ensures key == STYLE ==> key !in HINT_BOOLEANS
  {
    HintKeysAreDistinct();
    assert HINT_BOOLEANS[0] == "uses_completion_tokens" && HINT_BOOLEANS[1] == "fixed_temperature";
    assert HINT_BOOLEANS[2] == "lacks_vision" && HINT_BOOLEANS[3] == "lacks_video";
    assert HINT_BOOLEANS[4] == "retain_tool_images" && HINT_BOOLEANS[5] == "merge_system_messages";
  }

  lemma HintsExactly(v: Json)
    ensures SoundHints(v) <==> SaysHints(Some(v))
  {
    if v.Obj? {
      forall key | key in v.fields
        ensures SoundHint(key, v.fields[key]) <==>
                && IsKnownHint(key)
                && if key == "reasoning_style" then
                     SaysChoice(Get(v.fields, key),
                                {"none", "effort", "effort_and_thinking_toggle", "effort_max_only",
                                 "effort_low_high_max", "thinking_toggle"})
                   else v.fields[key].Bool?
      {
        HintKeysExactly(key);
        hide HINT_BOOLEANS, IsKnownHint;
      }
      hide SoundHint, IsKnownHint, SaysChoice;
    }
  }

  /** The overrides parser accepts exactly these records, and returns them unchanged. */
  lemma OverridesExactly(f: Fields)
    ensures SoundOverrides(f) <==> SaysOverrides(f)
  {
    OverrideKeys();
    assert LIMITED_KEYS[0] == "temperature" && LIMITED_KEYS[1] == "top_p" && LIMITED_KEYS[2] == "context_window";
    forall key | key in f
      ensures SoundOverride(key, f[key]) <==>
                if key == "temperature" then SaysNumber(Get(f, key), 0.0, 2.0)
                else if key == "top_p" then SaysNumber(Get(f, key), 0.0, 1.0)
                else if key == "context_window" then SaysInteger(Get(f, key), 1, 4294967295)
                else if key == "model_hints" then SaysHints(Get(f, key))
                else key == "reasoning_effort" && (Missing(Get(f, key)) || SaysChoice(Get(f, key), EFFORTS))
    {
      NumbersExactly(f[key]);
      HintsExactly(f[key]);
      hide SoundNumber, SoundHints, SaysNumber, SaysInteger, SaysHints;
    }
    hide LIMITED_KEYS, SoundOverride, SaysNumber, SaysInteger, SaysHints;
    AbsentOverrides();
  }

  lemma AbsentOverrides()
    ensures SaysNumber(None, 0.0, 2.0) && SaysNumber(None, 0.0, 1.0) && SaysInteger(None, 1, 4294967295)
    ensures SaysHints(None)
  {
  }

  /** The five override fields as the entry has them, hints this client does not know left out. */
  predicate SaysInference(f: Fields, inference: Fields) {
    && inference.Keys == f.Keys * {"temperature", "top_p", "context_window", "reasoning_effort", "model_hints"}
    && forall key :: key in inference ==>
         if key == "model_hints" && f[key].Obj? then
           inference[key] == Obj(map hint | hint in f[key].fields && IsKnownHint(hint) :: f[key].fields[hint])
         else inference[key] == f[key]
  }

  /** What keeps an entry from being edited: a foreign hint, an unknown field, or an unknown field of the route. */
  ghost predicate SaysBlocked(f: Fields, route: Fields) {
    || (Get(f, "model_hints").Some? && f["model_hints"].Obj?
        && exists hint :: hint in f["model_hints"].fields && !IsKnownHint(hint))
    || (exists key :: key in f && !IsConfiguredKey(key) && !(key in {"cost_per_m", "strong"} && f[key] == Null))
    || (exists key :: key in route && key !in {"route_id", "label", "base_url", "api_key_env", "api_type"})
  }

  predicate IsConfiguredKey(key: string) {
    key in {"provider", "model", "family_id", "model_id", "route", "route_id", "base_url", "api_key_env", "has_api_key",
            "selected", "available", "temperature", "top_p", "context_window", "reasoning_effort", "model_hints"}
  }

  /** The route texts: each given one is short, and one that is absent, null or empty is not given. */
  predicate SaysRoute(route: Fields, texts: map<string, string>) {
    && texts.Keys <= {"route_id", "label", "base_url", "api_key_env", "api_type"}
    && forall key :: key in {"route_id", "label", "base_url", "api_key_env", "api_type"} ==>
         if key in texts then SaysShortText(Get(route, key), 4096, texts[key])
         else Missing(Get(route, key)) || Get(route, key) == Some(Str(""))
  }

  ghost predicate SaysConfigured(f: Fields, m: Configured) {
    && "route" in f && f["route"].Obj? && SaysRoute(f["route"].fields, m.route)
    && SaysShortText(Get(f, "family_id"), 4096, m.familyId) && SaysShortText(Get(f, "model_id"), 4096, m.modelId)
    && Get(f, "has_api_key") == Some(Bool(m.hasApiKey)) && Get(f, "selected") == Some(Bool(m.selected))
    && Get(f, "available") == Some(Bool(m.available))
    && SaysInference(f, m.inference) && SaysOverrides(m.inference)
    && (m.editBlocked <==> SaysBlocked(f, f["route"].fields))
  }

  lemma ForeignHintsExactly(f: Fields)
    ensures ForeignHints(f) <==>
            && Get(f, "model_hints").Some? && f["model_hints"].Obj?
            && exists hint :: hint in f["model_hints"].fields && !IsKnownHint(hint)
  {
    forall key ensures IsHintKey(key) <==> IsKnownHint(key) { HintKeysExactly(key); }
    hide IsHintKey, IsKnownHint;
  }

  lemma InferenceExactly(f: Fields, inference: Fields)
    ensures inference == OfferedOverrides(f) <==> SaysInference(f, inference)
  {
    forall key ensures IsHintKey(key) <==> IsKnownHint(key) { HintKeysExactly(key); }
    hide IsHintKey, IsKnownHint;
    var offered := OfferedOverrides(f);
    if "model_hints" in f && f["model_hints"].Obj? {
      var hints := f["model_hints"].fields;
      var known := map hint | hint in hints && IsKnownHint(hint) :: hints[hint];
      assert (map key | key in hints && IsHintKey(key) :: hints[key]) == known;
      if !ForeignHints(f) {
        assert known == hints;
      }
    }
    assert SaysInference(f, offered);
    if SaysInference(f, inference) {
      assert inference == offered;
    }
  }

  lemma BlockedExactly(f: Fields, route: Fields)
    ensures EditBlocked(f, route) <==> SaysBlocked(f, route)
  {
    ForeignHintsExactly(f);
    hide ForeignHints, IsKnownHint;
    forall key
      ensures key in CONFIGURED_KEYS <==> IsConfiguredKey(key)
    {
    }
    hide CONFIGURED_KEYS, IsConfiguredKey;
  }

  lemma RouteTextExactly(route: Fields, key: string, text: Option<string>)
    ensures
      (if NotGiven(route, key) then text == None else text.Some? && ShortText(Get(route, key), MAX_TEXT) == text)
      <==>
      if text.Some? then SaysShortText(Get(route, key), 4096, text.value)
      else Missing(Get(route, key)) || Get(route, key) == Some(Str(""))
  {
  }

  lemma RouteExactly(route: Fields, texts: map<string, string>)
    ensures
      && !(exists key :: key in ROUTE_KEYS && !NotGiven(route, key) && ShortText(Get(route, key), MAX_TEXT).None?)
      && texts == (map key | key in ROUTE_KEYS && !NotGiven(route, key) :: ShortText(Get(route, key), MAX_TEXT).value)
      <==> SaysRoute(route, texts)
  {
    assert ROUTE_KEYS == {"route_id", "label", "base_url", "api_key_env", "api_type"};
    forall key | key in ROUTE_KEYS
      ensures
        (if NotGiven(route, key) then key !in texts
         else key in texts && ShortText(Get(route, key), MAX_TEXT) == Some(texts[key]))
        <==>
        if key in texts then SaysShortText(Get(route, key), 4096, texts[key])
        else Missing(Get(route, key)) || Get(route, key) == Some(Str(""))
    {
      RouteTextExactly(route, key, if key in texts then Some(texts[key]) else None);
    }
    hide NotGiven, Missing, ShortText, SaysShortText, Get, ROUTE_KEYS;
  }

  /** A configured model is read if and only if the entry is one. */
  lemma ConfiguredReadExactly(value: Json, m: Configured)
    ensures ParseConfigured(value) == Some(m) <==> value.Obj? && SaysConfigured(value.fields, m)
  {
    if value.Obj? && "route" in value.fields && value.fields["route"].Obj? {
      var f, route := value.fields, value.fields["route"].fields;
      RouteExactly(route, m.route);
      FieldsReadExactly(Get(f, "family_id"), m.familyId, 0, MAX_TEXT);
      FieldsReadExactly(Get(f, "model_id"), m.modelId, 0, MAX_TEXT);
      InferenceExactly(f, m.inference);
      OverridesExactly(m.inference);
      BlockedExactly(f, route);
      hide SaysRoute, ShortText, SaysShortText, OfferedOverrides, SaysInference, SoundOverrides, SaysOverrides,
        EditBlocked, SaysBlocked, NotGiven, ROUTE_KEYS;
    }
  }
}
