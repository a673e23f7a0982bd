/** The context records on the wire: state, compaction and normalization. */
module ContextWire {
  import opened Wrappers
  import opened Json

  const DIAGNOSTICS: set<string> :=
    {"cache_epoch_id", "last_cache_invalidation_reason", "semantic_head_id", "semantic_head_kind"}

  const NORMALIZATION_COUNTS: set<string> :=
    {"generation", "prompt_message_count", "token_estimate", "repaired_count", "dropped_count", "synthetic_count",
     "truncated_count"}

  datatype ContextState = ContextState(
    sessionId: string, generation: nat, tokenEstimate: nat, itemCount: nat, recovery: string,
    diagnostics: map<string, string>)

  datatype Compaction = Compaction(
    status: string, inputGeneration: nat, tokensBefore: nat, outputGeneration: Option<nat>, tokensAfter: Option<nat>,
    trigger: Option<string>, error: Option<string>)

  datatype Normalization = Normalization(model: string, counts: map<string, nat>)

  // ---------------------------------------------------------------- the parsers

  function Label(value: Option<Json>): Option<string> {
    match Text(value)
    case Some(s) => if |s| <= MAX_LABEL then Some(s) else None
    case None => None
  }

  /** `value[key] != null`. */
  predicate Present(fields: map<string, Json>, key: string) {
    key in fields && !fields[key].Null?
  }

  function ParseContextState(value: Option<Json>, sessionId: string): Option<ContextState> {
    match value
    case Some(Obj(fields)) =>
      if Text(Get(fields, "session_id")) != Some(sessionId)
         || Count(Get(fields, "generation")).None? || Count(Get(fields, "token_estimate")).None?
         || Count(Get(fields, "item_count")).None? || Label(Get(fields, "recovery_state")).None?
      then None
      else if exists key :: key in DIAGNOSTICS && Present(fields, key) && Label(Get(fields, key)).None? then None
      else Some(ContextState(
                  sessionId, Count(Get(fields, "generation")).value, Count(Get(fields, "token_estimate")).value,
                  Count(Get(fields, "item_count")).value, Label(Get(fields, "recovery_state")).value,
                  map key | key in DIAGNOSTICS && Label(Get(fields, key)).Some? :: Label(Get(fields, key)).value))
    case _ => None
  }

  function Shortened(value: Option<string>): Option<string> {
    match value
    case Some(s) => Some(Cut(s))
    case None => None
  }

  function ParseCompaction(value: Option<Json>): Option<Compaction> {
    match value
    case Some(Obj(fields)) =>
      if Label(Get(fields, "status")).None? || Count(Get(fields, "input_generation")).None?
         || Count(Get(fields, "token_estimate_before")).None?
      then None
      else if (exists key :: key in {"output_generation", "token_estimate_after"}
                             && Present(fields, key) && Count(Get(fields, key)).None?)
              || (exists key :: key in {"trigger", "error"} && Present(fields, key) && Text(Get(fields, key)).None?)
      then None
      else Some(Compaction(
                  Label(Get(fields, "status")).value, Count(Get(fields, "input_generation")).value,
                  Count(Get(fields, "token_estimate_before")).value,
                  Count(Get(fields, "output_generation")), Count(Get(fields, "token_estimate_after")),
                  Shortened(Text(Get(fields, "trigger"))), Shortened(Text(Get(fields, "error")))))
    case _ => None
  }

  function ParseNormalization(value: Option<Json>): Option<Normalization> {
    match value
    case Some(Obj(fields)) =>
      if Label(Get(fields, "model_capability_id")).None?
         || exists key :: key in NORMALIZATION_COUNTS && Count(Get(fields, key)).None?
      then None
      else Some(Normalization(
                  Label(Get(fields, "model_capability_id")).value,
                  map key | key in NORMALIZATION_COUNTS :: Count(Get(fields, key)).value))
    case _ => None
  }

  // ---------------------------------------------------------------- round trips

  predicate IsLabel(s: string) { |s| <= MAX_LABEL }

  predicate IsState(state: ContextState) {
    && state.generation <= MAX_SAFE_INTEGER && state.tokenEstimate <= MAX_SAFE_INTEGER
    && state.itemCount <= MAX_SAFE_INTEGER && IsLabel(state.recovery)
    && state.diagnostics.Keys <= DIAGNOSTICS
    && (forall key :: key in state.diagnostics ==> IsLabel(state.diagnostics[key]))
  }

  function StateFields(state: ContextState): map<string, Json> {
    map["session_id" := Str(state.sessionId), "generation" := Integer(state.generation),
        "token_estimate" := Integer(state.tokenEstimate), "item_count" := Integer(state.itemCount),
        "recovery_state" := Str(state.recovery)]
  }

  function EncodeState(state: ContextState): map<string, Json> {
    StateFields(state) + map key | key in state.diagnostics :: Str(state.diagnostics[key])
  }

  lemma EncodedStateRead(state: ContextState)
    requires state.diagnostics.Keys <= DIAGNOSTICS
    ensures var f := EncodeState(state);
            && Get(f, "session_id") == Some(Str(state.sessionId))
            && Get(f, "generation") == Some(Integer(state.generation))
            && Get(f, "token_estimate") == Some(Integer(state.tokenEstimate))
            && Get(f, "item_count") == Some(Integer(state.itemCount))
            && Get(f, "recovery_state") == Some(Str(state.recovery))
            && forall key :: key in DIAGNOSTICS ==>
                 Get(f, key) == if key in state.diagnostics then Some(Str(state.diagnostics[key])) else None
  {
  }

  lemma {:induction false} EncodedDiagnosticsRead(state: ContextState)
    requires IsState(state)
    ensures var f := EncodeState(state);
            && (map key | key in DIAGNOSTICS && Label(Get(f, key)).Some? :: Label(Get(f, key)).value)
               == state.diagnostics
            && !exists key :: key in DIAGNOSTICS && Present(f, key) && Label(Get(f, key)).None?
  {
    hide EncodeState;
    EncodedStateRead(state);
  }

  /** A state within the limits reads back unchanged, and for its own session only. */
  lemma StateRoundTrip(state: ContextState, sessionId: string)
    requires IsState(state)
    ensures ParseContextState(Some(Obj(EncodeState(state))), sessionId) ==
              if sessionId == state.sessionId then Some(state) else None
  {
    hide EncodeState, DIAGNOSTICS, Integer, Present;
    EncodedStateRead(state);
    EncodedDiagnosticsRead(state);
    IntegerIsCount(state.generation);
    IntegerIsCount(state.tokenEstimate);
    IntegerIsCount(state.itemCount);
  }

  /** Only states within the limits, of the session asked for, are ever read. */
  lemma ReadStateFits(value: Option<Json>, sessionId: string)
    ensures ParseContextState(value, sessionId).Some? ==>
              IsState(ParseContextState(value, sessionId).value)
              && ParseContextState(value, sessionId).value.sessionId == sessionId
  {
  }

  predicate IsCompaction(c: Compaction) {
    && IsLabel(c.status) && c.inputGeneration <= MAX_SAFE_INTEGER && c.tokensBefore <= MAX_SAFE_INTEGER
    && (c.outputGeneration.Some? ==> c.outputGeneration.value <= MAX_SAFE_INTEGER)
    && (c.tokensAfter.Some? ==> c.tokensAfter.value <= MAX_SAFE_INTEGER)
    && (c.trigger.Some? ==> IsLabel(c.trigger.value)) && (c.error.Some? ==> IsLabel(c.error.value))
  }

  function CompactionField(c: Compaction, key: string): Option<Json> {
    match key
    case "status" => Some(Str(c.status))
    case "input_generation" => Some(Integer(c.inputGeneration))
    case "token_estimate_before" => Some(Integer(c.tokensBefore))
    case "output_generation" => FieldOfCount(c.outputGeneration)
    case "token_estimate_after" => FieldOfCount(c.tokensAfter)
    case "trigger" => FieldOfText(c.trigger)
    case "error" => FieldOfText(c.error)
    case _ => None
  }

  const COMPACTION_KEYS: set<string> :=
    {"status", "input_generation", "token_estimate_before", "output_generation", "token_estimate_after", "trigger",
     "error"}

  function EncodeCompaction(c: Compaction): (fields: map<string, Json>)
    ensures forall key :: key in COMPACTION_KEYS ==> Get(fields, key) == CompactionField(c, key)
  {
    map key | key in COMPACTION_KEYS && CompactionField(c, key).Some? :: CompactionField(c, key).value
  }

  lemma CompactionFieldsRead(c: Compaction)
    ensures var f := EncodeCompaction(c);
            && Get(f, "status") == Some(Str(c.status))
            && Get(f, "input_generation") == Some(Integer(c.inputGeneration))
            && Get(f, "token_estimate_before") == Some(Integer(c.tokensBefore))
            && Get(f, "output_generation") == FieldOfCount(c.outputGeneration)
            && Get(f, "token_estimate_after") == FieldOfCount(c.tokensAfter)
            && Get(f, "trigger") == FieldOfText(c.trigger) && Get(f, "error") == FieldOfText(c.error)
  {
  }

  lemma OptionalReadsBack(n: Option<nat>, s: Option<string>)
    ensures (n.Some? ==> n.value <= MAX_SAFE_INTEGER) ==> Count(FieldOfCount(n)) == n
    ensures (s.Some? ==> IsLabel(s.value)) ==> Shortened(Text(FieldOfText(s))) == s
  {
  }

  /** A compaction within the limits reads back unchanged, and only such compactions are read. */
  lemma CompactionRoundTrip(c: Compaction, value: Option<Json>)
    ensures IsCompaction(c) ==> ParseCompaction(Some(Obj(EncodeCompaction(c)))) == Some(c)
    ensures ParseCompaction(value).Some? ==> IsCompaction(ParseCompaction(value).value)
  {
    if IsCompaction(c) {
      hide EncodeCompaction;
      CompactionFieldsRead(c);
      IntegerIsCount(c.inputGeneration);
      IntegerIsCount(c.tokensBefore);
      OptionalReadsBack(c.outputGeneration, c.trigger);
      OptionalReadsBack(c.tokensAfter, c.error);
    }
  }

  predicate IsNormalization(n: Normalization) {
    && IsLabel(n.model) && n.counts.Keys == NORMALIZATION_COUNTS
    && forall key :: key in n.counts ==> n.counts[key] <= MAX_SAFE_INTEGER
  }

  function EncodeNormalization(n: Normalization): map<string, Json> {
    (map key | key in n.counts :: Integer(n.counts[key])) + map["model_capability_id" := Str(n.model)]
  }

  /** A normalization within the limits reads back unchanged, and only such normalizations are read. */
  lemma NormalizationRoundTrip(n: Normalization, value: Option<Json>)
    ensures IsNormalization(n) ==> ParseNormalization(Some(Obj(EncodeNormalization(n)))) == Some(n)
    ensures ParseNormalization(value).Some? ==> IsNormalization(ParseNormalization(value).value)
  {
    if IsNormalization(n) {
      var f := EncodeNormalization(n);
      assert "model_capability_id" !in NORMALIZATION_COUNTS;
      forall key | key in NORMALIZATION_COUNTS
        ensures Count(Get(f, key)) == Some(n.counts[key])
      {
        IntegerIsCount(n.counts[key]);
      }
      assert (map key | key in NORMALIZATION_COUNTS :: Count(Get(f, key)).value) == n.counts;
    }
  }

  // ---------------------------------------------------------------- exactly what is read

  /** The record reports `state` for the session. */
  predicate SaysState(f: map<string, Json>, sessionId: string, state: ContextState) {
    && state.sessionId == sessionId && SaysText(Get(f, "session_id"), sessionId)
    && SaysCount(Get(f, "generation"), state.generation)
    && SaysCount(Get(f, "token_estimate"), state.tokenEstimate)
    && SaysCount(Get(f, "item_count"), state.itemCount)
    && SaysLabel(Get(f, "recovery_state"), state.recovery)
    && state.diagnostics.Keys <= DIAGNOSTICS
    && forall key :: key in DIAGNOSTICS ==>
         if key in state.diagnostics then SaysLabel(Get(f, key), state.diagnostics[key]) else Missing(Get(f, key))
  }

  lemma LabelReadExactly(field: Option<Json>, s: string)
    ensures Label(field) == Some(s) <==> SaysLabel(field, s)
  {
  }

  lemma DiagnosticsReadExactly(f: map<string, Json>, said: map<string, string>)
    ensures
      && (map key | key in DIAGNOSTICS && Label(Get(f, key)).Some? :: Label(Get(f, key)).value) == said
      && !(exists key :: key in DIAGNOSTICS && Present(f, key) && Label(Get(f, key)).None?)
      <==>
      && said.Keys <= DIAGNOSTICS
      && forall key :: key in DIAGNOSTICS ==>
           if key in said then SaysLabel(Get(f, key), said[key]) else Missing(Get(f, key))
  {
    hide DIAGNOSTICS;
    var read := map key | key in DIAGNOSTICS && Label(Get(f, key)).Some? :: Label(Get(f, key)).value;
    assert read.Keys <= DIAGNOSTICS;
  }

  /** A state is read if and only if the value is a record that reports it, whatever else the record holds. */
  lemma StateReadExactly(value: Option<Json>, sessionId: string, state: ContextState)
    ensures ParseContextState(value, sessionId) == Some(state) <==>
              value.Some? && value.value.Obj? && SaysState(value.value.fields, sessionId, state)
  {
    if value.Some? && value.value.Obj? {
      var f := value.value.fields;
      DiagnosticsReadExactly(f, state.diagnostics);
      FieldsReadExactly(Get(f, "session_id"), sessionId, 0, 0);
      FieldsReadExactly(Get(f, "generation"), "", state.generation, 0);
      FieldsReadExactly(Get(f, "token_estimate"), "", state.tokenEstimate, 0);
      FieldsReadExactly(Get(f, "item_count"), "", state.itemCount, 0);
      LabelReadExactly(Get(f, "recovery_state"), state.recovery);
      hide DIAGNOSTICS, Label, Count, Text, Present, Missing, SaysLabel, SaysCount, SaysText, Get;
    }
  }

  predicate SaysOptionalCount(field: Option<Json>, n: Option<nat>) {
    if n.Some? then SaysCount(field, n.value) else Missing(field)
  }

  predicate SaysOptionalCut(field: Option<Json>, s: Option<string>) {
    if s.Some? then SaysCut(field, s.value) else Missing(field)
  }

  predicate SaysCompaction(f: map<string, Json>, c: Compaction) {
    && SaysLabel(Get(f, "status"), c.status)
    && SaysCount(Get(f, "input_generation"), c.inputGeneration)
    && SaysCount(Get(f, "token_estimate_before"), c.tokensBefore)
    && SaysOptionalCount(Get(f, "output_generation"), c.outputGeneration)
    && SaysOptionalCount(Get(f, "token_estimate_after"), c.tokensAfter)
    && SaysOptionalCut(Get(f, "trigger"), c.trigger)
    && SaysOptionalCut(Get(f, "error"), c.error)
  }

  lemma OptionalReadExactly(field: Option<Json>, n: Option<nat>, s: Option<string>)
    ensures Count(field) == n && (Missing(field) || Count(field).Some?) <==> SaysOptionalCount(field, n)
    ensures Shortened(Text(field)) == s && (Missing(field) || Text(field).Some?) <==> SaysOptionalCut(field, s)
  {
  }

  lemma PresentIsNotMissing(f: map<string, Json>, key: string)
    ensures Present(f, key) <==> !Missing(Get(f, key))
  {
  }

  /** A compaction is read if and only if the record reports it; long triggers and errors are cut, not refused. */
  lemma CompactionReadExactly(value: Option<Json>, c: Compaction)
    ensures ParseCompaction(value) == Some(c) <==>
              value.Some? && value.value.Obj? && SaysCompaction(value.value.fields, c)
  {
    if value.Some? && value.value.Obj? {
      var f := value.value.fields;
      LabelReadExactly(Get(f, "status"), c.status);
      FieldsReadExactly(Get(f, "input_generation"), "", c.inputGeneration, 0);
      FieldsReadExactly(Get(f, "token_estimate_before"), "", c.tokensBefore, 0);
      OptionalReadExactly(Get(f, "output_generation"), c.outputGeneration, None);
      OptionalReadExactly(Get(f, "token_estimate_after"), c.tokensAfter, None);
      OptionalReadExactly(Get(f, "trigger"), None, c.trigger);
      OptionalReadExactly(Get(f, "error"), None, c.error);
      forall key { PresentIsNotMissing(f, key); }
      hide Label, Count, Text, Present, Missing, SaysLabel, SaysCount, SaysOptionalCount, SaysOptionalCut, Shortened,
        Get;
    }
  }

  predicate SaysNormalization(f: map<string, Json>, n: Normalization) {
    && SaysLabel(Get(f, "model_capability_id"), n.model)
    && n.counts.Keys == NORMALIZATION_COUNTS
    && forall key :: key in NORMALIZATION_COUNTS ==> SaysCount(Get(f, key), n.counts[key])
  }

  lemma NormalizationReadExactly(value: Option<Json>, n: Normalization)
    ensures ParseNormalization(value) == Some(n) <==>
              value.Some? && value.value.Obj? && SaysNormalization(value.value.fields, n)
  {
    if value.Some? && value.value.Obj? && SaysNormalization(value.value.fields, n) {
      var f := value.value.fields;
      assert (map key | key in NORMALIZATION_COUNTS :: Count(Get(f, key)).value) == n.counts;
    }
  }
}
