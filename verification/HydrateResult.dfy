/** `session/hydrate` results as a whole: the atomic replay extension, and parsing as a fixed point. */
module HydrateResult {
  import opened Wrappers
  import opened Json
  import opened Seqs
  import opened Envelope
  import opened Replay
  import opened Hydrate

  datatype Hydrated = Hydrated(
    sessionId: string, cursor: Cursor, context: Option<Json>, contextState: Option<Json>,
    messages: Option<seq<Message>>, fileMutations: Option<seq<FileMutation>>, threads: Option<seq<Json>>,
    turns: Option<seq<Turn>>, approvals: Option<seq<Json>>, questions: Option<seq<Json>>,
    envelopes: Option<seq<Envelope>>, toolEnvelopes: Option<seq<Envelope>>,
    replay: Option<seq<Envelope>>, checkpoints: Option<Checkpoints>)

  function EnvelopeParser(sessionId: string, guard: PayloadGuard): Json -> Option<Envelope> {
    j => ParseEnvelope(j, sessionId, guard)
  }

  function EncodeEnvelope(e: Envelope): Json { Obj(EnvelopeFields(e)) }

  /** The replay and its checkpoints come together, and the replay must fit them. */
  predicate ReplayFits(replay: Option<seq<Envelope>>, checkpoints: Option<Checkpoints>, cursor: Cursor) {
    && replay.Some? == checkpoints.Some?
    && (replay.Some? ==> ValidReplay(replay.value, checkpoints.value, cursor))
  }

  function ParseHydrate(value: Json, guard: PayloadGuard): Option<Hydrated> {
    match value
    case Obj(f) =>
      (match (Text(Get(f, "session_id")), ParseCursor(Get(f, "cursor")))
       case (Some(sessionId), Some(cursor)) => ParseFields(f, sessionId, cursor, guard)
       case _ => None)
    case _ => None
  }

  function ParseFields(f: map<string, Json>, sessionId: string, cursor: Cursor, guard: PayloadGuard): Option<Hydrated> {
    var parser := EnvelopeParser(sessionId, guard);
    var messages := ParseOptionalArray(Get(f, "messages"), ParseMessage);
    var turns := ParseOptionalArray(Get(f, "turns"), ParseTurn);
    var mutations := ParseFileMutations(Get(f, "file_mutations"));
    var envelopes := ParseOptionalArray(Get(f, "replayed_envelopes"), parser);
    var toolEnvelopes := ParseOptionalArray(Get(f, "replayed_tool_envelopes"), parser);
    var replay := ParseOptionalArray(Get(f, "replayed_projection_envelopes"), parser);
    var checkpoints := ParseCheckpoints(Get(f, "projection_thread_sequences"));
    var threads := OptionalArray(Get(f, "threads"));
    var approvals := OptionalArray(Get(f, "pending_approvals"));
    var questions := OptionalArray(Get(f, "pending_questions"));
    if mutations.None? || messages.None? || turns.None? || envelopes.None? || toolEnvelopes.None? || replay.None?
       || checkpoints.None? || threads.None? || approvals.None? || questions.None?
    then None
    else if !ReplayFits(replay.value, checkpoints.value, cursor) then None
    else Some(Hydrated(
                sessionId, cursor, Get(f, "context"), Get(f, "context_state"), messages.value, mutations.value,
                threads.value, turns.value, approvals.value, questions.value, envelopes.value, toolEnvelopes.value,
                replay.value, checkpoints.value))
  }

  // ---------------------------------------------------------------- writing a result back

  function EncodeRaw(items: Option<seq<Json>>): Option<Json> {
    match items
    case Some(xs) => Some(Arr(xs))
    case None => None
  }

  /** The record a result is, with its absent fields absent. */
  function Field(r: Hydrated, key: string): Option<Json> {
    match key
    case "session_id" => Some(Str(r.sessionId))
    case "cursor" => Some(EncodeCursor(r.cursor))
    case "context" => r.context
    case "context_state" => r.contextState
    case "messages" => EncodeArray(r.messages, EncodeMessage)
    case "file_mutations" => EncodeArray(r.fileMutations, EncodeFileMutation)
    case "threads" => EncodeRaw(r.threads)
    case "turns" => EncodeArray(r.turns, EncodeTurn)
    case "pending_approvals" => EncodeRaw(r.approvals)
    case "pending_questions" => EncodeRaw(r.questions)
    case "replayed_envelopes" => EncodeArray(r.envelopes, EncodeEnvelope)
    case "replayed_tool_envelopes" => EncodeArray(r.toolEnvelopes, EncodeEnvelope)
    case "replayed_projection_envelopes" => EncodeArray(r.replay, EncodeEnvelope)
    case "projection_thread_sequences" => EncodeCheckpoints(r.checkpoints)
    case _ => None
  }

  const KEYS: set<string> :=
    {"session_id", "cursor", "context", "context_state", "messages", "file_mutations", "threads", "turns",
     "pending_approvals", "pending_questions", "replayed_envelopes", "replayed_tool_envelopes",
     "replayed_projection_envelopes", "projection_thread_sequences"}

  function Encode(r: Hydrated): (fields: map<string, Json>)
    ensures forall key :: key in KEYS ==> Get(fields, key) == Field(r, key)
  {
    map key | key in KEYS && Field(r, key).Some? :: Field(r, key).value
  }

  // ---------------------------------------------------------------- round trip and fixed point

  predicate MaybeCheckpoints(c: Option<Checkpoints>) { c.Some? ==> AreCheckpoints(c.value) }

  function EnvelopeTest(sessionId: string, guard: PayloadGuard): Envelope -> bool {
    e => IsEnvelope(e, sessionId, guard)
  }

  /** What a hydrate result can be. */
  predicate IsHydrated(r: Hydrated, guard: PayloadGuard) {
    var isEnvelope := EnvelopeTest(r.sessionId, guard);
    && IsCursor(r.cursor)
    && AllSound(r.messages, IsMessage) && AllSound(r.turns, IsTurn) && AllSound(r.fileMutations, IsFileMutation)
    && AllSound(r.envelopes, isEnvelope) && AllSound(r.toolEnvelopes, isEnvelope) && AllSound(r.replay, isEnvelope)
    && MaybeCheckpoints(r.checkpoints)
    && ReplayFits(r.replay, r.checkpoints, r.cursor)
  }

  lemma ElementCodecs(sessionId: string, guard: PayloadGuard)
    ensures Codec(ParseMessage, EncodeMessage, IsMessage)
    ensures Codec(ParseTurn, EncodeTurn, IsTurn)
    ensures Codec(EnvelopeParser(sessionId, guard), EncodeEnvelope, EnvelopeTest(sessionId, guard))
  {
    hide EnvelopeFields, ParseEnvelope, IsEnvelope;
    forall m | IsMessage(m) ensures ParseMessage(EncodeMessage(m)) == Some(m) { MessageRoundTrip(m); }
    forall t | IsTurn(t) ensures ParseTurn(EncodeTurn(t)) == Some(t) { TurnRoundTrip(t); }
    var parse, test := EnvelopeParser(sessionId, guard), EnvelopeTest(sessionId, guard);
    forall e | test(e) ensures parse(EncodeEnvelope(e)) == Some(e) { EnvelopeRoundTrip(e, sessionId, guard); }
    forall j ensures parse(j).Some? ==> test(parse(j).value) { ParsedEnvelopeIsEnvelope(j, sessionId, guard); }
  }

  lemma MutationsCodec(fs: Option<seq<FileMutation>>, value: Option<Json>)
    ensures AllSound(fs, IsFileMutation) ==> ParseFileMutations(EncodeArray(fs, EncodeFileMutation)) == Some(fs)
    ensures ParseFileMutations(value).Some? ==> AllSound(ParseFileMutations(value).value, IsFileMutation)
  {
    hide ParseFileMutation, EncodeFileMutation, IsFileMutation, ReadableMutations;
    if fs.Some? && AllSound(fs, IsFileMutation) {
      MutationsRoundTrip(fs.value);
    }
    if value.Some? && value.value.Arr? {
      forall f | f in ReadableMutations(value.value.items)
        ensures IsFileMutation(f)
      {
        ReadMutationsAreSound(value.value.items, f);
      }
    }
  }

  lemma CheckpointCodec(c: Option<Checkpoints>, value: Option<Json>)
    ensures MaybeCheckpoints(c) ==> ParseCheckpoints(EncodeCheckpoints(c)) == Some(c)
    ensures ParseCheckpoints(value).Some? ==> MaybeCheckpoints(ParseCheckpoints(value).value)
  {
    CheckpointsCodec(if c.Some? then c.value else map[], value);
  }

  lemma FieldsRead(r: Hydrated)
    ensures var g := Encode(r);
            && Get(g, "session_id") == Some(Str(r.sessionId))
            && Get(g, "cursor") == Some(EncodeCursor(r.cursor))
            && Get(g, "context") == r.context
            && Get(g, "context_state") == r.contextState
            && Get(g, "messages") == EncodeArray(r.messages, EncodeMessage)
            && Get(g, "file_mutations") == EncodeArray(r.fileMutations, EncodeFileMutation)
            && Get(g, "threads") == EncodeRaw(r.threads)
            && Get(g, "turns") == EncodeArray(r.turns, EncodeTurn)
            && Get(g, "pending_approvals") == EncodeRaw(r.approvals)
            && Get(g, "pending_questions") == EncodeRaw(r.questions)
            && Get(g, "replayed_envelopes") == EncodeArray(r.envelopes, EncodeEnvelope)
            && Get(g, "replayed_tool_envelopes") == EncodeArray(r.toolEnvelopes, EncodeEnvelope)
            && Get(g, "replayed_projection_envelopes") == EncodeArray(r.replay, EncodeEnvelope)
            && Get(g, "projection_thread_sequences") == EncodeCheckpoints(r.checkpoints)
  {
    hide Encode, EncodeCursor, EncodeArray, EncodeCheckpoints, EncodeRaw;
  }

  /** Everything the parser returns is a sound hydrate result. */
  lemma ParsedIsHydrated(value: Json, guard: PayloadGuard)
    ensures ParseHydrate(value, guard).Some? ==> IsHydrated(ParseHydrate(value, guard).value, guard)
  {
    hide ParseOptionalArray, ParseFileMutations, ParseCheckpoints, ParseCursor, AllSound, MaybeCheckpoints, Codec,
      EnvelopeParser, EnvelopeTest, ReplayFits, IsCursor;
    if ParseHydrate(value, guard).Some? {
      var r, f := ParseHydrate(value, guard).value, value.fields;
      var parser, test := EnvelopeParser(r.sessionId, guard), EnvelopeTest(r.sessionId, guard);
      ElementCodecs(r.sessionId, guard);
      ParsedCursorIsCursor(Get(f, "cursor"));
      OptionalArrayCodec(None, Get(f, "messages"), ParseMessage, EncodeMessage, IsMessage);
      OptionalArrayCodec(None, Get(f, "turns"), ParseTurn, EncodeTurn, IsTurn);
      OptionalArrayCodec(None, Get(f, "replayed_envelopes"), parser, EncodeEnvelope, test);
      OptionalArrayCodec(None, Get(f, "replayed_tool_envelopes"), parser, EncodeEnvelope, test);
      OptionalArrayCodec(None, Get(f, "replayed_projection_envelopes"), parser, EncodeEnvelope, test);
      MutationsCodec(None, Get(f, "file_mutations"));
      CheckpointCodec(None, Get(f, "projection_thread_sequences"));
    }
  }

  /** Every sound hydrate result, written as a record, is accepted and reads back the same. */
  lemma HydrateRoundTrip(r: Hydrated, guard: PayloadGuard)
    requires IsHydrated(r, guard)
    ensures ParseHydrate(Obj(Encode(r)), guard) == Some(r)
  {
    hide ParseOptionalArray, ParseFileMutations, ParseCheckpoints, ParseCursor, EncodeArray, EncodeCheckpoints,
      EncodeCursor, AllSound, MaybeCheckpoints, Codec, EnvelopeParser, EnvelopeTest, ReplayFits, IsCursor, Encode;
    var parser, test := EnvelopeParser(r.sessionId, guard), EnvelopeTest(r.sessionId, guard);
    FieldsRead(r);
    ElementCodecs(r.sessionId, guard);
    CursorRoundTrip(r.cursor);
    OptionalArrayCodec(r.messages, None, ParseMessage, EncodeMessage, IsMessage);
    OptionalArrayCodec(r.turns, None, ParseTurn, EncodeTurn, IsTurn);
    OptionalArrayCodec(r.envelopes, None, parser, EncodeEnvelope, test);
    OptionalArrayCodec(r.toolEnvelopes, None, parser, EncodeEnvelope, test);
    OptionalArrayCodec(r.replay, None, parser, EncodeEnvelope, test);
    MutationsCodec(r.fileMutations, None);
    CheckpointCodec(r.checkpoints, None);
  }

  /** Parsing any accepted hydrate result, written back as a record, succeeds and gives the same result. */
  lemma ParsingIsAFixedPoint(value: Json, guard: PayloadGuard)
    requires ParseHydrate(value, guard).Some?
    ensures ParseHydrate(Obj(Encode(ParseHydrate(value, guard).value)), guard) == ParseHydrate(value, guard)
  {
    hide ParseHydrate, Encode, IsHydrated;
    ParsedIsHydrated(value, guard);
    HydrateRoundTrip(ParseHydrate(value, guard).value, guard);
  }

  lemma RawArrayIsVerbatim(value: Option<Json>)
    requires OptionalArray(value).Some?
    ensures EncodeRaw(OptionalArray(value).value) == value
  {
  }

  /** What acceptance says of each field. */
  lemma AcceptedFields(value: Json, guard: PayloadGuard)
    requires ParseHydrate(value, guard).Some?
    ensures var r, f := ParseHydrate(value, guard).value, value.fields;
            var envelope := EnvelopeParser(r.sessionId, guard);
            && Get(f, "session_id") == Some(Str(r.sessionId)) && ParseCursor(Get(f, "cursor")) == Some(r.cursor)
            && Get(f, "context") == r.context && Get(f, "context_state") == r.contextState
            && OptionalArray(Get(f, "threads")) == Some(r.threads)
            && OptionalArray(Get(f, "pending_approvals")) == Some(r.approvals)
            && OptionalArray(Get(f, "pending_questions")) == Some(r.questions)
            && ParseOptionalArray(Get(f, "messages"), ParseMessage) == Some(r.messages)
            && ParseOptionalArray(Get(f, "turns"), ParseTurn) == Some(r.turns)
            && ParseFileMutations(Get(f, "file_mutations")) == Some(r.fileMutations)
            && ParseOptionalArray(Get(f, "replayed_envelopes"), envelope) == Some(r.envelopes)
            && ParseOptionalArray(Get(f, "replayed_tool_envelopes"), envelope) == Some(r.toolEnvelopes)
            && ParseOptionalArray(Get(f, "replayed_projection_envelopes"), envelope) == Some(r.replay)
            && ParseCheckpoints(Get(f, "projection_thread_sequences")) == Some(r.checkpoints)
  {
    hide ParseOptionalArray, ParseFileMutations, ParseCheckpoints, ParseCursor, ReplayFits, EnvelopeParser,
      OptionalArray;
  }

  /** The fields carried over untouched. */
  ghost predicate SameVerbatimFields(g: map<string, Json>, f: map<string, Json>) {
    && Get(g, "session_id") == Get(f, "session_id")
    && Get(g, "context") == Get(f, "context")
    && Get(g, "context_state") == Get(f, "context_state")
    && Get(g, "threads") == Get(f, "threads")
    && Get(g, "pending_approvals") == Get(f, "pending_approvals")
    && Get(g, "pending_questions") == Get(f, "pending_questions")
    && Get(g, "projection_thread_sequences") == Get(f, "projection_thread_sequences")
  }

  lemma VerbatimFields(value: Json, guard: PayloadGuard)
    requires ParseHydrate(value, guard).Some?
    ensures SameVerbatimFields(Encode(ParseHydrate(value, guard).value), value.fields)
  {
    AcceptedFields(value, guard);
    FieldsRead(ParseHydrate(value, guard).value);
    hide ParseHydrate, ParseOptionalArray, ParseFileMutations, ParseCheckpoints, ParseCursor, EncodeArray,
      EncodeCheckpoints, EncodeCursor, EnvelopeParser, Encode, Field, OptionalArray, EncodeRaw, KEYS, Get;
    RawArrayIsVerbatim(Get(value.fields, "threads"));
    RawArrayIsVerbatim(Get(value.fields, "pending_approvals"));
    RawArrayIsVerbatim(Get(value.fields, "pending_questions"));
    CheckpointsInventNothing(Get(value.fields, "projection_thread_sequences"));
  }

  /**
   * An accepted record and its result agree field by field: raw fields and checkpoints are carried over untouched,
   * present exactly when given; the cursor's fields are the record's; and every array is parsed one for one, in
   * order, but for the file mutations, where unreadable entries are dropped.
   */
  lemma HydrateInventsNothing(value: Json, guard: PayloadGuard)
    requires ParseHydrate(value, guard).Some?
    ensures var r, f := ParseHydrate(value, guard).value, value.fields;
            var envelope := EnvelopeParser(r.sessionId, guard);
            && SameVerbatimFields(Encode(r), f)
            && CursorIsTheWires(r.cursor, Get(f, "cursor"))
            && ParsedFrom(r.messages, Get(f, "messages"), ParseMessage)
            && ParsedFrom(r.turns, Get(f, "turns"), ParseTurn)
            && ParsedFrom(r.envelopes, Get(f, "replayed_envelopes"), envelope)
            && ParsedFrom(r.toolEnvelopes, Get(f, "replayed_tool_envelopes"), envelope)
            && ParsedFrom(r.replay, Get(f, "replayed_projection_envelopes"), envelope)
            && ParseFileMutations(Get(f, "file_mutations")) == Some(r.fileMutations)
  {
    VerbatimFields(value, guard);
    AcceptedFields(value, guard);
    hide ParseHydrate, ParseOptionalArray, ParseFileMutations, ParseCheckpoints, ParseCursor, EnvelopeParser, Encode,
      ParsedFrom, CursorIsTheWires, OptionalArray, SameVerbatimFields;
    var r, f := ParseHydrate(value, guard).value, value.fields;
    var envelope := EnvelopeParser(r.sessionId, guard);
    ParsedCursorIsTheWires(Get(f, "cursor"));
    OptionalArrayParsedFrom(Get(f, "messages"), ParseMessage);
    OptionalArrayParsedFrom(Get(f, "turns"), ParseTurn);
    OptionalArrayParsedFrom(Get(f, "replayed_envelopes"), envelope);
    OptionalArrayParsedFrom(Get(f, "replayed_tool_envelopes"), envelope);
    OptionalArrayParsedFrom(Get(f, "replayed_projection_envelopes"), envelope);
  }

  /** Nothing unverifiable is hydrated: an accepted replay comes with checkpoints it satisfies and that bound it. */
  lemma AcceptedReplayFits(value: Json, guard: PayloadGuard, threads: seq<string>)
    requires ParseHydrate(value, guard).Some?
    ensures var r := ParseHydrate(value, guard).value;
            && r.replay.Some? == r.checkpoints.Some?
            && (r.replay.Some? ==>
                  && ValidReplay(r.replay.value, r.checkpoints.value, r.cursor)
                  && (Distinct(threads) && (forall t :: t in threads <==> t in r.checkpoints.value) ==>
                        |r.replay.value| <= Total(r.checkpoints.value, threads)))
  {
    var r := ParseHydrate(value, guard).value;
    if r.replay.Some? && Distinct(threads) && (forall t :: t in threads <==> t in r.checkpoints.value) {
      ReplayIsBounded(r.replay.value, r.checkpoints.value, r.cursor, threads);
    }
  }

  // ---------------------------------------------------------------- exactly what is read

  predicate SaysRaw(field: Option<Json>, items: Option<seq<Json>>) {
    if items.None? then field.None? else field == Some(Arr(items.value))
  }

  lemma RawReadExactly(field: Option<Json>, items: Option<seq<Json>>)
    ensures OptionalArray(field) == Some(items) <==> SaysRaw(field, items)
  {
  }

  /** The file mutations are the readable entries, in order. */
  ghost predicate SaysMutations(field: Option<Json>, fs: Option<seq<FileMutation>>) {
    if fs.None? then field.None?
    else
      && field.Some? && field.value.Arr?
      && var items := field.value.items;
      var ps := PositionsWhere(items, IsReadable, |items|);
      |fs.value| == |ps| && forall a :: 0 <= a < |ps| ==> ParseFileMutation(items[ps[a]]) == Some(fs.value[a])
  }

  lemma MutationsReadExactly(field: Option<Json>, fs: Option<seq<FileMutation>>)
    ensures ParseFileMutations(field) == Some(fs) <==> SaysMutations(field, fs)
  {
    hide ParseFileMutation, PositionsWhere;
    if field.Some? && field.value.Arr? {
      var items := field.value.items;
      ReadableEntriesAreKept(items, |items|);
      assert items[..|items|] == items;
      if SaysMutations(field, fs) {
        assert fs.value == ReadableMutations(items);
      }
    }
  }

  /** Each envelope is read for the hydrated session. */
  predicate SaysEnvelopes(field: Option<Json>, sessionId: string, guard: PayloadGuard, es: Option<seq<Envelope>>) {
    if es.None? then field.None?
    else
      && field.Some? && field.value.Arr? && |field.value.items| == |es.value|
      && forall i :: 0 <= i < |es.value| ==> ParseEnvelope(field.value.items[i], sessionId, guard) == Some(es.value[i])
  }

  lemma EnvelopesReadExactly(
      field: Option<Json>, sessionId: string, guard: PayloadGuard, es: Option<seq<Envelope>>)
    ensures ParseOptionalArray(field, EnvelopeParser(sessionId, guard)) == Some(es) <==>
              SaysEnvelopes(field, sessionId, guard, es)
  {
    OptionalArrayReadExactly(field, EnvelopeParser(sessionId, guard), es);
    hide ParseEnvelope, ParseOptionalArray;
  }

  /** The record is a hydrate result with these parts: replay and checkpoints both given and fitting, or neither. */
  ghost predicate SaysHydrated(f: map<string, Json>, guard: PayloadGuard, r: Hydrated) {
    && SaysText(Get(f, "session_id"), r.sessionId) && SaysCursor(Get(f, "cursor"), r.cursor)
    && Get(f, "context") == r.context && Get(f, "context_state") == r.contextState
    && SaysRaw(Get(f, "threads"), r.threads) && SaysRaw(Get(f, "pending_approvals"), r.approvals)
    && SaysRaw(Get(f, "pending_questions"), r.questions)
    && ParsedFrom(r.messages, Get(f, "messages"), ParseMessage) && ParsedFrom(r.turns, Get(f, "turns"), ParseTurn)
    && SaysMutations(Get(f, "file_mutations"), r.fileMutations)
    && SaysEnvelopes(Get(f, "replayed_envelopes"), r.sessionId, guard, r.envelopes)
    && SaysEnvelopes(Get(f, "replayed_tool_envelopes"), r.sessionId, guard, r.toolEnvelopes)
    && SaysEnvelopes(Get(f, "replayed_projection_envelopes"), r.sessionId, guard, r.replay)
    && SaysCheckpoints(Get(f, "projection_thread_sequences"), r.checkpoints)
    && (r.replay.Some? <==> r.checkpoints.Some?)
    && (r.replay.Some? ==> ValidReplay(r.replay.value, r.checkpoints.value, r.cursor))
  }

  /** A hydrate result is read if and only if the record is one; anything wrong in any part refuses the whole. */
  lemma HydrateReadExactly(value: Json, guard: PayloadGuard, r: Hydrated)
    ensures ParseHydrate(value, guard) == Some(r) <==> value.Obj? && SaysHydrated(value.fields, guard, r)
  {
    if value.Obj? {
      var f := value.fields;
      FieldsReadExactly(Get(f, "session_id"), r.sessionId, 0, 0);
      CursorReadExactly(Get(f, "cursor"), r.cursor);
      RawReadExactly(Get(f, "threads"), r.threads);
      RawReadExactly(Get(f, "pending_approvals"), r.approvals);
      RawReadExactly(Get(f, "pending_questions"), r.questions);
      OptionalArrayReadExactly(Get(f, "messages"), ParseMessage, r.messages);
      OptionalArrayReadExactly(Get(f, "turns"), ParseTurn, r.turns);
      MutationsReadExactly(Get(f, "file_mutations"), r.fileMutations);
      EnvelopesReadExactly(Get(f, "replayed_envelopes"), r.sessionId, guard, r.envelopes);
      EnvelopesReadExactly(Get(f, "replayed_tool_envelopes"), r.sessionId, guard, r.toolEnvelopes);
      EnvelopesReadExactly(Get(f, "replayed_projection_envelopes"), r.sessionId, guard, r.replay);
      CheckpointsReadExactly(Get(f, "projection_thread_sequences"), r.checkpoints);
      hide Get, Text, SaysText, ParseCursor, SaysCursor, OptionalArray, SaysRaw, ParseOptionalArray, ParsedFrom,
        SaysEnvelopes, ParseFileMutations, SaysMutations, ParseCheckpoints, SaysCheckpoints, EnvelopeParser,
        ValidReplay;
    }
  }
}
