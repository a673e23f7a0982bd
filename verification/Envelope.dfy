/** Cursors and projection envelopes: the parts of a hydrate result that nest. */
module Envelope {
  import opened Wrappers
  import opened Json

  datatype Cursor = Cursor(stream: string, seqNo: nat)

  datatype Envelope = Envelope(
    sessionId: string, threadId: string, seqNo: nat, turnId: string, payloadType: string, payloadData: Json,
    topic: Option<string>, clientMessageId: Option<string>, cursor: Option<Cursor>)

  /** The guard of `projection-payload.ts` on a payload; nothing here depends on what it accepts. */
  type PayloadGuard = (string, Json) -> bool

  /** Set an optional field: JavaScript's `...(v === undefined ? {} : { key: v })`. */
  function Put(fields: map<string, Json>, key: string, value: Option<Json>): (r: map<string, Json>)
    ensures forall k :: Get(r, k) == if k == key && value.Some? then value else Get(fields, k)
  {
    if value.Some? then fields[key := value.value] else fields
  }

  function ParseCursor(value: Option<Json>): Option<Cursor> {
    match value
    case Some(Obj(fields)) =>
      if Text(Get(fields, "stream")).None? || Count(Get(fields, "seq")).None? then None
      else Some(Cursor(Text(Get(fields, "stream")).value, Count(Get(fields, "seq")).value))
    case _ => None
  }

  function EncodeCursor(c: Cursor): Json {
    Obj(map["stream" := Str(c.stream), "seq" := Integer(c.seqNo)])
  }

  predicate IsCursor(c: Cursor) { c.seqNo <= MAX_SAFE_INTEGER }

  lemma CursorRoundTrip(c: Cursor)
    requires IsCursor(c)
    ensures ParseCursor(Some(EncodeCursor(c))) == Some(c)
  {
  }

  lemma ParsedCursorIsCursor(value: Option<Json>)
    ensures ParseCursor(value).Some? ==> IsCursor(ParseCursor(value).value)
  {
  }

  function ParseEnvelope(value: Json, sessionId: string, guard: PayloadGuard): Option<Envelope> {
    match value
    case Obj(fields) =>
      if "session_id" in fields && fields["session_id"] != Str(sessionId) then None
      else
        var thread, seqNo, turn :=
          Text(Get(fields, "thread_id")), Count(Get(fields, "seq")), Text(Get(fields, "turn_id"));
        (match Get(fields, "payload")
         case Some(Obj(payload)) =>
           if thread.None? || seqNo.None? || turn.None? || Text(Get(payload, "type")).None? || "data" !in payload
              || !guard(Text(Get(payload, "type")).value, payload["data"])
           then None
           else if "cursor" in fields && ParseCursor(Get(fields, "cursor")).None? then None
           else Some(Envelope(
                       sessionId, thread.value, seqNo.value, turn.value, Text(Get(payload, "type")).value,
                       payload["data"], Text(Get(fields, "topic")), Text(Get(fields, "client_message_id")),
                       ParseCursor(Get(fields, "cursor"))))
         case _ => None)
    case _ => None
  }

  function EncodePayload(e: Envelope): Json {
    Obj(map["type" := Str(e.payloadType), "data" := e.payloadData])
  }

  function EnvelopeFields(e: Envelope): map<string, Json> {
    var required :=
      map["session_id" := Str(e.sessionId), "thread_id" := Str(e.threadId), "seq" := Integer(e.seqNo),
          "turn_id" := Str(e.turnId), "payload" := EncodePayload(e)];
    var cursor := match e.cursor case Some(c) => Some(EncodeCursor(c)) case None => None;
    var named := Put(required, "topic", FieldOfText(e.topic));
    Put(Put(named, "client_message_id", FieldOfText(e.clientMessageId)), "cursor", cursor)
  }

  lemma EnvelopeFieldsRead(e: Envelope)
    ensures var f := EnvelopeFields(e);
            && Get(f, "session_id") == Some(Str(e.sessionId))
            && Get(f, "thread_id") == Some(Str(e.threadId))
            && Get(f, "seq") == Some(Integer(e.seqNo))
            && Get(f, "turn_id") == Some(Str(e.turnId))
            && Get(f, "payload") == Some(EncodePayload(e))
            && Get(f, "topic") == FieldOfText(e.topic)
            && Get(f, "client_message_id") == FieldOfText(e.clientMessageId)
            && Get(f, "cursor") == (match e.cursor case Some(c) => Some(EncodeCursor(c)) case None => None)
  {
  }

  predicate IsEnvelope(e: Envelope, sessionId: string, guard: PayloadGuard) {
    && e.sessionId == sessionId && e.seqNo <= MAX_SAFE_INTEGER
    && guard(e.payloadType, e.payloadData)
    && (e.cursor.Some? ==> IsCursor(e.cursor.value))
  }

  lemma ParsedEnvelopeIsEnvelope(value: Json, sessionId: string, guard: PayloadGuard)
    ensures var e := ParseEnvelope(value, sessionId, guard);
            e.Some? ==> IsEnvelope(e.value, sessionId, guard)
  {
  }

  /** A sound envelope, written as a record, reads back the same. */
  lemma EnvelopeRoundTrip(e: Envelope, sessionId: string, guard: PayloadGuard)
    requires IsEnvelope(e, sessionId, guard)
    ensures ParseEnvelope(Obj(EnvelopeFields(e)), sessionId, guard) == Some(e)
  {
    hide EnvelopeFields, ParseCursor, EncodeCursor;
    EnvelopeFieldsRead(e);
    IntegerIsCount(e.seqNo);
    assert "type" != "data";
    NoCursor();
    if e.cursor.Some? {
      CursorRoundTrip(e.cursor.value);
    }
  }

  lemma NoCursor()
    ensures ParseCursor(None) == None
  {
  }

  /** The cursor's two fields are the wire's own; other fields of it are dropped. */
  ghost predicate CursorIsTheWires(c: Cursor, wire: Option<Json>) {
    && wire.Some? && wire.value.Obj?
    && Get(wire.value.fields, "stream") == Some(Str(c.stream))
    && Get(wire.value.fields, "seq") == Some(Integer(c.seqNo))
  }

  lemma ParsedCursorIsTheWires(value: Option<Json>)
    ensures ParseCursor(value).Some? ==> CursorIsTheWires(ParseCursor(value).value, value)
  {
  }

  /**
   * Every field of a parsed envelope is the wire's own: only a missing session is filled in, with the session hydrated,
   * and only unknown fields of the payload and the cursor are dropped.
   */
  lemma EnvelopeInventsNothing(value: Json, sessionId: string, guard: PayloadGuard, key: string)
    requires ParseEnvelope(value, sessionId, guard).Some?
    requires key in EnvelopeFields(ParseEnvelope(value, sessionId, guard).value)
    ensures var e := ParseEnvelope(value, sessionId, guard).value;
            if key == "session_id" then
              e.sessionId == sessionId && (key in value.fields ==> value.fields[key] == Str(sessionId))
            else if key == "payload" then
              && key in value.fields && value.fields[key].Obj?
              && Get(value.fields[key].fields, "type") == Some(Str(e.payloadType))
              && Get(value.fields[key].fields, "data") == Some(e.payloadData)
            else if key == "cursor" then e.cursor.Some? && CursorIsTheWires(e.cursor.value, Get(value.fields, key))
            else key in value.fields && value.fields[key] == EnvelopeFields(e)[key]
  {
    hide EnvelopeFields, ParseCursor, EncodeCursor, CursorIsTheWires;
    var e := ParseEnvelope(value, sessionId, guard).value;
    EnvelopeFieldsRead(e);
    EnvelopeHasItsKeys(e, key);
    ParsedCursorIsTheWires(Get(value.fields, "cursor"));
  }

  lemma EnvelopeHasItsKeys(e: Envelope, key: string)
    requires key in EnvelopeFields(e)
    ensures key in {"session_id", "thread_id", "seq", "turn_id", "payload", "topic", "client_message_id", "cursor"}
    ensures key == "cursor" ==> e.cursor.Some?
    ensures key == "topic" ==> e.topic.Some?
    ensures key == "client_message_id" ==> e.clientMessageId.Some?
  {
    EnvelopeFieldsRead(e);
  }

  // ---------------------------------------------------------------- exactly what is read

  predicate SaysCursor(field: Option<Json>, c: Cursor) {
    && field.Some? && field.value.Obj?
    && SaysText(Get(field.value.fields, "stream"), c.stream) && SaysCount(Get(field.value.fields, "seq"), c.seqNo)
  }

  lemma CursorReadExactly(field: Option<Json>, c: Cursor)
    ensures ParseCursor(field) == Some(c) <==> SaysCursor(field, c)
  {
  }

  /** An optional text that is dropped when it is no text. */
  predicate SaysTextIfAny(field: Option<Json>, s: Option<string>) {
    if s.Some? then SaysText(field, s.value) else !IsText(field)
  }

  predicate SaysEnvelope(f: map<string, Json>, sessionId: string, guard: PayloadGuard, e: Envelope) {
    && e.sessionId == sessionId && ("session_id" in f ==> f["session_id"] == Str(sessionId))
    && SaysText(Get(f, "thread_id"), e.threadId) && SaysCount(Get(f, "seq"), e.seqNo)
    && SaysText(Get(f, "turn_id"), e.turnId)
    && "payload" in f && f["payload"].Obj?
    && SaysText(Get(f["payload"].fields, "type"), e.payloadType)
    && Get(f["payload"].fields, "data") == Some(e.payloadData) && guard(e.payloadType, e.payloadData)
    && SaysTextIfAny(Get(f, "topic"), e.topic) && SaysTextIfAny(Get(f, "client_message_id"), e.clientMessageId)
    && if e.cursor.Some? then SaysCursor(Get(f, "cursor"), e.cursor.value) else "cursor" !in f
  }

  /** An envelope is read if and only if the record is one; a record without a session takes the hydrated one. */
  lemma EnvelopeReadExactly(value: Json, sessionId: string, guard: PayloadGuard, e: Envelope)
    ensures ParseEnvelope(value, sessionId, guard) == Some(e) <==>
              value.Obj? && SaysEnvelope(value.fields, sessionId, guard, e)
  {
    hide ParseCursor, SaysCursor;
    if value.Obj? {
      var f := value.fields;
      if e.cursor.Some? {
        CursorReadExactly(Get(f, "cursor"), e.cursor.value);
      } else if ParseCursor(Get(f, "cursor")).Some? {
        CursorReadExactly(Get(f, "cursor"), ParseCursor(Get(f, "cursor")).value);
      }
      NoCursor();
    }
  }
}
