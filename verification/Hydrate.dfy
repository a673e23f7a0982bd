/** The fields of a `session/hydrate` result, each with what makes parsing it again give the same value. */
module Hydrate {
  import opened Wrappers
  import opened Json
  import opened Seqs
  import opened Envelope
  import opened Replay
  import Chars

  const MAX_PATH: nat := 4096

  datatype Message = Message(
    seqNo: nat, role: string, content: string, persistedAt: string, media: seq<string>, extras: map<string, string>)

  datatype Turn = Turn(turnId: string, state: string, extras: map<string, string>, durable: Option<bool>)

  datatype FileMutation = FileMutation(
    path: string, operation: string, previewId: Option<string>, bytesWritten: Option<nat>)

  // ---------------------------------------------------------------- optional arrays

  /** Every entry must parse, or the whole array is refused. */
  function ParseAll<T>(items: seq<Json>, parse: Json -> Option<T>): Option<seq<T>> {
    if items == [] then Some([])
    else
      match (parse(items[0]), ParseAll(items[1..], parse))
      case (Some(x), Some(xs)) => Some([x] + xs)
      case _ => None
  }

  /** `None` refuses the record; `Some(None)` is an absent field. */
  function ParseOptionalArray<T>(value: Option<Json>, parse: Json -> Option<T>): Option<Option<seq<T>>> {
    match value
    case None => Some(None)
    case Some(Arr(items)) =>
      (match ParseAll(items, parse)
       case Some(xs) => Some(Some(xs))
       case None => None)
    case _ => None
  }

  function OptionalArray(value: Option<Json>): Option<Option<seq<Json>>> {
    match value
    case None => Some(None)
    case Some(Arr(items)) => Some(Some(items))
    case _ => None
  }

  function EncodeAll<T>(xs: seq<T>, encode: T -> Json): (items: seq<Json>)
    ensures |items| == |xs| && forall i :: 0 <= i < |xs| ==> items[i] == encode(xs[i])
  {
    seq(|xs|, i requires 0 <= i < |xs| => encode(xs[i]))
  }

  function EncodeArray<T>(xs: Option<seq<T>>, encode: T -> Json): Option<Json> {
    match xs
    case Some(ys) => Some(Arr(EncodeAll(ys, encode)))
    case None => None
  }

  /** `parse` yields exactly the sound elements, and reads back what `encode` writes for them. */
  ghost predicate Codec<T(!new)>(parse: Json -> Option<T>, encode: T -> Json, sound: T -> bool) {
    && (forall j :: parse(j).Some? ==> sound(parse(j).value))
    && (forall x :: sound(x) ==> parse(encode(x)) == Some(x))
  }

  predicate AllSound<T>(xs: Option<seq<T>>, sound: T -> bool) {
    xs.Some? ==> forall i :: 0 <= i < |xs.value| ==> sound(xs.value[i])
  }

  lemma {:induction false} ParseAllEncoded<T(!new)>(
      xs: seq<T>, parse: Json -> Option<T>, encode: T -> Json, sound: T -> bool)
    requires Codec(parse, encode, sound) && forall i :: 0 <= i < |xs| ==> sound(xs[i])
    ensures ParseAll(EncodeAll(xs, encode), parse) == Some(xs)
  {
    if xs != [] {
      ParseAllEncoded(xs[1..], parse, encode, sound);
      assert EncodeAll(xs, encode)[1..] == EncodeAll(xs[1..], encode);
      assert xs == [xs[0]] + xs[1..];
    }
  }

  lemma {:induction false} ParseAllSound<T(!new)>(
      items: seq<Json>, parse: Json -> Option<T>, encode: T -> Json, sound: T -> bool)
    requires Codec(parse, encode, sound) && ParseAll(items, parse).Some?
    ensures AllSound(ParseAll(items, parse), sound)
  {
    if items != [] {
      ParseAllSound(items[1..], parse, encode, sound);
    }
  }

  /** The elements parsed are the elements given, one for one and in order. */
  predicate ParsedFrom<T(==)>(xs: Option<seq<T>>, value: Option<Json>, parse: Json -> Option<T>) {
    if xs.None? then value.None?
    else
      && value.Some? && value.value.Arr? && |value.value.items| == |xs.value|
      && forall i :: 0 <= i < |xs.value| ==> parse(value.value.items[i]) == Some(xs.value[i])
  }

  lemma {:induction false} ParsedOneForOne<T>(items: seq<Json>, parse: Json -> Option<T>)
    requires ParseAll(items, parse).Some?
    ensures var xs := ParseAll(items, parse).value;
            |xs| == |items| && forall i :: 0 <= i < |items| ==> parse(items[i]) == Some(xs[i])
  {
    if items != [] {
      ParsedOneForOne(items[1..], parse);
    }
  }

  lemma OptionalArrayParsedFrom<T>(value: Option<Json>, parse: Json -> Option<T>)
    requires ParseOptionalArray(value, parse).Some?
    ensures ParsedFrom(ParseOptionalArray(value, parse).value, value, parse)
  {
    if value.Some? {
      ParsedOneForOne(value.value.items, parse);
    }
  }

  lemma OptionalArrayCodec<T(!new)>(
      xs: Option<seq<T>>, value: Option<Json>, parse: Json -> Option<T>, encode: T -> Json, sound: T -> bool)
    requires Codec(parse, encode, sound)
    ensures AllSound(xs, sound) ==> ParseOptionalArray(EncodeArray(xs, encode), parse) == Some(xs)
    ensures ParseOptionalArray(value, parse).Some? ==> AllSound(ParseOptionalArray(value, parse).value, sound)
  {
    if xs.Some? && AllSound(xs, sound) {
      ParseAllEncoded(xs.value, parse, encode, sound);
    }
    if value.Some? && ParseOptionalArray(value, parse).Some? {
      ParseAllSound(value.value.items, parse, encode, sound);
    }
  }

  // ---------------------------------------------------------------- optional strings

  /** Present fields among `keys` must be strings. */
  predicate OptionalStrings(fields: map<string, Json>, keys: set<string>) {
    forall key :: key in keys && key in fields ==> fields[key].Str?
  }

  function CopyStrings(fields: map<string, Json>, keys: set<string>): map<string, string> {
    map key | key in keys && key in fields && fields[key].Str? :: fields[key].s
  }

  function EncodeTexts(strings: map<string, string>): map<string, Json> {
    map key | key in strings :: Str(strings[key])
  }

  /** Optional strings written over required fields with other names are read back. */
  lemma StringsRoundTrip(required: map<string, Json>, strings: map<string, string>, keys: set<string>)
    requires strings.Keys <= keys && required.Keys !! keys
    ensures var fields := required + EncodeTexts(strings);
            && OptionalStrings(fields, keys) && CopyStrings(fields, keys) == strings
            && forall k :: k in required ==> Get(fields, k) == Some(required[k])
  {
  }

  // ---------------------------------------------------------------- messages

  const MESSAGE_STRINGS: set<string> :=
    {"turn_id", "thread_id", "client_message_id", "reasoning_content", "message_id", "source"}

  function ParseString(value: Json): Option<string> { if value.Str? then Some(value.s) else None }

  function ParseMessage(value: Json): Option<Message> {
    match value
    case Obj(fields) =>
      var seqNo, role, content, persisted :=
        Count(Get(fields, "seq")), Text(Get(fields, "role")), Text(Get(fields, "content")),
        Text(Get(fields, "persisted_at"));
      if seqNo.None? || role.None? || content.None? || persisted.None? then None
      else if !OptionalStrings(fields, MESSAGE_STRINGS) then None
      else
        (match ParseOptionalArray(Get(fields, "media"), ParseString)
         case None => None
         case Some(media) =>
           Some(Message(seqNo.value, role.value, content.value, persisted.value,
                        if media.Some? then media.value else [], CopyStrings(fields, MESSAGE_STRINGS))))
    case _ => None
  }

  function MessageFields(m: Message): map<string, Json> {
    map["seq" := Integer(m.seqNo), "role" := Str(m.role), "content" := Str(m.content),
        "persisted_at" := Str(m.persistedAt), "media" := Arr(EncodeAll(m.media, FromText))]
  }

  function EncodeMessage(m: Message): Json {
    Obj(MessageFields(m) + EncodeTexts(m.extras))
  }

  lemma MessageFieldsRead(m: Message)
    ensures var f := MessageFields(m);
            && f.Keys !! MESSAGE_STRINGS
            && Get(f, "seq") == Some(Integer(m.seqNo)) && Get(f, "role") == Some(Str(m.role))
            && Get(f, "content") == Some(Str(m.content)) && Get(f, "persisted_at") == Some(Str(m.persistedAt))
            && Get(f, "media") == Some(Arr(EncodeAll(m.media, FromText)))
  {
  }

  predicate IsMessage(m: Message) {
    m.seqNo <= MAX_SAFE_INTEGER && m.extras.Keys <= MESSAGE_STRINGS
  }

  lemma MessageRoundTrip(m: Message)
    requires IsMessage(m)
    ensures ParseMessage(EncodeMessage(m)) == Some(m)
  {
    hide MessageFields;
    MessageFieldsRead(m);
    StringsRoundTrip(MessageFields(m), m.extras, MESSAGE_STRINGS);
    IntegerIsCount(m.seqNo);
    StringsAreStable(m.media);
  }

  lemma {:induction false} StringsAreStable(xs: seq<string>)
    ensures ParseAll(EncodeAll(xs, FromText), ParseString) == Some(xs)
  {
    if xs != [] {
      StringsAreStable(xs[1..]);
      assert EncodeAll(xs, FromText)[1..] == EncodeAll(xs[1..], FromText);
      assert xs == [xs[0]] + xs[1..];
    }
  }

  lemma {:induction false} ParsedStringsAreTheItems(items: seq<Json>)
    requires ParseAll(items, ParseString).Some?
    ensures EncodeAll(ParseAll(items, ParseString).value, FromText) == items
  {
    if items != [] {
      ParsedStringsAreTheItems(items[1..]);
      var x, xs := ParseString(items[0]).value, ParseAll(items[1..], ParseString).value;
      assert EncodeAll([x] + xs, FromText) == [items[0]] + EncodeAll(xs, FromText);
    }
  }

  /** Every field of a parsed message is the wire's own; only a missing media list is filled in, with no media. */
  lemma MessageInventsNothing(value: Json, key: string)
    requires ParseMessage(value).Some? && key in EncodeMessage(ParseMessage(value).value).fields
    ensures var wire := EncodeMessage(ParseMessage(value).value).fields[key];
            if key == "media" && key !in value.fields then wire == Arr([])
            else key in value.fields && value.fields[key] == wire
  {
    var m := ParseMessage(value).value;
    MessageFieldsRead(m);
    if "media" in value.fields {
      ParsedStringsAreTheItems(value.fields["media"].items);
    } else {
      assert EncodeAll<string>([], FromText) == [];
    }
  }

  // ---------------------------------------------------------------- turns

  const TURN_STRINGS: set<string> := {"started_at", "completed_at", "thread_id"}

  function ParseTurn(value: Json): Option<Turn> {
    match value
    case Obj(fields) =>
      var turn, state, durable :=
        Text(Get(fields, "turn_id")), Text(Get(fields, "state")), Get(fields, "completed_at_durable");
      if turn.None? || state.None? || !OptionalStrings(fields, TURN_STRINGS) then None
      else if durable.Some? && !durable.value.Null? && !durable.value.Bool? then None
      else Some(Turn(turn.value, state.value, CopyStrings(fields, TURN_STRINGS),
                     if durable.Some? && durable.value.Bool? then Some(durable.value.b) else None))
    case _ => None
  }

  function TurnFields(t: Turn): map<string, Json> {
    Put(map["turn_id" := Str(t.turnId), "state" := Str(t.state)], "completed_at_durable",
        match t.durable case Some(b) => Some(Bool(b)) case None => None)
  }

  function EncodeTurn(t: Turn): Json {
    Obj(TurnFields(t) + EncodeTexts(t.extras))
  }

  predicate IsTurn(t: Turn) { t.extras.Keys <= TURN_STRINGS }

  lemma TurnRoundTrip(t: Turn)
    requires IsTurn(t)
    ensures ParseTurn(EncodeTurn(t)) == Some(t)
  {
    assert |"turn_id"| == 7 && |"state"| == 5 && |"completed_at_durable"| == 20;
    assert |"started_at"| == 10 && |"completed_at"| == 12 && |"thread_id"| == 9;
    StringsRoundTrip(TurnFields(t), t.extras, TURN_STRINGS);
    assert Get(TurnFields(t) + EncodeTexts(t.extras), "completed_at_durable")
        == Get(TurnFields(t), "completed_at_durable");
  }

  /** Every field of a parsed turn is the wire's own. */
  lemma TurnInventsNothing(value: Json, key: string)
    requires ParseTurn(value).Some? && key in EncodeTurn(ParseTurn(value).value).fields
    ensures key in value.fields && value.fields[key] == EncodeTurn(ParseTurn(value).value).fields[key]
  {
  }

  // ---------------------------------------------------------------- file mutations

  const OPERATIONS: set<string> := {"create", "write", "modify", "delete"}

  predicate ReadablePath(path: string) {
    path != "" && |path| <= MAX_PATH && forall i :: 0 <= i < |path| ==> !Chars.IsControl(path[i])
  }

  /** An operation this build does not know reads as `modify`. */
  function KnownOperation(value: Option<string>): string {
    if value.Some? && value.value in OPERATIONS then value.value else "modify"
  }

  function KnownPreview(value: Option<string>): Option<string> {
    if value.Some? && Chars.IsProtocolUuid(value.value) then value else None
  }

  function ParseFileMutation(value: Json): Option<FileMutation> {
    match value
    case Obj(fields) =>
      (match Text(Get(fields, "path"))
       case None => None
       case Some(written) =>
         var path := Chars.Trim(written);
         if !ReadablePath(path) then None
         else Some(FileMutation(
                     path, KnownOperation(Text(Get(fields, "operation"))),
                     KnownPreview(Text(Get(fields, "preview_id"))), Count(Get(fields, "bytes_written")))))
    case _ => None
  }

  function FileMutationFields(f: FileMutation): map<string, Json> {
    Put(Put(map["path" := Str(f.path), "operation" := Str(f.operation)], "preview_id", FieldOfText(f.previewId)),
        "bytes_written", FieldOfCount(f.bytesWritten))
  }

  function EncodeFileMutation(f: FileMutation): Json { Obj(FileMutationFields(f)) }

  lemma FileMutationFieldsRead(f: FileMutation)
    ensures var g := FileMutationFields(f);
            && Get(g, "path") == Some(Str(f.path)) && Get(g, "operation") == Some(Str(f.operation))
            && Get(g, "preview_id") == FieldOfText(f.previewId)
            && Get(g, "bytes_written") == FieldOfCount(f.bytesWritten)
  {
  }

  predicate IsFileMutation(f: FileMutation) {
    && f.path == Chars.Trim(f.path) && ReadablePath(f.path) && f.operation in OPERATIONS
    && (f.previewId.Some? ==> Chars.IsProtocolUuid(f.previewId.value))
    && (f.bytesWritten.Some? ==> f.bytesWritten.value <= MAX_SAFE_INTEGER)
  }

  lemma ParsedFileMutationIsSound(value: Json)
    ensures ParseFileMutation(value).Some? ==> IsFileMutation(ParseFileMutation(value).value)
  {
    hide Chars.Trim, Chars.IsProtocolUuid, ReadablePath;
    if ParseFileMutation(value).Some? {
      Chars.TrimTwice(Text(Get(value.fields, "path")).value);
    }
  }

  lemma FileMutationRoundTrip(f: FileMutation)
    requires IsFileMutation(f)
    ensures ParseFileMutation(EncodeFileMutation(f)) == Some(f)
  {
    hide FileMutationFields, ReadablePath, Chars.Trim, Chars.IsProtocolUuid;
    FileMutationFieldsRead(f);
    if f.bytesWritten.Some? { IntegerIsCount(f.bytesWritten.value); }
  }

  /** Unreadable entries are dropped, as on the live path. */
  function ReadableMutations(items: seq<Json>): seq<FileMutation> {
    if items == [] then []
    else
      (match ParseFileMutation(items[0]) case Some(f) => [f] case None => []) + ReadableMutations(items[1..])
  }

  function ParseFileMutations(value: Option<Json>): Option<Option<seq<FileMutation>>> {
    match value
    case None => Some(None)
    case Some(Arr(items)) => Some(Some(ReadableMutations(items)))
    case _ => None
  }

  lemma {:induction false} MutationsRoundTrip(fs: seq<FileMutation>)
    requires forall i :: 0 <= i < |fs| ==> IsFileMutation(fs[i])
    ensures ReadableMutations(EncodeAll(fs, EncodeFileMutation)) == fs
  {
    hide ParseFileMutation, EncodeFileMutation, IsFileMutation;
    if fs != [] {
      MutationsRoundTrip(fs[1..]);
      FileMutationRoundTrip(fs[0]);
      assert EncodeAll(fs, EncodeFileMutation)[1..] == EncodeAll(fs[1..], EncodeFileMutation);
      assert fs == [fs[0]] + fs[1..];
    }
  }

  lemma {:induction false} ReadMutationsAreSound(items: seq<Json>, f: FileMutation)
    requires f in ReadableMutations(items)
    ensures IsFileMutation(f)
  {
    hide ParseFileMutation, IsFileMutation;
    ParsedFileMutationIsSound(items[0]);
    if ParseFileMutation(items[0]) != Some(f) {
      ReadMutationsAreSound(items[1..], f);
    }
  }

  // ---------------------------------------------------------------- checkpoints

  predicate ReadableCheckpoints(fields: map<string, Json>) {
    forall thread :: thread in fields ==> Chars.IsNonBlank(thread) && Count(Some(fields[thread])).Some?
  }

  function CountsOf(fields: map<string, Json>): Checkpoints
    requires ReadableCheckpoints(fields)
  {
    map thread | thread in fields :: Count(Some(fields[thread])).value
  }

  function ParseCheckpoints(value: Option<Json>): Option<Option<Checkpoints>> {
    match value
    case None => Some(None)
    case Some(Obj(fields)) => if ReadableCheckpoints(fields) then Some(Some(CountsOf(fields))) else None
    case _ => None
  }

  function CheckpointFields(c: Checkpoints): map<string, Json> {
    map thread | thread in c :: Integer(c[thread])
  }

  function EncodeCheckpoints(checkpoints: Option<Checkpoints>): Option<Json> {
    match checkpoints
    case Some(c) => Some(Obj(CheckpointFields(c)))
    case None => None
  }

  predicate AreCheckpoints(c: Checkpoints) {
    forall thread :: thread in c ==> Chars.IsNonBlank(thread) && c[thread] <= MAX_SAFE_INTEGER
  }

  lemma CheckpointsCodec(c: Checkpoints, value: Option<Json>)
    ensures AreCheckpoints(c) ==> ParseCheckpoints(EncodeCheckpoints(Some(c))) == Some(Some(c))
    ensures ParseCheckpoints(value).Some? && ParseCheckpoints(value).value.Some? ==>
              AreCheckpoints(ParseCheckpoints(value).value.value)
  {
    hide Chars.IsNonBlank, Count, Integer;
    if AreCheckpoints(c) {
      var fields := CheckpointFields(c);
      forall thread | thread in c
        ensures Count(Some(fields[thread])) == Some(c[thread])
      {
        IntegerIsCount(c[thread]);
      }
      assert CountsOf(fields) == c;
    }
    if value.Some? && value.value.Obj? {
      forall thread | thread in value.value.fields
        ensures var n := Count(Some(value.value.fields[thread]));
                n.Some? ==> n.value <= MAX_SAFE_INTEGER
      {
        CountIsSafe(Some(value.value.fields[thread]));
      }
    }
  }

  /** Accepted checkpoints are the wire's own. */
  lemma CheckpointsInventNothing(value: Option<Json>)
    requires ParseCheckpoints(value).Some?
    ensures EncodeCheckpoints(ParseCheckpoints(value).value) == value
  {
    hide Chars.IsNonBlank;
    if value.Some? {
      assert CheckpointFields(CountsOf(value.value.fields)) == value.value.fields;
    }
  }

  // ---------------------------------------------------------------- exactly what is read

  /** The optional texts under `keys`: each is a text that was kept, or absent. */
  predicate SaysTexts(f: map<string, Json>, keys: set<string>, texts: map<string, string>) {
    && texts.Keys <= keys
    && forall key :: key in keys ==> Get(f, key) == if key in texts then Some(Str(texts[key])) else None
  }

  lemma TextsReadExactly(f: map<string, Json>, keys: set<string>, texts: map<string, string>)
    ensures OptionalStrings(f, keys) && CopyStrings(f, keys) == texts <==> SaysTexts(f, keys, texts)
  {
    if SaysTexts(f, keys, texts) {
      assert CopyStrings(f, keys) == texts;
    }
  }

  predicate SaysMedia(field: Option<Json>, media: seq<string>) {
    if field.None? then media == []
    else
      && field.value.Arr? && |field.value.items| == |media|
      && forall i :: 0 <= i < |media| ==> field.value.items[i] == Str(media[i])
  }

  predicate SaysMessage(f: map<string, Json>, m: Message) {
    && SaysCount(Get(f, "seq"), m.seqNo) && SaysText(Get(f, "role"), m.role)
    && SaysText(Get(f, "content"), m.content) && SaysText(Get(f, "persisted_at"), m.persistedAt)
    && SaysMedia(Get(f, "media"), m.media)
    && SaysTexts(
         f, {"turn_id", "thread_id", "client_message_id", "reasoning_content", "message_id", "source"}, m.extras)
  }

  lemma {:induction false} TextItemsReadExactly(items: seq<Json>, xs: seq<string>)
    ensures ParseAll(items, ParseString) == Some(xs) <==>
              |items| == |xs| && forall i :: 0 <= i < |xs| ==> items[i] == Str(xs[i])
  {
    if ParseAll(items, ParseString).Some? {
      ParsedOneForOne(items, ParseString);
    }
    if |items| == |xs| && forall i :: 0 <= i < |xs| ==> items[i] == Str(xs[i]) {
      StringsAreStable(xs);
      assert items == EncodeAll(xs, FromText);
    }
  }

  lemma MediaReadExactly(field: Option<Json>, media: seq<string>)
    ensures var read := ParseOptionalArray(field, ParseString);
            read.Some? && media == (if read.value.Some? then read.value.value else []) <==> SaysMedia(field, media)
  {
    if field.Some? && field.value.Arr? {
      TextItemsReadExactly(field.value.items, media);
      if ParseAll(field.value.items, ParseString).Some? {
        TextItemsReadExactly(field.value.items, ParseAll(field.value.items, ParseString).value);
      }
    }
  }

  /** A message is read if and only if the record is one. */
  lemma MessageReadExactly(value: Json, m: Message)
    ensures ParseMessage(value) == Some(m) <==> value.Obj? && SaysMessage(value.fields, m)
  {
    if value.Obj? {
      var f := value.fields;
      FieldsReadExactly(Get(f, "seq"), "", m.seqNo, 0);
      FieldsReadExactly(Get(f, "role"), m.role, 0, 0);
      FieldsReadExactly(Get(f, "content"), m.content, 0, 0);
      FieldsReadExactly(Get(f, "persisted_at"), m.persistedAt, 0, 0);
      MediaReadExactly(Get(f, "media"), m.media);
      TextsReadExactly(f, MESSAGE_STRINGS, m.extras);
      hide Count, Text, Get, SaysCount, SaysText, SaysMedia, SaysTexts, OptionalStrings, CopyStrings,
        ParseOptionalArray;
    }
  }

  predicate SaysTurn(f: map<string, Json>, t: Turn) {
    && SaysText(Get(f, "turn_id"), t.turnId) && SaysText(Get(f, "state"), t.state)
    && SaysTexts(f, {"started_at", "completed_at", "thread_id"}, t.extras)
    && if t.durable.Some? then Get(f, "completed_at_durable") == Some(Bool(t.durable.value))
       else Missing(Get(f, "completed_at_durable"))
  }

  /** A turn is read if and only if the record is one; a null durability is an absent one. */
  lemma TurnReadExactly(value: Json, t: Turn)
    ensures ParseTurn(value) == Some(t) <==> value.Obj? && SaysTurn(value.fields, t)
  {
    if value.Obj? {
      TextsReadExactly(value.fields, TURN_STRINGS, t.extras);
      hide SaysTexts, OptionalStrings, CopyStrings;
    }
  }

  /** The path text, trimmed, is what is read, if it is neither empty, too long nor holds a control character. */
  predicate SaysPath(field: Option<Json>, path: string) {
    && field.Some? && field.value.Str? && path == Chars.Trim(field.value.s)
    && 0 < |path| <= 4096 && forall i :: 0 <= i < |path| ==> !Chars.IsControl(path[i])
  }

  ghost predicate SaysFileMutation(fields: map<string, Json>, f: FileMutation) {
    && SaysPath(Get(fields, "path"), f.path)
    && f.operation == (if Get(fields, "operation") in {Some(Str("create")), Some(Str("write")), Some(Str("delete"))}
                       then Get(fields, "operation").value.s else "modify")
    && (if f.previewId.Some? then Chars.IsProtocolUuid(f.previewId.value)
                                  && SaysText(Get(fields, "preview_id"), f.previewId.value)
        else !IsUuidField(Get(fields, "preview_id")))
    && if f.bytesWritten.Some? then SaysCount(Get(fields, "bytes_written"), f.bytesWritten.value)
       else !IsCountField(Get(fields, "bytes_written"))
  }

  predicate IsUuidField(field: Option<Json>) { field.Some? && field.value.Str? && Chars.IsProtocolUuid(field.value.s) }

  ghost predicate IsCountField(field: Option<Json>) { exists n :: SaysCount(field, n) }

  lemma CountFieldReadExactly(field: Option<Json>)
    ensures Count(field).Some? <==> IsCountField(field)
  {
    if Count(field).Some? {
      assert SaysCount(field, Count(field).value);
    }
  }

  /**
   * A mutation is read if and only if its path is readable. An operation that is none of the four reads as `modify`,
   * and a malformed preview or byte count as absent.
   */
  lemma FileMutationReadExactly(value: Json, f: FileMutation)
    ensures ParseFileMutation(value) == Some(f) <==> value.Obj? && SaysFileMutation(value.fields, f)
  {
    hide Chars.Trim, Chars.IsProtocolUuid, Chars.IsControl;
    if value.Obj? {
      CountFieldReadExactly(Get(value.fields, "bytes_written"));
      hide IsCountField;
    }
  }

  predicate IsReadable(item: Json) { ParseFileMutation(item).Some? }

  lemma {:induction false} ReadableWithOneMore(items: seq<Json>, item: Json)
    ensures ReadableMutations(items + [item]) ==
              ReadableMutations(items) + match ParseFileMutation(item) case Some(f) => [f] case None => []
  {
    hide ParseFileMutation;
    if items == [] {
      assert [] + [item] == [item] && [item][1..] == [];
    } else {
      ReadableWithOneMore(items[1..], item);
      assert (items + [item])[1..] == items[1..] + [item];
    }
  }

  /** The readable entries are kept, one for one and in order, and no other. */
  lemma {:induction false} ReadableEntriesAreKept(items: seq<Json>, n: nat)
    requires n <= |items|
    ensures var ps, fs := PositionsWhere(items, IsReadable, n), ReadableMutations(items[..n]);
            |fs| == |ps| && forall a :: 0 <= a < |ps| ==> ParseFileMutation(items[ps[a]]) == Some(fs[a])
  {
    hide ParseFileMutation;
    if n > 0 {
      ReadableEntriesAreKept(items, n - 1);
      assert items[..n] == items[..n - 1] + [items[n - 1]];
      ReadableWithOneMore(items[..n - 1], items[n - 1]);
    }
  }

  predicate SaysCheckpoints(field: Option<Json>, c: Option<Checkpoints>) {
    if c.None? then field.None?
    else
      && field.Some? && field.value.Obj? && field.value.fields.Keys == c.value.Keys
      && forall thread :: thread in c.value ==>
           Chars.Trim(thread) != "" && SaysCount(Some(field.value.fields[thread]), c.value[thread])
  }

  /** Checkpoints are read if and only if every thread has a name and a count; absent ones are absent. */
  lemma CheckpointsReadExactly(field: Option<Json>, c: Option<Checkpoints>)
    ensures ParseCheckpoints(field) == Some(c) <==> SaysCheckpoints(field, c)
  {
    hide Chars.Trim;
    if field.Some? && field.value.Obj? && c.Some? {
      var f := field.value.fields;
      forall thread, n: nat | thread in f
        ensures Count(Some(f[thread])) == Some(n) <==> SaysCount(Some(f[thread]), n)
      {
        FieldsReadExactly(Some(f[thread]), "", n, 0);
      }
      hide Count, SaysCount;
      if SaysCheckpoints(field, c) {
        assert CountsOf(f) == c.value;
      }
    }
  }

  /** An optional array is read if and only if it is absent, or every one of its elements is read. */
  lemma {:induction false} OptionalArrayReadExactly<T>(
      field: Option<Json>, parse: Json -> Option<T>, xs: Option<seq<T>>)
    ensures ParseOptionalArray(field, parse) == Some(xs) <==> ParsedFrom(xs, field, parse)
  {
    if ParseOptionalArray(field, parse).Some? {
      OptionalArrayParsedFrom(field, parse);
    }
    if xs.Some? && ParsedFrom(xs, field, parse) {
      AllElementsRead(field.value.items, parse, xs.value);
    }
  }

  lemma {:induction false} AllElementsRead<T>(items: seq<Json>, parse: Json -> Option<T>, xs: seq<T>)
    requires |items| == |xs| && forall i :: 0 <= i < |xs| ==> parse(items[i]) == Some(xs[i])
    ensures ParseAll(items, parse) == Some(xs)
  {
    if items != [] {
      AllElementsRead(items[1..], parse, xs[1..]);
      assert xs == [xs[0]] + xs[1..];
    }
  }
}
