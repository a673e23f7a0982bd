/** JSON values as the wire decoders see them; an absent record field is JavaScript's `undefined`. */
module Json {
  import opened Wrappers

  /** A JavaScript number; `NonFinite` stands for the infinities and NaN. */
  datatype Number = Finite(value: real) | NonFinite

  datatype Json =
    | Null
    | Bool(b: bool)
    | Num(n: Number)
    | Str(s: string)
    | Arr(items: seq<Json>)
    | Obj(fields: map<string, Json>)

  const MAX_SAFE_INTEGER: nat := 0x1F_FFFF_FFFF_FFFF

  /** `value[key]` on a record. */
  function Get(fields: map<string, Json>, key: string): Option<Json> {
    if key in fields then Some(fields[key]) else None
  }

  /** `Number.isSafeInteger(value) && value >= 0`, with the integer it denotes. */
  function Count(value: Option<Json>): Option<nat> {
    match value
    case Some(Num(Finite(x))) =>
      if x.Floor as real == x && 0 <= x.Floor <= MAX_SAFE_INTEGER then Some(x.Floor) else None
    case _ => None
  }

  function Text(value: Option<Json>): Option<string> {
    match value
    case Some(Str(s)) => Some(s)
    case _ => None
  }

  predicate IsShortText(s: string, limit: nat) { 0 < |s| <= limit }

  /** A text that is not empty and not over the limit. */
  function ShortText(value: Option<Json>, limit: nat): Option<string> {
    match Text(value)
    case Some(s) => if IsShortText(s, limit) then Some(s) else None
    case None => None
  }

  function Integer(n: nat): Json {
    Num(Finite(n as real))
  }

  lemma IntegerIsCount(n: nat)
    ensures Count(Some(Integer(n))) == if n <= MAX_SAFE_INTEGER then Some(n) else None
  {
  }

  lemma CountIsSafe(value: Option<Json>)
    ensures Count(value).Some? ==> Count(value).value <= MAX_SAFE_INTEGER
  {
  }

  // ---------------------------------------------------------------- writing values and short labels

  function FromText(s: string): Json { Str(s) }

  /** An optional text as an optional field. */
  function FieldOfText(value: Option<string>): Option<Json> {
    match value
    case Some(s) => Some(Str(s))
    case None => None
  }

  /** An optional count as an optional field. */
  function FieldOfCount(value: Option<nat>): Option<Json> {
    match value
    case Some(n) => Some(Integer(n))
    case None => None
  }

  /** The longest label shown. */
  const MAX_LABEL: nat := 512

  /** `s.slice(0, 512)`. */
  function Cut(s: string): (r: string)
    ensures r <= s && (r == s || |r| == MAX_LABEL) && |r| <= MAX_LABEL
  {
    if |s| <= MAX_LABEL then s else s[..MAX_LABEL]
  }

  // ---------------------------------------------------------------- what a field says

  predicate SaysText(field: Option<Json>, s: string) { field == Some(Str(s)) }

  /** A number without a fraction, from 0 to 2^53 - 1. */
  predicate SaysCount(field: Option<Json>, n: nat) {
    n <= 9007199254740991 && field == Some(Num(Finite(n as real)))
  }

  predicate SaysLabel(field: Option<Json>, s: string) { field == Some(Str(s)) && |s| <= 512 }

  predicate SaysShortText(field: Option<Json>, limit: nat, s: string) { field == Some(Str(s)) && 0 < |s| <= limit }

  /** Absent or null. */
  predicate Missing(field: Option<Json>) { field == None || field == Some(Null) }

  predicate IsText(field: Option<Json>) { field.Some? && field.value.Str? }

  /** `cut` is the field's text up to 512 characters. */
  predicate SaysCut(field: Option<Json>, cut: string) {
    && field.Some? && field.value.Str?
    && cut == if |field.value.s| <= 512 then field.value.s else field.value.s[..512]
  }

  /** The readers of single fields read exactly what the field says. */
  lemma FieldsReadExactly(field: Option<Json>, s: string, n: nat, limit: nat)
    ensures Text(field) == Some(s) <==> SaysText(field, s)
    ensures Count(field) == Some(n) <==> SaysCount(field, n)
    ensures ShortText(field, limit) == Some(s) <==> SaysShortText(field, limit, s)
    ensures Text(field).Some? && Cut(Text(field).value) == s <==> SaysCut(field, s)
  {
  }
}
