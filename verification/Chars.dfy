/** The character classes and identifier shapes the decoders test. A `char` is one Unicode scalar value. */
module Chars {
  /** JavaScript white space: what `trim` removes and what `\s` matches. */
  predicate IsSpace(c: char) {
    || '\t' <= c <= '\r' || c == ' ' || c == '\U{A0}' || c == '\U{1680}'
    || '\U{2000}' <= c <= '\U{200A}' || c == '\U{2028}' || c == '\U{2029}' || c == '\U{202F}'
    || c == '\U{205F}' || c == '\U{3000}' || c == '\U{FEFF}'
  }

  predicate HasSpace(s: string) { exists i :: 0 <= i < |s| && IsSpace(s[i]) }

  /** Unicode category Cc. */
  predicate IsControl(c: char) { c < ' ' || '\U{7F}' <= c <= '\U{9F}' }

  /** C0 controls and DEL, the narrower class identifiers exclude. */
  predicate IsControlCode(c: char) { c < ' ' || c == '\U{7F}' }

  predicate HasControlCode(s: string) { exists i :: 0 <= i < |s| && IsControlCode(s[i]) }

  lemma ClassesByMember(s: string)
    ensures HasSpace(s) <==> exists c :: c in s && IsSpace(c)
    ensures HasControlCode(s) <==> exists c :: c in s && IsControlCode(c)
  {
    hide IsSpace, IsControlCode;
    if HasSpace(s) {
      var i :| 0 <= i < |s| && IsSpace(s[i]);
      assert s[i] in s;
    }
    if HasControlCode(s) {
      var i :| 0 <= i < |s| && IsControlCode(s[i]);
      assert s[i] in s;
    }
  }

  /** C0 and DEL by code. */
  lemma ControlCodeExactly(c: char)
    ensures IsControlCode(c) <==> c as nat < 32 || c as nat == 127
  {
    assert (127 as char) == '\U{7F}';
  }

  function TrimLeft(s: string): (r: string)
    ensures r == "" || !IsSpace(r[0])
    ensures |r| <= |s| && r == s[|s| - |r|..]
  {
    if s != "" && IsSpace(s[0]) then TrimLeft(s[1..]) else s
  }

  function TrimRight(s: string): (r: string)
    ensures r == "" || !IsSpace(r[|r| - 1])
    ensures |r| <= |s| && r == s[..|r|]
  {
    if s != "" && IsSpace(s[|s| - 1]) then TrimRight(s[..|s| - 1]) else s
  }

  function Trim(s: string): (r: string)
    ensures r == "" || (!IsSpace(r[0]) && !IsSpace(r[|r| - 1]))
  {
    TrimRight(TrimLeft(s))
  }

  /** A trimmed string has nothing left to trim. */
  lemma TrimTwice(s: string)
    ensures Trim(Trim(s)) == Trim(s)
  {
  }

  /** White space and nothing else. */
  predicate IsBlank(s: string) { forall i :: 0 <= i < |s| ==> IsSpace(s[i]) }

  lemma {:induction false} TrimLeftDropsSpaces(s: string)
    ensures IsBlank(s[..|s| - |TrimLeft(s)|])
  {
    hide IsSpace;
    if s != "" && IsSpace(s[0]) {
      TrimLeftDropsSpaces(s[1..]);
      var k := |s| - |TrimLeft(s)|;
      assert s[1..][..k - 1] == s[1..k];
      assert s[..k] == [s[0]] + s[1..k];
    }
  }

  lemma {:induction false} TrimRightDropsSpaces(s: string)
    ensures IsBlank(s[|TrimRight(s)|..])
  {
    hide IsSpace;
    if s != "" && IsSpace(s[|s| - 1]) {
      var m, k := |s| - 1, |TrimRight(s)|;
      TrimRightDropsSpaces(s[..m]);
      assert s[..m][k..] == s[k..m];
      assert s[k..] == s[k..m] + [s[m]];
    }
  }

  /** Only white space is trimmed, at the two ends, and none is left there. */
  lemma TrimExactly(s: string) returns (lead: string, tail: string)
    ensures s == lead + Trim(s) + tail && IsBlank(lead) && IsBlank(tail)
    ensures Trim(s) == "" || (!IsSpace(Trim(s)[0]) && !IsSpace(Trim(s)[|Trim(s)| - 1]))
  {
    TrimLeftDropsSpaces(s);
    TrimRightDropsSpaces(TrimLeft(s));
    hide IsSpace, IsBlank, TrimLeft, TrimRight;
    var left := TrimLeft(s);
    lead, tail := s[..|s| - |left|], left[|TrimRight(left)|..];
  }

  /** `trim().length > 0`: some character is not white space. */
  lemma {:induction false} TrimEmptyMeansBlank(s: string)
    ensures Trim(s) == "" <==> forall i :: 0 <= i < |s| ==> IsSpace(s[i])
  {
    if s != "" {
      if IsSpace(s[0]) {
        TrimEmptyMeansBlank(s[1..]);
        assert forall i :: 0 < i < |s| ==> s[i] == s[1..][i - 1];
      } else {
        TrimRightKeepsFirst(s);
      }
    }
  }

  lemma {:induction false} TrimRightKeepsFirst(s: string)
    requires s != "" && !IsSpace(s[0])
    ensures TrimRight(s) != ""
  {
    if |s| > 1 && IsSpace(s[|s| - 1]) {
      TrimRightKeepsFirst(s[..|s| - 1]);
    }
  }

  /** `wire-decoders.isNonEmptyString`. */
  predicate IsNonBlank(s: string) { Trim(s) != "" }

  // ---------------------------------------------------------------- protocol UUIDs

  predicate IsHex(c: char) { '0' <= c <= '9' || 'a' <= c <= 'f' || 'A' <= c <= 'F' }

  predicate IsHyphenatedUuid(s: string) {
    |s| == 36 &&
    forall i :: 0 <= i < 36 ==> if i in {8, 13, 18, 23} then s[i] == '-' else IsHex(s[i])
  }

  predicate IsUuidInner(s: string) {
    IsHyphenatedUuid(s) || (|s| == 32 && forall i :: 0 <= i < 32 ==> IsHex(s[i]))
  }

  const URN := "urn:uuid:"

  predicate IsProtocolUuid(s: string) {
    || IsUuidInner(s)
    || (|s| == 38 && s[0] == '{' && s[37] == '}' && IsUuidInner(s[1..37]))
    || (URN <= s && IsHyphenatedUuid(s[|URN|..]))
  }

  predicate IsHexRun(s: string, n: nat) { |s| == n && forall i :: 0 <= i < n ==> IsHex(s[i]) }

  ghost predicate IsGrouped(s: string, a: string, b: string, c: string, d: string, e: string) {
    && s == a + "-" + b + "-" + c + "-" + d + "-" + e
    && IsHexRun(a, 8) && IsHexRun(b, 4) && IsHexRun(c, 4) && IsHexRun(d, 4) && IsHexRun(e, 12)
  }

  /** The hyphenated form is five hexadecimal groups of 8, 4, 4, 4 and 12 digits. */
  lemma HyphenatedExactly(s: string)
    ensures IsHyphenatedUuid(s) <==> exists a, b, c, d, e :: IsGrouped(s, a, b, c, d, e)
  {
    if IsHyphenatedUuid(s) {
      var a, b, c, d, e := s[..8], s[9..13], s[14..18], s[19..23], s[24..];
      assert s == a + "-" + b + "-" + c + "-" + d + "-" + e;
      assert IsGrouped(s, a, b, c, d, e);
    }
    forall a, b, c, d, e | IsGrouped(s, a, b, c, d, e)
      ensures IsHyphenatedUuid(s)
    {
      GroupedIsHyphenated(s, a, b, c, d, e);
    }
  }

  lemma GroupedIsHyphenated(s: string, a: string, b: string, c: string, d: string, e: string)
    requires IsGrouped(s, a, b, c, d, e)
    ensures IsHyphenatedUuid(s)
  {
    assert s[..8] == a && s[9..13] == b && s[14..18] == c && s[19..23] == d && s[24..] == e;
    assert s[8] == '-' && s[13] == '-' && s[18] == '-' && s[23] == '-';
    forall i | 0 <= i < 36
      ensures if i in {8, 13, 18, 23} then s[i] == '-' else IsHex(s[i])
    {
      if i < 8 { assert s[i] == s[..8][i]; }
      else if 8 < i < 13 { assert s[i] == s[9..13][i - 9]; }
      else if 13 < i < 18 { assert s[i] == s[14..18][i - 14]; }
      else if 18 < i < 23 { assert s[i] == s[19..23][i - 19]; }
      else if 23 < i { assert s[i] == s[24..][i - 24]; }
    }
  }

  /** A protocol UUID is 32 digits, or the hyphenated form, bare, in braces or after `urn:uuid:`. */
  lemma UuidExactly(s: string)
    ensures IsProtocolUuid(s) <==>
              || IsHexRun(s, 32) || IsHyphenatedUuid(s)
              || exists u :: IsHyphenatedUuid(u) && (s == "{" + u + "}" || s == "urn:uuid:" + u)
  {
    if |s| == 38 && s[0] == '{' && s[37] == '}' && IsUuidInner(s[1..37]) {
      assert s == "{" + s[1..37] + "}";
    }
    if URN <= s && IsHyphenatedUuid(s[|URN|..]) {
      assert s == "urn:uuid:" + s[|URN|..];
    }
    forall u | IsHyphenatedUuid(u) && (s == "{" + u + "}" || s == "urn:uuid:" + u)
      ensures IsProtocolUuid(s)
    {
      if s == "{" + u + "}" {
        assert s[1..37] == u;
      } else {
        assert s[|URN|..] == u;
      }
    }
  }

  // ---------------------------------------------------------------- the classes by code

  /** The white space of ECMAScript and the controls of Unicode, by code. */
  lemma ClassesExactly(c: char)
    ensures IsSpace(c) <==>
              || 9 <= c as nat <= 13 || 8192 <= c as nat <= 8202
              || c as nat in {32, 160, 5760, 8232, 8233, 8239, 8287, 12288, 65279}
    ensures IsControl(c) <==> c as nat < 32 || 127 <= c as nat <= 159
    ensures IsHex(c) <==> c in "0123456789abcdefABCDEF"
  {
    CharsByCode();
    assert forall d: char :: d in "0123456789abcdefABCDEF" <==> IsHex(d) by { HexDigits(); }
  }

  lemma CharsByCode()
    ensures ' ' == 32 as char && '\U{A0}' == 160 as char && '\U{1680}' == 5760 as char && '\U{2028}' == 8232 as char
    ensures '\U{2029}' == 8233 as char && '\U{202F}' == 8239 as char && '\U{205F}' == 8287 as char
    ensures '\U{3000}' == 12288 as char && '\U{FEFF}' == 65279 as char
  {
  }

  lemma HexDigits()
    ensures forall d: char :: d in "0123456789abcdefABCDEF" <==> IsHex(d)
  {
  }
}
