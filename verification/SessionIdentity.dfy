/** Captured sessions: bases, profiles and topics, and the worker sessions a master may adopt. */
module SessionIdentity {
  import opened Wrappers
  import Chars

  const RESERVED_CHANNELS: set<string> :=
    {"acp", "api", "cli", "dingtalk", "discord", "email", "feishu", "line", "local", "matrix", "qq-bot", "slack",
     "system", "telegram", "test", "twilio", "wechat", "wecom", "wecom-bot", "whatsapp"}

  const PEER_SLUG_MAX_BYTES: nat := 64
  const PEER_PREFIX := "peer-"

  // ---------------------------------------------------------------- splitting

  /** `s.indexOf(c, from)`, with `None` for -1. */
  function IndexOf(s: string, c: char, from: nat): (i: Option<nat>)
    requires from <= |s|
    ensures i.Some? ==> from <= i.value < |s| && s[i.value] == c
    ensures forall j :: from <= j < (if i.Some? then i.value else |s|) ==> s[j] != c
    decreases |s| - from
  {
    if from == |s| then None else if s[from] == c then Some(from) else IndexOf(s, c, from + 1)
  }

  /** The session id before its first `#`. */
  function Base(session: string): (b: string)
    ensures '#' !in b && b <= session
  {
    var hash := IndexOf(session, '#', 0);
    if hash.Some? then session[..hash.value] else session
  }

  /** What follows the first `#`, if there is one. */
  function Topic(session: string): Option<string> {
    var hash := IndexOf(session, '#', 0);
    if hash.Some? then Some(session[hash.value + 1..]) else None
  }

  lemma SplitComposed(base: string, topic: string)
    requires '#' !in base
    ensures Base(base + "#" + topic) == base && Topic(base + "#" + topic) == Some(topic)
  {
    var session := base + "#" + topic;
    assert session[|base|] == '#' && session[..|base|] == base && session[|base| + 1..] == topic;
    assert forall j :: 0 <= j < |base| ==> session[j] == base[j];
  }

  // ---------------------------------------------------------------- shapes

  predicate IsValidProfileId(profile: string) {
    Chars.IsNonBlank(profile) && ':' !in profile && '#' !in profile && !Chars.HasSpace(profile)
  }

  /** The test shared by raw opaque ids and ordinary topics. */
  predicate IsPlain(s: string) {
    s != "" && !Chars.HasSpace(s) && '#' !in s && !Chars.HasControlCode(s)
  }

  predicate IsReserved(name: string) { name in RESERVED_CHANNELS }

  /** The profile of a base `profile:channel:chat`, told from `channel:chat` by the reserved channel names. */
  function CapturedProfile(base: string): Option<string> {
    match IndexOf(base, ':', 0)
    case None => None
    case Some(first) =>
      match IndexOf(base, ':', first + 1)
      case None => None
      case Some(second) =>
        if !IsReserved(base[..first]) && IsReserved(base[first + 1..second])
        then Some(base[..first]) else None
  }

  predicate IsValidBase(base: string, profile: string) {
    && IsPlain(base)
    && var captured := CapturedProfile(base);
    captured.Some? ==> IsValidProfileId(captured.value) && captured.value == profile
  }

  function MasterWireBase(master: string, profile: string): Option<string> {
    if !IsValidProfileId(profile) then None
    else if !Chars.IsNonBlank(master) || '\0' in master then None
    else
      match IndexOf(master, '#', 0)
      case None => if IsValidBase(master, profile) then Some(master) else None
      case Some(hash) =>
        var topic := master[hash + 1..];
        if !IsPlain(topic) then None
        else if IndexOf(master, '#', hash + 1).Some? then None
        else if IsValidBase(master[..hash], profile) then Some(master[..hash]) else None
  }

  /** `validateCapturedScope`: the checks before any traffic, as acceptance instead of exceptions. */
  predicate AcceptsScope(session: string, profile: string, topic: Option<string>) {
    && Chars.IsNonBlank(session) && '\0' !in session
    && IsValidProfileId(profile)
    && IsValidBase(Base(session), profile)
    && var suffix := Topic(session);
    && (suffix.Some? ==> IsPlain(suffix.value))
    && (topic.Some? ==> IsPlain(topic.value))
    && (topic.Some? && suffix.Some? ==> topic.value == suffix.value)
  }

  /** `validateCapturedOperationsScope`. */
  predicate AcceptsOperationsScope(session: string, profile: string) {
    MasterWireBase(session, profile).Some?
  }

  // ---------------------------------------------------------------- workers

  function Utf8Length(s: string): nat {
    if s == "" then 0
    else
      var code := s[0] as nat;
      (if code < 0x80 then 1 else if code < 0x800 then 2 else if code < 0x1_0000 then 3 else 4) + Utf8Length(s[1..])
  }

  predicate IsSlugChar(c: char) {
    c != '/' && c != '\\' && c != ':' && c != '#' && !Chars.IsControlCode(c)
  }

  predicate PeerSlugIsSafe(slug: string) {
    && slug != "" && slug != "." && slug != ".."
    && slug[|slug| - 1] != '.' && slug[|slug| - 1] != ' '
    && (forall i :: 0 <= i < |slug| ==> IsSlugChar(slug[i]))
    && Utf8Length(slug) <= PEER_SLUG_MAX_BYTES
  }

  function WorkerSession(base: string, slug: string): string { base + "#" + (PEER_PREFIX + slug) }

  predicate WorkerMatches(master: string, profile: string, adopted: string, slug: string) {
    && IsValidProfileId(profile) && PeerSlugIsSafe(slug)
    && var base := MasterWireBase(master, profile);
    base.Some? && adopted == WorkerSession(base.value, slug)
  }

  predicate AdoptedIdentityIsNative(turn: string, session: string, slug: string) {
    && Chars.IsProtocolUuid(turn) && PeerSlugIsSafe(slug)
    && match IndexOf(session, '#', 0)
       case None => false
       case Some(hash) =>
         var base, topic := session[..hash], session[hash + 1..];
         && '#' !in topic && topic == PEER_PREFIX + slug
         && base != "" && !Chars.HasControlCode(base) && !Chars.HasSpace(base)
  }

  // ---------------------------------------------------------------- the scanning loops

  method HasControlCode(value: string) returns (found: bool)
    ensures found <==> Chars.HasControlCode(value)
  {
    var i := 0;
    while i < |value|
      invariant 0 <= i <= |value|
      invariant forall j :: 0 <= j < i ==> !Chars.IsControlCode(value[j])
    {
      if value[i] as nat < 0x20 || value[i] as nat == 0x7f {
        return true;
      }
      i := i + 1;
    }
    return false;
  }

  method CheckPeerSlug(value: string) returns (safe: bool)
    ensures safe <==> PeerSlugIsSafe(value)
  {
    if |value| == 0 {
      return false;
    }
    if value == "." || value == ".." {
      return false;
    }
    if value[|value| - 1] == '.' || value[|value| - 1] == ' ' {
      return false;
    }
    var i := 0;
    while i < |value|
      invariant 0 <= i <= |value|
      invariant forall j :: 0 <= j < i ==> IsSlugChar(value[j])
    {
      var code := value[i] as nat;
      if code == 0x2f || code == 0x5c || code == 0x3a || code == 0x23 {
        return false;
      }
      if code < 0x20 || code == 0x7f {
        return false;
      }
      i := i + 1;
    }
    return Utf8Length(value) <= PEER_SLUG_MAX_BYTES;
  }

  // ---------------------------------------------------------------- theorems

  ghost predicate QualifiedBy(base: string, profile: string, channel: string, chat: string) {
    && base == profile + ":" + channel + ":" + chat
    && ':' !in profile && ':' !in channel
    && !IsReserved(profile) && IsReserved(channel)
  }

  /** A base captures a profile exactly when it reads `profile:channel:chat` with only the channel name reserved. */
  lemma CapturedProfileMeaning(base: string, profile: string)
    ensures CapturedProfile(base) == Some(profile) <==>
            exists channel, chat :: QualifiedBy(base, profile, channel, chat)
  {
    hide IsReserved;
    if CapturedProfile(base) == Some(profile) {
      var first := IndexOf(base, ':', 0).value;
      var second := IndexOf(base, ':', first + 1).value;
      var channel, chat := base[first + 1..second], base[second + 1..];
      assert base == base[..first] + ":" + channel + ":" + chat;
      assert QualifiedBy(base, profile, channel, chat);
    }
    forall channel, chat | QualifiedBy(base, profile, channel, chat)
      ensures CapturedProfile(base) == Some(profile)
    {
      var first, second := |profile|, |profile| + 1 + |channel|;
      assert base[first] == ':' && base[second] == ':';
      assert base[..first] == profile && base[first + 1..second] == channel;
      assert forall j :: 0 <= j < first ==> base[j] == profile[j];
      assert forall j :: first < j < second ==> base[j] == channel[j - first - 1];
    }
  }

  lemma PlainStartIsNonBlank(s: string, start: string)
    requires start <= s && IsPlain(start)
    ensures Chars.IsNonBlank(s)
  {
    Chars.TrimEmptyMeansBlank(s);
    assert s[0] == start[0];
  }

  /** Plain parts make a session without NUL and without a second `#`. */
  lemma PlainPartsAreClean(session: string)
    requires IsPlain(Base(session)) && (Topic(session).Some? ==> IsPlain(Topic(session).value))
    ensures '\0' !in session && Chars.IsNonBlank(session)
    ensures var hash := IndexOf(session, '#', 0);
            hash.Some? ==> IndexOf(session, '#', hash.value + 1).None?
  {
    var base, hash := Base(session), IndexOf(session, '#', 0);
    PlainStartIsNonBlank(session, base);
    hide Chars.IsNonBlank, Chars.HasSpace;
    forall i | 0 <= i < |session|
      ensures session[i] != '\0'
      ensures hash.Some? && i > hash.value ==> session[i] != '#'
    {
      if i < |base| {
        assert base[i] == session[i] && !Chars.IsControlCode(base[i]);
      } else if i > |base| {
        var topic := Topic(session).value;
        assert topic[i - |base| - 1] == session[i] && !Chars.IsControlCode(topic[i - |base| - 1]);
      }
    }
  }

  /** The wire base is accepted exactly for a sound profile, base and topic, and then is the part before `#`. */
  lemma MasterWireBaseIsBase(master: string, profile: string)
    ensures MasterWireBase(master, profile) ==
              if && IsValidProfileId(profile) && IsValidBase(Base(master), profile)
                 && (Topic(master).Some? ==> IsPlain(Topic(master).value))
              then Some(Base(master)) else None
  {
    hide IsValidProfileId, CapturedProfile, Chars.IsNonBlank, IsPlain;
    if IsValidBase(Base(master), profile) && (Topic(master).Some? ==> IsPlain(Topic(master).value)) {
      PlainPartsAreClean(master);
    }
  }

  /**
   * A scope passes exactly when its session has a wire base and its topic, if given, is well formed and agrees with
   * the session's own; so a scope the command factory accepted never fails the operations check.
   */
  lemma ScopeAcceptedExactly(session: string, profile: string, topic: Option<string>)
    ensures AcceptsScope(session, profile, topic) <==>
            && MasterWireBase(session, profile).Some?
            && (topic.Some? ==> IsPlain(topic.value) && (Topic(session).Some? ==> topic == Topic(session)))
    ensures AcceptsScope(session, profile, topic) ==> AcceptsOperationsScope(session, profile)
    ensures AcceptsOperationsScope(session, profile) <==> AcceptsScope(session, profile, None)
  {
    hide MasterWireBase, IsValidProfileId, CapturedProfile, Chars.IsNonBlank, IsPlain;
    MasterWireBaseIsBase(session, profile);
    if IsPlain(Base(session)) && (Topic(session).Some? ==> IsPlain(Topic(session).value)) {
      PlainPartsAreClean(session);
    }
  }

  /** A wire base is its own wire base. */
  lemma WireBaseIsIdempotent(master: string, profile: string)
    requires MasterWireBase(master, profile).Some?
    ensures var base := MasterWireBase(master, profile).value;
            MasterWireBase(base, profile) == Some(base) && Base(base) == base && Topic(base) == None
  {
    var base := Base(master);
    MasterWireBaseIsBase(master, profile);
    MasterWireBaseIsBase(base, profile);
    assert IndexOf(base, '#', 0) == None;
  }

  /** Under another profile an accepted master stays accepted exactly when its base names no profile. */
  lemma OtherProfile(master: string, profile: string, other: string)
    requires MasterWireBase(master, profile).Some? && profile != other && IsValidProfileId(other)
    ensures MasterWireBase(master, other).Some? <==> CapturedProfile(MasterWireBase(master, profile).value).None?
  {
    MasterWireBaseIsBase(master, profile);
    MasterWireBaseIsBase(master, other);
  }

  /** The worker session splits back into the master's base and the slug's topic. */
  lemma WorkerSplits(master: string, profile: string, adopted: string, slug: string)
    requires WorkerMatches(master, profile, adopted, slug)
    ensures MasterWireBase(master, profile) == Some(Base(adopted))
    ensures Topic(adopted) == Some(PEER_PREFIX + slug)
  {
    MasterWireBaseIsBase(master, profile);
    SplitComposed(MasterWireBase(master, profile).value, PEER_PREFIX + slug);
  }

  /** One worker session has one master base and one slug, whatever profile it was matched under. */
  lemma WorkerDecomposesUniquely(
      master1: string, profile1: string, slug1: string, master2: string, profile2: string, slug2: string,
      adopted: string)
    requires WorkerMatches(master1, profile1, adopted, slug1) && WorkerMatches(master2, profile2, adopted, slug2)
    ensures MasterWireBase(master1, profile1) == MasterWireBase(master2, profile2)
    ensures slug1 == slug2
  {
    WorkerSplits(master1, profile1, adopted, slug1);
    WorkerSplits(master2, profile2, adopted, slug2);
    assert (PEER_PREFIX + slug1)[|PEER_PREFIX|..] == slug1 && (PEER_PREFIX + slug2)[|PEER_PREFIX|..] == slug2;
  }

  /** Masters with one base accept the same workers, and masters with different bases never share one. */
  lemma WorkersFollowTheBase(
      master1: string, profile1: string, master2: string, profile2: string, adopted: string, slug: string)
    requires MasterWireBase(master1, profile1).Some? && MasterWireBase(master2, profile2).Some?
    ensures MasterWireBase(master1, profile1) == MasterWireBase(master2, profile2) ==>
              (WorkerMatches(master1, profile1, adopted, slug) <==> WorkerMatches(master2, profile2, adopted, slug))
    ensures MasterWireBase(master1, profile1) != MasterWireBase(master2, profile2) ==>
              !(WorkerMatches(master1, profile1, adopted, slug) && WorkerMatches(master2, profile2, adopted, slug))
  {
    MasterWireBaseIsBase(master1, profile1);
    MasterWireBaseIsBase(master2, profile2);
    if WorkerMatches(master1, profile1, adopted, slug) && WorkerMatches(master2, profile2, adopted, slug) {
      WorkerDecomposesUniquely(master1, profile1, slug, master2, profile2, slug, adopted);
    }
  }

  /** With a UUID turn, a worker that matches its master always has the native identity shape. */
  lemma MatchedWorkerIsNative(turn: string, master: string, profile: string, adopted: string, slug: string)
    requires Chars.IsProtocolUuid(turn) && WorkerMatches(master, profile, adopted, slug)
    ensures AdoptedIdentityIsNative(turn, adopted, slug)
  {
    WorkerSplits(master, profile, adopted, slug);
    MasterWireBaseIsBase(master, profile);
    SafeSlugHasNoHash(slug);
  }

  lemma SafeSlugHasNoHash(slug: string)
    requires PeerSlugIsSafe(slug)
    ensures '#' !in PEER_PREFIX + slug && !Chars.HasControlCode(PEER_PREFIX + slug)
    ensures Chars.HasSpace(PEER_PREFIX + slug) <==> Chars.HasSpace(slug)
  {
    var topic := PEER_PREFIX + slug;
    assert forall i :: 0 <= i < |slug| ==> topic[5 + i] == slug[i] && IsSlugChar(slug[i]);
    assert topic[0] == 'p' && topic[1] == 'e' && topic[2] == 'e' && topic[3] == 'r' && topic[4] == '-';
  }

  /**
   * Seen as a master itself, a worker session has the master's base exactly when its slug has no white space: a slug
   * may contain blanks, but a session whose topic does is refused as a master.
   */
  lemma WorkerAsMaster(master: string, profile: string, adopted: string, slug: string)
    requires WorkerMatches(master, profile, adopted, slug)
    ensures MasterWireBase(adopted, profile) ==
              if Chars.HasSpace(slug) then None else MasterWireBase(master, profile)
  {
    WorkerSplits(master, profile, adopted, slug);
    MasterWireBaseIsBase(master, profile);
    MasterWireBaseIsBase(adopted, profile);
    SafeSlugHasNoHash(slug);
  }

  lemma LetterIsPlain(letter: string)
    requires |letter| == 1 && 'a' <= letter[0] <= 'z'
    ensures IsPlain(letter) && IsValidProfileId(letter)
  {
    Chars.TrimEmptyMeansBlank(letter);
    hide Chars.Trim;
    assert !Chars.IsSpace(letter[0]);
    assert !Chars.HasSpace(letter) && !Chars.HasControlCode(letter);
    assert forall c :: c in letter ==> c == letter[0];
  }

  lemma LetterIsMaster(letter: string)
    requires |letter| == 1 && 'a' <= letter[0] <= 'z'
    ensures IsValidProfileId(letter) && MasterWireBase(letter, letter) == Some(letter)
  {
    hide IsPlain, IsValidProfileId, MasterWireBase;
    LetterIsPlain(letter);
    MasterWireBaseIsBase(letter, letter);
    assert IndexOf(letter, '#', 0) == None && IndexOf(letter, ':', 0) == None;
  }

  lemma BlankSlugIsSafe(slug: string)
    requires |slug| == 3 && slug[0] == 'a' && slug[1] == ' ' && slug[2] == 'b'
    ensures PeerSlugIsSafe(slug) && Chars.HasSpace(slug)
  {
    var last := slug[2..];
    assert last[1..] == "" && Utf8Length(last) == 1;
    assert slug[1..][1..] == last && Utf8Length(slug[1..]) == 2;
    assert Chars.IsSpace(slug[1]);
  }

  /** Such slugs exist: the slug `a b` names a worker of the master `m` that is refused as a master itself. */
  lemma BlankSlugExample()
    ensures var worker := WorkerSession("m", "a b");
            && MasterWireBase("m", "m") == Some("m")
            && WorkerMatches("m", "m", worker, "a b") && MasterWireBase(worker, "m") == None
  {
    hide MasterWireBase, PeerSlugIsSafe, IsValidProfileId, Chars.HasSpace, WorkerSession;
    LetterIsMaster("m");
    BlankSlugIsSafe("a b");
    WorkerAsMaster("m", "m", WorkerSession("m", "a b"), "a b");
  }

  // ---------------------------------------------------------------- exactly what is accepted

  /** A profile is any text without colons, hashes or white space; being non-blank asks no more than being non-empty. */
  lemma ProfileExactly(profile: string)
    ensures IsValidProfileId(profile) <==>
              profile != "" && forall c :: c in profile ==> c != ':' && c != '#' && !Chars.IsSpace(c)
  {
    Chars.TrimEmptyMeansBlank(profile);
    Chars.ClassesByMember(profile);
    hide Chars.Trim, Chars.IsSpace, Chars.HasSpace;
    if profile != "" && forall c :: c in profile ==> !Chars.IsSpace(c) {
      assert profile[0] in profile;
    }
  }

  /** A character that is neither white space, a hash nor a control code. */
  predicate IsPlainChar(c: char) {
    c != '#' && !Chars.IsSpace(c) && c as nat >= 32 && c as nat != 127
  }

  lemma PlainExactly(s: string)
    ensures IsPlain(s) <==> s != "" && forall c :: c in s ==> IsPlainChar(c)
  {
    Chars.ClassesByMember(s);
    forall c { Chars.ControlCodeExactly(c); }
    hide Chars.IsSpace, Chars.HasSpace, Chars.HasControlCode, Chars.IsControlCode;
  }

  lemma SlugExactly(slug: string)
    ensures PeerSlugIsSafe(slug) <==>
              && slug !in {"", ".", ".."} && slug[|slug| - 1] !in {'.', ' '}
              && (forall c :: c in slug ==> c !in {'/', '\\', ':', '#'} && c as nat >= 32 && c as nat != 127)
              && Utf8Length(slug) <= 64
  {
    forall c { Chars.ControlCodeExactly(c); }
    hide Chars.IsControlCode, Utf8Length;
    assert forall i :: 0 <= i < |slug| ==> slug[i] in slug;
  }

  /** UTF-8 length: character by character, in the ranges of the encoding. */
  lemma {:induction false} Utf8Exactly(s: string, c: char)
    ensures Utf8Length(s + [c]) ==
              Utf8Length(s) + if c as nat <= 0x7f then 1 else if c as nat <= 0x7ff then 2
                              else if c as nat <= 0xffff then 3 else 4
    ensures Utf8Length("") == 0
  {
    if s == "" {
      assert "" + [c] == [c] && [c][1..] == "";
    } else {
      Utf8Exactly(s[1..], c);
      assert (s + [c])[1..] == s[1..] + [c];
    }
  }

  /** A base is accepted if and only if it is plain and qualified by no other profile. */
  lemma BaseExactly(base: string, profile: string)
    requires IsValidProfileId(profile)
    ensures IsValidBase(base, profile) <==>
              IsPlain(base) && forall p, channel, chat :: QualifiedBy(base, p, channel, chat) ==> p == profile
  {
    hide IsPlain, IsValidProfileId, CapturedProfile, QualifiedBy;
    forall p, channel, chat | QualifiedBy(base, p, channel, chat)
      ensures CapturedProfile(base) == Some(p)
    {
      CapturedProfileMeaning(base, p);
    }
    if CapturedProfile(base).Some? {
      var p := CapturedProfile(base).value;
      CapturedProfileMeaning(base, p);
      var channel, chat :| QualifiedBy(base, p, channel, chat);
    }
  }

  /** A master has the wire base `base` if and only if it is that base, or that base with one plain topic. */
  lemma MasterExactly(master: string, profile: string, base: string)
    ensures MasterWireBase(master, profile) == Some(base) <==>
              && IsValidProfileId(profile) && '#' !in base && IsValidBase(base, profile)
              && (master == base || exists topic :: IsPlain(topic) && master == base + "#" + topic)
  {
    MasterWireBaseIsBase(master, profile);
    hide MasterWireBase, IsValidProfileId, IsValidBase, IsPlain;
    if Topic(master).Some? {
      SplitReadsBack(master);
    }
    NoTopicInBase(base);
    forall topic | master == base + "#" + topic && '#' !in base
      ensures Base(master) == base && Topic(master) == Some(topic)
    {
      SplitComposed(base, topic);
    }
  }

  lemma SplitReadsBack(session: string)
    requires Topic(session).Some?
    ensures session == Base(session) + "#" + Topic(session).value
  {
  }

  lemma NoTopicInBase(base: string)
    ensures '#' !in base ==> Base(base) == base && Topic(base) == None
  {
    if '#' !in base {
      assert IndexOf(base, '#', 0) == None;
    }
  }

  /** The session is a plain base with the slug's topic. */
  ghost predicate NativeSession(session: string, base: string, slug: string) {
    session == base + "#peer-" + slug && base != "" && forall c :: c in base ==> IsPlainChar(c)
  }

  lemma PlainBase(base: string)
    ensures IsPlain(base) <==>
              base != "" && '#' !in base && !Chars.HasControlCode(base) && !Chars.HasSpace(base)
  {
  }

  lemma NativeParts(session: string, base: string, slug: string)
    requires PeerSlugIsSafe(slug)
    ensures NativeSession(session, base, slug) <==>
              base == Base(session) && IsPlain(base) && Topic(session) == Some(PEER_PREFIX + slug)
  {
    PlainExactly(base);
    PlainBase(base);
    hide IsPlain, IsPlainChar, PeerSlugIsSafe;
    assert base + "#peer-" + slug == base + "#" + (PEER_PREFIX + slug);
    if NativeSession(session, base, slug) {
      SplitComposed(base, PEER_PREFIX + slug);
    } else if Topic(session).Some? {
      SplitReadsBack(session);
    }
  }

  /** An identity is native if and only if the turn is a UUID, the slug safe and the session of that form. */
  lemma NativeExactly(turn: string, session: string, slug: string)
    ensures AdoptedIdentityIsNative(turn, session, slug) <==>
              Chars.IsProtocolUuid(turn) && PeerSlugIsSafe(slug) && exists base :: NativeSession(session, base, slug)
  {
    if PeerSlugIsSafe(slug) {
      SafeSlugHasNoHash(slug);
      PlainBase(Base(session));
      forall base { NativeParts(session, base, slug); }
      hide Chars.IsProtocolUuid, PeerSlugIsSafe, IsPlain, NativeSession, Chars.HasControlCode, Chars.HasSpace;
      assert NativeSession(session, Base(session), slug) <==>
             IsPlain(Base(session)) && Topic(session) == Some(PEER_PREFIX + slug);
    }
  }

  /** The channel names that tell `profile:channel:chat` from `channel:chat`. */
  lemma ReservedExactly(name: string)
    ensures IsReserved(name) <==>
              name in {"acp", "api", "cli", "dingtalk", "discord", "email", "feishu", "line", "local", "matrix",
                       "qq-bot", "slack", "system", "telegram", "test", "twilio", "wechat", "wecom", "wecom-bot",
                       "whatsapp"}
  {
  }

  /** A worker matches if and only if it is the captured master's base with the topic of a safe slug. */
  lemma WorkerExactly(master: string, profile: string, adopted: string, slug: string)
    ensures WorkerMatches(master, profile, adopted, slug) <==>
              && PeerSlugIsSafe(slug)
              && exists base :: MasterWireBase(master, profile) == Some(base) && adopted == base + "#peer-" + slug
  {
    MasterWireBaseIsBase(master, profile);
    hide PeerSlugIsSafe, IsValidProfileId, MasterWireBase, IsValidBase, IsPlain;
    if MasterWireBase(master, profile).Some? {
      var base := MasterWireBase(master, profile).value;
      assert base + "#" + (PEER_PREFIX + slug) == base + "#peer-" + slug;
    }
  }
}
