/** Dispatch receipts: parsing under request-derived fences, and the retry identity check. */
module DispatchReceipt {
  import opened Wrappers
  import opened Json
  import opened SessionIdentity
  import Chars

  datatype ScopedGoal = ScopedGoal(goalId: string, taskId: Option<string>, revision: Option<nat>)

  datatype Receipt = Receipt(
    operationId: string, model: string, modelLane: string, workspaceRoot: string, scopedGoal: Option<ScopedGoal>,
    adoptedTurnId: string, adoptedSessionId: string, slug: string, duplicate: bool, acceptedAtMs: nat,
    payloadDigest: string)

  datatype Target = New(topic: Option<string>) | Existing(slug: string, sessionId: string)

  /** `scopedGoal` is `None` for no fence and `Some(None)` for the expectation that there is no goal. */
  datatype Expectation = Expectation(
    operationId: string, model: string, modelLane: Option<string>, workspaceRoot: string, profileId: string,
    masterSessionId: string, scopedGoal: Option<Option<ScopedGoal>>, target: Target)

  datatype Reply = InvalidExpectation | NoReceipt | Parsed(receipt: Receipt)

  // ---------------------------------------------------------------- parsing

  function NonBlank(value: Option<Json>): Option<string> {
    match Text(value)
    case Some(s) => if Chars.IsNonBlank(s) then Some(s) else None
    case None => None
  }

  predicate AbsentOrNull(value: Option<Json>) { value.None? || value.value.Null? }

  /** `None` is a malformed goal, `Some(None)` an absent one. */
  function ParseScopedGoal(value: Option<Json>): Option<Option<ScopedGoal>> {
    if AbsentOrNull(value) then Some(None)
    else
      match value.value
      case Obj(f) =>
        if NonBlank(Get(f, "goal_id")).None? then None
        else if "task_id" in f && NonBlank(Get(f, "task_id")).None? then None
        else if "revision" in f && Count(Get(f, "revision")).None? then None
        else Some(Some(ScopedGoal(
                         NonBlank(Get(f, "goal_id")).value, NonBlank(Get(f, "task_id")), Count(Get(f, "revision")))))
      case _ => None
  }

  function SafeSlug(value: Option<Json>): Option<string> {
    match Text(value)
    case Some(s) => if PeerSlugIsSafe(s) then Some(s) else None
    case None => None
  }

  function Uuid(value: Option<Json>): Option<string> {
    match Text(value)
    case Some(s) => if Chars.IsProtocolUuid(s) then Some(s) else None
    case None => None
  }

  /** What a reply says, whoever it was meant for. */
  function ReadReceipt(value: Json): Option<Receipt> {
    match value
    case Obj(f) =>
      var operation, model, lane, root :=
        NonBlank(Get(f, "operation_id")), NonBlank(Get(f, "model")), NonBlank(Get(f, "model_lane")),
        NonBlank(Get(f, "workspace_root"));
      var turn, session, slug :=
        Uuid(Get(f, "adopted_turn_id")), NonBlank(Get(f, "adopted_session_id")), SafeSlug(Get(f, "slug"));
      var accepted, digest, goal :=
        Count(Get(f, "accepted_at_ms")), NonBlank(Get(f, "payload_digest")), ParseScopedGoal(Get(f, "scoped_goal"));
      (match Get(f, "duplicate")
       case Some(Bool(duplicate)) =>
         if Get(f, "state") != Some(Str("accepted")) || operation.None? || model.None? || lane.None? || root.None?
            || turn.None? || session.None? || slug.None? || accepted.None? || digest.None? || goal.None?
         then None
         else Some(Receipt(operation.value, model.value, lane.value, root.value, goal.value, turn.value, session.value,
                           slug.value, duplicate, accepted.value, digest.value))
       case _ => None)
    case _ => None
  }

  predicate IsValidPeerTopic(topic: string) {
    PEER_PREFIX <= topic && PeerSlugIsSafe(topic[|PEER_PREFIX|..])
  }

  predicate IsGoal(goal: ScopedGoal) {
    && Chars.IsNonBlank(goal.goalId)
    && (goal.taskId.Some? ==> Chars.IsNonBlank(goal.taskId.value))
    && (goal.revision.Some? ==> goal.revision.value <= MAX_SAFE_INTEGER)
  }

  predicate ValidGoalFence(fence: Option<Option<ScopedGoal>>) {
    fence.Some? && fence.value.Some? ==> IsGoal(fence.value.value)
  }

  predicate ValidTarget(target: Target, base: string) {
    match target
    case Existing(slug, session) => PeerSlugIsSafe(slug) && session == WorkerSession(base, slug)
    case New(topic) => topic.Some? ==> IsValidPeerTopic(topic.value)
  }

  predicate ValidExpectation(e: Expectation) {
    && Chars.IsNonBlank(e.operationId) && Chars.IsNonBlank(e.model)
    && (e.modelLane.Some? ==> Chars.IsNonBlank(e.modelLane.value))
    && Chars.IsNonBlank(e.workspaceRoot)
    && IsValidProfileId(e.profileId)
    && var base := MasterWireBase(e.masterSessionId, e.profileId);
    && base.Some?
    && ValidGoalFence(e.scopedGoal)
    && ValidTarget(e.target, base.value)
  }

  /** Only the facets the expectation names are compared. */
  predicate GoalFenceHolds(expected: ScopedGoal, actual: ScopedGoal) {
    && expected.goalId == actual.goalId
    && (expected.taskId.Some? ==> expected.taskId == actual.taskId)
    && (expected.revision.Some? ==> expected.revision == actual.revision)
  }

  predicate ScopedGoalFence(fence: Option<Option<ScopedGoal>>, actual: Option<ScopedGoal>) {
    match fence
    case None => true
    case Some(None) => actual.None?
    case Some(Some(goal)) => actual.Some? && GoalFenceHolds(goal, actual.value)
  }

  predicate TargetFence(target: Target, slug: string, sessionId: string)
    requires target.New? && target.topic.Some? ==> PEER_PREFIX <= target.topic.value
  {
    match target
    case Existing(expected, session) => slug == expected && sessionId == session
    case New(topic) => topic.Some? ==> slug == topic.value[|PEER_PREFIX|..]
  }

  predicate FencesHold(r: Receipt, e: Expectation)
    requires ValidExpectation(e)
  {
    && r.operationId == e.operationId && r.model == e.model
    && (e.modelLane.Some? ==> r.modelLane == e.modelLane.value)
    && r.workspaceRoot == e.workspaceRoot
    && ScopedGoalFence(e.scopedGoal, r.scopedGoal)
    && WorkerMatches(e.masterSessionId, e.profileId, r.adoptedSessionId, r.slug)
    && TargetFence(e.target, r.slug, r.adoptedSessionId)
  }

  function ParseReceipt(value: Json, e: Expectation): Reply {
    if !ValidExpectation(e) then InvalidExpectation
    else
      match ReadReceipt(value)
      case None => NoReceipt
      case Some(r) => if FencesHold(r, e) then Parsed(r) else NoReceipt
  }

  // ---------------------------------------------------------------- the retry check

  const FIELDS: seq<string> :=
    ["operationId", "model", "modelLane", "workspaceRoot", "scopedGoal", "adoptedTurnId", "adoptedSessionId", "slug",
     "acceptedAtMs", "payloadDigest"]

  /** Whether two receipts agree on the `i`-th checked field. */
  predicate Agree(first: Receipt, retry: Receipt, i: nat)
    requires i < |FIELDS|
  {
    match i
    case 0 => retry.operationId == first.operationId
    case 1 => retry.model == first.model
    case 2 => retry.modelLane == first.modelLane
    case 3 => retry.workspaceRoot == first.workspaceRoot
    case 4 => SameScopedGoal(first.scopedGoal, retry.scopedGoal)
    case 5 => retry.adoptedTurnId == first.adoptedTurnId
    case 6 => retry.adoptedSessionId == first.adoptedSessionId
    case 7 => retry.slug == first.slug
    case 8 => retry.acceptedAtMs == first.acceptedAtMs
    case _ => retry.payloadDigest == first.payloadDigest
  }

  predicate SameScopedGoal(a: Option<ScopedGoal>, b: Option<ScopedGoal>) {
    if a.None? || b.None? then a.None? && b.None?
    else
      a.value.goalId == b.value.goalId && a.value.taskId == b.value.taskId && a.value.revision == b.value.revision
  }

  /** The retry tells of the same acceptance: it differs from the first receipt in `duplicate` at most. */
  predicate SameAcceptance(first: Receipt, retry: Receipt) {
    retry == first.(duplicate := retry.duplicate)
  }

  /** The name of the first field, in this order, in which the receipts differ. */
  function FirstDifference(a: Receipt, b: Receipt): Option<string> {
    if a.operationId != b.operationId then Some("operationId")
    else if a.model != b.model then Some("model")
    else if a.modelLane != b.modelLane then Some("modelLane")
    else if a.workspaceRoot != b.workspaceRoot then Some("workspaceRoot")
    else if a.scopedGoal != b.scopedGoal then Some("scopedGoal")
    else if a.adoptedTurnId != b.adoptedTurnId then Some("adoptedTurnId")
    else if a.adoptedSessionId != b.adoptedSessionId then Some("adoptedSessionId")
    else if a.slug != b.slug then Some("slug")
    else if a.acceptedAtMs != b.acceptedAtMs then Some("acceptedAtMs")
    else if a.payloadDigest != b.payloadDigest then Some("payloadDigest")
    else None
  }

  lemma FirstDifferenceAt(first: Receipt, retry: Receipt, i: nat)
    requires i < |FIELDS| && !Agree(first, retry, i) && forall j :: 0 <= j < i ==> Agree(first, retry, j)
    ensures FirstDifference(first, retry) == Some(FIELDS[i])
  {
    assert forall j: nat :: j < i ==> Agree(first, retry, j);
    assert 0 < i ==> Agree(first, retry, 0);
    assert 1 < i ==> Agree(first, retry, 1);
    assert 2 < i ==> Agree(first, retry, 2);
    assert 3 < i ==> Agree(first, retry, 3);
    assert 4 < i ==> Agree(first, retry, 4);
    assert 5 < i ==> Agree(first, retry, 5);
    assert 6 < i ==> Agree(first, retry, 6);
    assert 7 < i ==> Agree(first, retry, 7);
    assert 8 < i ==> Agree(first, retry, 8);
  }

  /** `checkDispatchRetryIdentity`: a conflict is reported by the name of the first field that differs. */
  method CheckRetryIdentity(first: Receipt, retry: Receipt) returns (conflict: Option<string>)
    ensures conflict.None? <==> SameAcceptance(first, retry)
    ensures conflict == FirstDifference(first, retry)
  {
    var i := 0;
    while i < |FIELDS|
      invariant 0 <= i <= |FIELDS|
      invariant forall j :: 0 <= j < i ==> Agree(first, retry, j)
    {
      if !Agree(first, retry, i) {
        AgreementIsIdentity(first, retry);
        FirstDifferenceAt(first, retry, i);
        return Some(FIELDS[i]);
      }
      i := i + 1;
    }
    AgreementIsIdentity(first, retry);
    return None;
  }

  lemma AgreementIsIdentity(first: Receipt, retry: Receipt)
    ensures (forall i :: 0 <= i < |FIELDS| ==> Agree(first, retry, i)) <==> SameAcceptance(first, retry)
  {
    assert |FIELDS| == 10;
    if forall i :: 0 <= i < |FIELDS| ==> Agree(first, retry, i) {
      assert Agree(first, retry, 0) && Agree(first, retry, 1) && Agree(first, retry, 2) && Agree(first, retry, 3);
      assert Agree(first, retry, 4) && Agree(first, retry, 5) && Agree(first, retry, 6) && Agree(first, retry, 7);
      assert Agree(first, retry, 8) && Agree(first, retry, 9);
    }
  }

  // ---------------------------------------------------------------- writing a receipt back

  function GoalField(goal: ScopedGoal, key: string): Option<Json> {
    match key
    case "goal_id" => Some(Str(goal.goalId))
    case "task_id" => FieldOfText(goal.taskId)
    case "revision" => FieldOfCount(goal.revision)
    case _ => None
  }

  const GOAL_KEYS: set<string> := {"goal_id", "task_id", "revision"}

  function EncodeGoal(goal: ScopedGoal): (fields: map<string, Json>)
    ensures forall key :: key in GOAL_KEYS ==> Get(fields, key) == GoalField(goal, key)
  {
    map key | key in GOAL_KEYS && GoalField(goal, key).Some? :: GoalField(goal, key).value
  }

  function ReceiptField(r: Receipt, key: string): Option<Json> {
    match key
    case "operation_id" => Some(Str(r.operationId))
    case "state" => Some(Str("accepted"))
    case "model" => Some(Str(r.model))
    case "model_lane" => Some(Str(r.modelLane))
    case "workspace_root" => Some(Str(r.workspaceRoot))
    case "scoped_goal" => (match r.scopedGoal case Some(goal) => Some(Obj(EncodeGoal(goal))) case None => None)
    case "adopted_turn_id" => Some(Str(r.adoptedTurnId))
    case "adopted_session_id" => Some(Str(r.adoptedSessionId))
    case "slug" => Some(Str(r.slug))
    case "duplicate" => Some(Bool(r.duplicate))
    case "accepted_at_ms" => Some(Integer(r.acceptedAtMs))
    case "payload_digest" => Some(Str(r.payloadDigest))
    case _ => None
  }

  const RECEIPT_KEYS: set<string> :=
    {"operation_id", "state", "model", "model_lane", "workspace_root", "scoped_goal", "adopted_turn_id",
     "adopted_session_id", "slug", "duplicate", "accepted_at_ms", "payload_digest"}

  function EncodeReceipt(r: Receipt): (fields: map<string, Json>)
    ensures forall key :: key in RECEIPT_KEYS ==> Get(fields, key) == ReceiptField(r, key)
  {
    map key | key in RECEIPT_KEYS && ReceiptField(r, key).Some? :: ReceiptField(r, key).value
  }

  /** What an accepted receipt can be, whoever it was meant for. */
  predicate IsReceipt(r: Receipt) {
    && Chars.IsNonBlank(r.operationId) && Chars.IsNonBlank(r.model) && Chars.IsNonBlank(r.modelLane)
    && Chars.IsNonBlank(r.workspaceRoot) && (r.scopedGoal.Some? ==> IsGoal(r.scopedGoal.value))
    && Chars.IsProtocolUuid(r.adoptedTurnId) && Chars.IsNonBlank(r.adoptedSessionId) && PeerSlugIsSafe(r.slug)
    && r.acceptedAtMs <= MAX_SAFE_INTEGER && Chars.IsNonBlank(r.payloadDigest)
  }

  lemma GoalRoundTrip(goal: ScopedGoal)
    requires IsGoal(goal)
    ensures ParseScopedGoal(Some(Obj(EncodeGoal(goal)))) == Some(Some(goal))
  {
    hide Chars.IsNonBlank;
    var f := EncodeGoal(goal);
    assert Get(f, "goal_id") == Some(Str(goal.goalId));
    assert Get(f, "task_id") == FieldOfText(goal.taskId);
    assert Get(f, "revision") == FieldOfCount(goal.revision);
    if goal.revision.Some? { IntegerIsCount(goal.revision.value); }
  }

  lemma ReadIsReceipt(value: Json)
    ensures ReadReceipt(value).Some? ==> IsReceipt(ReadReceipt(value).value)
  {
    hide Chars.IsNonBlank, Chars.IsProtocolUuid, PeerSlugIsSafe;
  }

  /** Every receipt there can be, written as a reply, reads back the same: no field is lost or taken for another. */
  lemma ReceiptRoundTrip(r: Receipt)
    requires IsReceipt(r)
    ensures ReadReceipt(Obj(EncodeReceipt(r))) == Some(r)
  {
    hide Chars.IsNonBlank, Chars.IsProtocolUuid, PeerSlugIsSafe, ParseScopedGoal, EncodeGoal, EncodeReceipt, IsGoal;
    ReceiptFieldsRead(r);
    IntegerIsCount(r.acceptedAtMs);
    AbsentGoal();
    if r.scopedGoal.Some? {
      GoalRoundTrip(r.scopedGoal.value);
    }
  }

  lemma AbsentGoal()
    ensures ParseScopedGoal(None) == Some(None)
  {
  }

  lemma ReceiptFieldsRead(r: Receipt)
    ensures var f := EncodeReceipt(r);
            && Get(f, "operation_id") == Some(Str(r.operationId))
            && Get(f, "state") == Some(Str("accepted"))
            && Get(f, "model") == Some(Str(r.model))
            && Get(f, "model_lane") == Some(Str(r.modelLane))
            && Get(f, "workspace_root") == Some(Str(r.workspaceRoot))
            && Get(f, "scoped_goal") == (match r.scopedGoal case Some(g) => Some(Obj(EncodeGoal(g))) case None => None)
            && Get(f, "adopted_turn_id") == Some(Str(r.adoptedTurnId))
            && Get(f, "adopted_session_id") == Some(Str(r.adoptedSessionId))
            && Get(f, "slug") == Some(Str(r.slug))
            && Get(f, "duplicate") == Some(Bool(r.duplicate))
            && Get(f, "accepted_at_ms") == Some(Integer(r.acceptedAtMs))
            && Get(f, "payload_digest") == Some(Str(r.payloadDigest))
  {
  }

  // ---------------------------------------------------------------- theorems

  /** The retry check is an equivalence on receipts, and flipping `duplicate` is all it overlooks. */
  lemma RetryIdentityIsEquivalence(a: Receipt, b: Receipt, c: Receipt)
    ensures SameAcceptance(a, a)
    ensures SameAcceptance(a, b) ==> SameAcceptance(b, a)
    ensures SameAcceptance(a, b) && SameAcceptance(b, c) ==> SameAcceptance(a, c)
    ensures SameAcceptance(a, b) <==> a == b || b == a.(duplicate := !a.duplicate)
  {
  }

  /**
   * Fences travel along the retry check: if one reply satisfies an expectation, any other reply that parses under some
   * expectation and retells the same acceptance satisfies the first expectation as well.
   */
  lemma RetryKeepsFences(first: Json, retry: Json, e: Expectation, other: Expectation)
    requires ParseReceipt(first, e).Parsed? && ParseReceipt(retry, other).Parsed?
    requires SameAcceptance(ParseReceipt(first, e).receipt, ParseReceipt(retry, other).receipt)
    ensures ParseReceipt(retry, e) == ParseReceipt(retry, other)
  {
    hide ReadReceipt, WorkerMatches, GoalFenceHolds, ValidExpectation;
  }

  /** Each reply parsed under some expectation, and was checked against the one before it. */
  ghost predicate RetryChain(replies: seq<Json>, es: seq<Expectation>) {
    && |replies| == |es|
    && (forall i :: 0 <= i < |replies| ==> ParseReceipt(replies[i], es[i]).Parsed?)
    && (forall i :: 0 < i < |replies| ==>
          SameAcceptance(ParseReceipt(replies[i - 1], es[i - 1]).receipt, ParseReceipt(replies[i], es[i]).receipt))
  }

  lemma {:induction false} ChainAgrees(replies: seq<Json>, es: seq<Expectation>, i: nat, j: nat)
    requires RetryChain(replies, es) && i <= j < |replies|
    ensures SameAcceptance(ParseReceipt(replies[i], es[i]).receipt, ParseReceipt(replies[j], es[j]).receipt)
    decreases j
  {
    hide ParseReceipt, SameAcceptance;
    var a, c := ParseReceipt(replies[i], es[i]).receipt, ParseReceipt(replies[j], es[j]).receipt;
    if i == j {
      RetryIdentityIsEquivalence(a, a, a);
    } else {
      ChainAgrees(replies, es, i, j - 1);
      RetryIdentityIsEquivalence(a, ParseReceipt(replies[j - 1], es[j - 1]).receipt, c);
    }
  }

  /**
   * Checking each retry against the one before is as good as checking all against all: along any chain of retries
   * every two receipts tell of the same acceptance, and every reply meets every expectation of the chain.
   */
  lemma RetryChainKeepsFences(replies: seq<Json>, es: seq<Expectation>, i: nat, j: nat)
    requires RetryChain(replies, es) && i < |replies| && j < |replies|
    ensures SameAcceptance(ParseReceipt(replies[i], es[i]).receipt, ParseReceipt(replies[j], es[j]).receipt)
    ensures ParseReceipt(replies[j], es[i]) == ParseReceipt(replies[j], es[j])
  {
    hide ParseReceipt, SameAcceptance;
    var a, b := ParseReceipt(replies[i], es[i]).receipt, ParseReceipt(replies[j], es[j]).receipt;
    if i <= j {
      ChainAgrees(replies, es, i, j);
    } else {
      ChainAgrees(replies, es, j, i);
      RetryIdentityIsEquivalence(b, a, b);
    }
    RetryKeepsFences(replies[i], replies[j], es[i], es[j]);
  }

  /** The tightest expectation a receipt meets: every fence, taken from the receipt itself. */
  function ExpectationOf(r: Receipt, master: string, profile: string): Expectation {
    Expectation(r.operationId, r.model, Some(r.modelLane), r.workspaceRoot, profile, master, Some(r.scopedGoal),
                Existing(r.slug, r.adoptedSessionId))
  }

  /** Two goal fences no single goal can meet. */
  predicate GoalsConflict(a: Option<Option<ScopedGoal>>, b: Option<Option<ScopedGoal>>) {
    && a.Some? && b.Some?
    && (a.value.Some? != b.value.Some?
        || (a.value.Some? && b.value.Some? &&
            var x, y := a.value.value, b.value.value;
            || x.goalId != y.goalId
            || (x.taskId.Some? && y.taskId.Some? && x.taskId != y.taskId)
            || (x.revision.Some? && y.revision.Some? && x.revision != y.revision)))
  }

  /** The slug a target names, if it names one. */
  function TargetSlug(target: Target): Option<string> {
    match target
    case Existing(slug, _) => Some(slug)
    case New(Some(topic)) => if PEER_PREFIX <= topic then Some(topic[|PEER_PREFIX|..]) else None
    case New(None) => None
  }

  /** One reply never satisfies two expectations that contradict each other in any fence. */
  lemma ContradictoryFencesShareNoReply(value: Json, e: Expectation, f: Expectation)
    requires ParseReceipt(value, e).Parsed? && ParseReceipt(value, f).Parsed?
    ensures Compatible(e, f)
  {
    hide ReadReceipt, ValidExpectation, FencesHold, Compatible;
    FencesAgree(ParseReceipt(value, e).receipt, e, f);
  }

  predicate Compatible(e: Expectation, f: Expectation) {
    && e.operationId == f.operationId && e.model == f.model && e.workspaceRoot == f.workspaceRoot
    && (e.modelLane.Some? && f.modelLane.Some? ==> e.modelLane == f.modelLane)
    && !GoalsConflict(e.scopedGoal, f.scopedGoal)
    && MasterWireBase(e.masterSessionId, e.profileId) == MasterWireBase(f.masterSessionId, f.profileId)
    && (TargetSlug(e.target).Some? && TargetSlug(f.target).Some? ==> TargetSlug(e.target) == TargetSlug(f.target))
  }

  lemma FencesAgree(r: Receipt, e: Expectation, f: Expectation)
    requires ValidExpectation(e) && ValidExpectation(f) && FencesHold(r, e) && FencesHold(r, f)
    ensures Compatible(e, f)
  {
    hide WorkerMatches, MasterWireBase, PeerSlugIsSafe, Chars.IsNonBlank, IsGoal, IsValidProfileId;
    WorkerSplits(e.masterSessionId, e.profileId, r.adoptedSessionId, r.slug);
    WorkerSplits(f.masterSessionId, f.profileId, r.adoptedSessionId, r.slug);
  }

  /** Every accepted receipt names a native identity below the captured master, and no other master's base. */
  lemma ReceiptNamesNativeWorker(value: Json, e: Expectation, master: string, profile: string)
    requires ParseReceipt(value, e).Parsed?
    ensures var r := ParseReceipt(value, e).receipt;
            && AdoptedIdentityIsNative(r.adoptedTurnId, r.adoptedSessionId, r.slug)
            && MasterWireBase(e.masterSessionId, e.profileId) == Some(Base(r.adoptedSessionId))
            && (WorkerMatches(master, profile, r.adoptedSessionId, r.slug) ==>
                  MasterWireBase(master, profile) == MasterWireBase(e.masterSessionId, e.profileId))
  {
    hide ReadReceipt, WorkerMatches, GoalFenceHolds, ValidExpectation, MasterWireBase, PeerSlugIsSafe,
      AdoptedIdentityIsNative, Chars.IsProtocolUuid, Chars.IsNonBlank, IsGoal;
    var r := ParseReceipt(value, e).receipt;
    ReadIsReceipt(value);
    MatchedWorkerIsNative(r.adoptedTurnId, e.masterSessionId, e.profileId, r.adoptedSessionId, r.slug);
    WorkerSplits(e.masterSessionId, e.profileId, r.adoptedSessionId, r.slug);
    if WorkerMatches(master, profile, r.adoptedSessionId, r.slug) {
      WorkerSplits(master, profile, r.adoptedSessionId, r.slug);
    }
  }

  /** The adopted session reads `p:local:tui#peer-slug` exactly when the captured master's base is `p:local:tui`. */
  lemma CanonicalSessionExactly(value: Json, e: Expectation, p: string)
    requires ParseReceipt(value, e).Parsed? && '#' !in p
    ensures var r := ParseReceipt(value, e).receipt;
            r.adoptedSessionId == WorkerSession(p + ":local:tui", r.slug) <==>
              MasterWireBase(e.masterSessionId, e.profileId) == Some(p + ":local:tui")
  {
    hide ReadReceipt, GoalFenceHolds, ValidExpectation, MasterWireBase, PeerSlugIsSafe, IsValidProfileId;
    var r := ParseReceipt(value, e).receipt;
    WorkerSplits(e.masterSessionId, e.profileId, r.adoptedSessionId, r.slug);
    SplitComposed(p + ":local:tui", PEER_PREFIX + r.slug);
  }

  /** The nil UUID. */
  function NilUuid(): (id: string)
    ensures Chars.IsProtocolUuid(id) && Chars.IsNonBlank(id)
  {
    var id := seq(36, i => if i in {8, 13, 18, 23} then '-' else '0');
    Chars.TrimEmptyMeansBlank(id);
    assert !Chars.IsSpace(id[0]);
    assert Chars.IsHyphenatedUuid(id);
    id
  }

  // ---------------------------------------------------------------- exactly what is read

  predicate SaysNonBlank(field: Option<Json>, s: string) { field == Some(Str(s)) && Chars.Trim(s) != "" }

  predicate SaysGoal(field: Option<Json>, goal: Option<ScopedGoal>) {
    if goal.None? then Missing(field)
    else
      && field.Some? && field.value.Obj?
      && var f, g := field.value.fields, goal.value;
      && SaysNonBlank(Get(f, "goal_id"), g.goalId)
      && (if g.taskId.Some? then SaysNonBlank(Get(f, "task_id"), g.taskId.value) else "task_id" !in f)
      && (if g.revision.Some? then SaysCount(Get(f, "revision"), g.revision.value) else "revision" !in f)
  }

  lemma GoalReadExactly(field: Option<Json>, goal: Option<ScopedGoal>)
    ensures ParseScopedGoal(field) == Some(goal) <==> SaysGoal(field, goal)
  {
    hide Chars.Trim;
  }

  predicate SaysReceipt(f: map<string, Json>, r: Receipt) {
    && Get(f, "state") == Some(Str("accepted")) && Get(f, "duplicate") == Some(Bool(r.duplicate))
    && SaysNonBlank(Get(f, "operation_id"), r.operationId) && SaysNonBlank(Get(f, "model"), r.model)
    && SaysNonBlank(Get(f, "model_lane"), r.modelLane) && SaysNonBlank(Get(f, "workspace_root"), r.workspaceRoot)
    && SaysText(Get(f, "adopted_turn_id"), r.adoptedTurnId) && Chars.IsProtocolUuid(r.adoptedTurnId)
    && SaysNonBlank(Get(f, "adopted_session_id"), r.adoptedSessionId)
    && SaysText(Get(f, "slug"), r.slug) && PeerSlugIsSafe(r.slug)
    && SaysCount(Get(f, "accepted_at_ms"), r.acceptedAtMs)
    && SaysNonBlank(Get(f, "payload_digest"), r.payloadDigest)
    && SaysGoal(Get(f, "scoped_goal"), r.scopedGoal)
  }

  lemma NonBlankReadExactly(field: Option<Json>, s: string)
    ensures NonBlank(field) == Some(s) <==> SaysNonBlank(field, s)
  {
  }

  lemma IdsReadExactly(field: Option<Json>, s: string)
    ensures Uuid(field) == Some(s) <==> SaysText(field, s) && Chars.IsProtocolUuid(s)
    ensures SafeSlug(field) == Some(s) <==> SaysText(field, s) && PeerSlugIsSafe(s)
  {
    hide Chars.IsProtocolUuid, PeerSlugIsSafe;
  }

  /** A receipt is read if and only if the reply is one, whatever else it holds. */
  lemma ReceiptReadExactly(value: Json, r: Receipt)
    ensures ReadReceipt(value) == Some(r) <==> value.Obj? && SaysReceipt(value.fields, r)
  {
    if value.Obj? {
      var f := value.fields;
      NonBlankReadExactly(Get(f, "operation_id"), r.operationId);
      NonBlankReadExactly(Get(f, "model"), r.model);
      NonBlankReadExactly(Get(f, "model_lane"), r.modelLane);
      NonBlankReadExactly(Get(f, "workspace_root"), r.workspaceRoot);
      NonBlankReadExactly(Get(f, "adopted_session_id"), r.adoptedSessionId);
      NonBlankReadExactly(Get(f, "payload_digest"), r.payloadDigest);
      IdsReadExactly(Get(f, "adopted_turn_id"), r.adoptedTurnId);
      IdsReadExactly(Get(f, "slug"), r.slug);
      FieldsReadExactly(Get(f, "accepted_at_ms"), "", r.acceptedAtMs, 0);
      GoalReadExactly(Get(f, "scoped_goal"), r.scopedGoal);
      hide NonBlank, SaysNonBlank, Uuid, SafeSlug, SaysText, Count, SaysCount, ParseScopedGoal, SaysGoal,
        Chars.IsProtocolUuid, PeerSlugIsSafe, Get;
    }
  }

  // ---------------------------------------------------------------- exactly what is accepted

  /** A fence on the goal is absent, the goal itself, or the goal with some of its facets left open. */
  predicate GoalMeets(fence: Option<Option<ScopedGoal>>, goal: Option<ScopedGoal>) {
    || fence == None || fence == Some(goal)
    || (fence.value.Some? && goal.Some?
        && var f, g := fence.value.value, goal.value;
        f.goalId == g.goalId && (f.taskId == None || f.taskId == g.taskId)
        && (f.revision == None || f.revision == g.revision))
  }

  predicate TargetMeets(target: Target, slug: string, sessionId: string) {
    target == New(None) || target == New(Some("peer-" + slug)) || target == Existing(slug, sessionId)
  }

  /** `r` answers `e`: each fence of `e` is absent or what `r` says, and `r` is a worker of the captured master. */
  predicate Answers(r: Receipt, e: Expectation) {
    && e.operationId == r.operationId && e.model == r.model
    && (e.modelLane == None || e.modelLane == Some(r.modelLane))
    && e.workspaceRoot == r.workspaceRoot && GoalMeets(e.scopedGoal, r.scopedGoal)
    && WorkerMatches(e.masterSessionId, e.profileId, r.adoptedSessionId, r.slug)
    && TargetMeets(e.target, r.slug, r.adoptedSessionId)
  }

  lemma GoalFenceExactly(fence: Option<Option<ScopedGoal>>, goal: Option<ScopedGoal>)
    ensures ScopedGoalFence(fence, goal) <==> GoalMeets(fence, goal)
  {
  }

  lemma TargetFenceExactly(target: Target, slug: string, sessionId: string)
    requires target.New? && target.topic.Some? ==> PEER_PREFIX <= target.topic.value
    ensures TargetFence(target, slug, sessionId) <==> TargetMeets(target, slug, sessionId)
  {
    assert ("peer-" + slug)[|PEER_PREFIX|..] == slug;
    if target.New? && target.topic.Some? {
      var topic := target.topic.value;
      assert topic == "peer-" + topic[|PEER_PREFIX|..];
    }
  }

  lemma GoalFenceIsGoal(fence: Option<Option<ScopedGoal>>, goal: Option<ScopedGoal>)
    requires GoalMeets(fence, goal) && (goal.Some? ==> IsGoal(goal.value))
    ensures ValidGoalFence(fence)
  {
    hide Chars.IsNonBlank;
  }

  lemma TargetMeetsIsValid(target: Target, slug: string, base: string)
    requires TargetMeets(target, slug, WorkerSession(base, slug)) && PeerSlugIsSafe(slug)
    ensures ValidTarget(target, base)
  {
    hide PeerSlugIsSafe, WorkerSession;
    assert ("peer-" + slug)[|PEER_PREFIX|..] == slug;
  }

  lemma AnsweredExpectationIsValid(r: Receipt, e: Expectation)
    requires IsReceipt(r) && Answers(r, e)
    ensures ValidExpectation(e)
  {
    var base := MasterWireBase(e.masterSessionId, e.profileId).value;
    GoalFenceIsGoal(e.scopedGoal, r.scopedGoal);
    TargetMeetsIsValid(e.target, r.slug, base);
    hide MasterWireBase, PeerSlugIsSafe, IsValidProfileId, Chars.IsNonBlank, Chars.IsProtocolUuid, IsGoal, GoalMeets,
      TargetMeets, WorkerSession, ValidGoalFence, ValidTarget;
  }

  lemma ValidTopicHasPrefix(e: Expectation)
    requires ValidExpectation(e)
    ensures e.target.New? && e.target.topic.Some? ==> PEER_PREFIX <= e.target.topic.value
  {
    hide MasterWireBase, PeerSlugIsSafe, IsValidProfileId, Chars.IsNonBlank, WorkerSession, ValidGoalFence;
  }

  lemma FencesHoldExactly(r: Receipt, e: Expectation)
    requires ValidExpectation(e)
    ensures FencesHold(r, e) <==> Answers(r, e)
  {
    hide ValidExpectation, WorkerMatches, ScopedGoalFence, GoalMeets, TargetFence, TargetMeets;
    ValidTopicHasPrefix(e);
    GoalFenceExactly(e.scopedGoal, r.scopedGoal);
    TargetFenceExactly(e.target, r.slug, r.adoptedSessionId);
  }

  /**
   * A reply is accepted under an expectation if and only if it is a receipt that answers it: every fence left open
   * admits it, and every fence given must be met.
   */
  lemma AcceptedExactly(value: Json, e: Expectation, r: Receipt)
    ensures ParseReceipt(value, e) == Parsed(r) <==> value.Obj? && SaysReceipt(value.fields, r) && Answers(r, e)
  {
    ReceiptReadExactly(value, r);
    if ReadReceipt(value) == Some(r) {
      ReadIsReceipt(value);
      if Answers(r, e) {
        AnsweredExpectationIsValid(r, e);
      }
      if ValidExpectation(e) {
        FencesHoldExactly(r, e);
      }
    }
    hide ReadReceipt, SaysReceipt, Answers, ValidExpectation, FencesHold;
  }

  /** A truthful reply is never refused, whichever fences the expectation gives or leaves open. */
  lemma TruthfulReceiptIsAccepted(r: Receipt, e: Expectation)
    requires IsReceipt(r) && Answers(r, e)
    ensures ParseReceipt(Obj(EncodeReceipt(r)), e) == Parsed(r)
  {
    hide ReadReceipt, EncodeReceipt, IsReceipt, Answers, ValidExpectation, FencesHold;
    ReceiptRoundTrip(r);
    AnsweredExpectationIsValid(r, e);
    FencesHoldExactly(r, e);
  }

  /** A receipt below the bare master `m`. */
  function BareReceipt(): Receipt {
    Receipt("m", "m", "m", "m", None, NilUuid(), WorkerSession("m", "a b"), "a b", false, 0, "m")
  }

  /** A concrete reply is accepted although its adopted session is not of the form `p:local:tui#peer-slug`. */
  lemma BareReceiptIsAccepted()
    ensures var r := BareReceipt();
            && ParseReceipt(Obj(EncodeReceipt(r)), ExpectationOf(r, "m", "m")) == Parsed(r)
            && forall p: string :: r.adoptedSessionId != WorkerSession(p + ":local:tui", r.slug)
  {
    hide MasterWireBase, WorkerMatches, PeerSlugIsSafe, EncodeReceipt, ParseReceipt, ExpectationOf, NilUuid,
      Chars.IsNonBlank;
    var r := BareReceipt();
    BlankSlugExample();
    LetterIsMaster("m");
    BlankSlugIsSafe("a b");
    SessionIsNonBlank("a b");
    assert IsReceipt(r) && Answers(r, ExpectationOf(r, "m", "m")) by { BareReceiptAnswers(); }
    TruthfulReceiptIsAccepted(r, ExpectationOf(r, "m", "m"));
    forall p: string
      ensures r.adoptedSessionId != WorkerSession(p + ":local:tui", r.slug)
    {
      assert |r.adoptedSessionId| < |WorkerSession(p + ":local:tui", r.slug)|;
    }
  }

  lemma BareReceiptAnswers()
    ensures IsReceipt(BareReceipt()) && Answers(BareReceipt(), ExpectationOf(BareReceipt(), "m", "m"))
  {
    hide MasterWireBase, WorkerMatches, PeerSlugIsSafe, NilUuid, Chars.IsNonBlank, Chars.IsProtocolUuid;
    BlankSlugExample();
    LetterIsMaster("m");
    BlankSlugIsSafe("a b");
    SessionIsNonBlank("a b");
    assert Chars.IsNonBlank("m") by { LetterIsNonBlank(); }
  }

  lemma LetterIsNonBlank()
    ensures Chars.IsNonBlank("m")
  {
    LetterIsMaster("m");
  }

  lemma SessionIsNonBlank(slug: string)
    ensures Chars.IsNonBlank(WorkerSession("m", slug))
  {
    var session := WorkerSession("m", slug);
    Chars.TrimEmptyMeansBlank(session);
    assert session[0] == 'm' && !Chars.IsSpace(session[0]);
  }

  /** A slug that meets the target. */
  function SlugFor(target: Target): string {
    match target
    case Existing(slug, _) => slug
    case New(Some(topic)) => if PEER_PREFIX <= topic then topic[|PEER_PREFIX|..] else ""
    case New(None) => "a b"
  }

  /** A receipt that answers a valid expectation. */
  function SampleAnswer(e: Expectation, base: string): Receipt {
    Receipt(e.operationId, e.model, if e.modelLane.Some? then e.modelLane.value else NilUuid(), e.workspaceRoot,
            if e.scopedGoal.Some? then e.scopedGoal.value else None, NilUuid(),
            WorkerSession(base, SlugFor(e.target)), SlugFor(e.target), false, 0, NilUuid())
  }

  lemma SlugForMeets(target: Target, base: string)
    requires ValidTarget(target, base)
    ensures PeerSlugIsSafe(SlugFor(target))
    ensures TargetMeets(target, SlugFor(target), WorkerSession(base, SlugFor(target)))
  {
    BlankSlugIsSafe("a b");
    hide PeerSlugIsSafe, WorkerSession;
    if target.New? && target.topic.Some? {
      var topic := target.topic.value;
      assert topic == "peer-" + topic[|PEER_PREFIX|..];
    }
  }

  lemma WorkerIsNonBlank(master: string, profile: string, slug: string)
    requires MasterWireBase(master, profile).Some?
    ensures Chars.IsNonBlank(WorkerSession(MasterWireBase(master, profile).value, slug))
  {
    MasterWireBaseIsBase(master, profile);
    hide MasterWireBase, IsPlain, IsValidProfileId;
    var base := Base(master);
    PlainStartIsNonBlank(WorkerSession(base, slug), base);
  }

  lemma SampleIsReceipt(e: Expectation, base: string)
    requires ValidExpectation(e) && PeerSlugIsSafe(SlugFor(e.target))
    requires Chars.IsNonBlank(WorkerSession(base, SlugFor(e.target)))
    ensures IsReceipt(SampleAnswer(e, base))
  {
    hide MasterWireBase, PeerSlugIsSafe, IsValidProfileId, Chars.IsNonBlank, Chars.IsProtocolUuid, NilUuid, SlugFor,
      WorkerSession, IsGoal, ValidTarget;
  }

  lemma SampleMeets(e: Expectation, base: string)
    requires ValidExpectation(e) && MasterWireBase(e.masterSessionId, e.profileId) == Some(base)
    requires PeerSlugIsSafe(SlugFor(e.target))
    requires TargetMeets(e.target, SlugFor(e.target), WorkerSession(base, SlugFor(e.target)))
    ensures Answers(SampleAnswer(e, base), e)
  {
    GoalFenceExactly(e.scopedGoal, SampleAnswer(e, base).scopedGoal);
    hide MasterWireBase, PeerSlugIsSafe, IsValidProfileId, Chars.IsNonBlank, NilUuid, SlugFor, WorkerSession, IsGoal,
      ValidTarget, TargetMeets, GoalMeets, ValidGoalFence;
  }

  lemma SampleAnswers(e: Expectation)
    requires ValidExpectation(e)
    ensures exists r :: IsReceipt(r) && Answers(r, e)
  {
    var base := MasterWireBase(e.masterSessionId, e.profileId).value;
    SlugForMeets(e.target, base);
    WorkerIsNonBlank(e.masterSessionId, e.profileId, SlugFor(e.target));
    SampleIsReceipt(e, base);
    SampleMeets(e, base);
  }

  /** An expectation is refused up front if and only if no receipt there can be would ever answer it. */
  lemma RefusedExactlyWhenUnanswerable(value: Json, e: Expectation)
    ensures ParseReceipt(value, e) == InvalidExpectation <==> !exists r :: IsReceipt(r) && Answers(r, e)
  {
    hide IsReceipt, Answers, ReadReceipt, FencesHold, ValidExpectation;
    if ValidExpectation(e) {
      SampleAnswers(e);
    }
    forall r | IsReceipt(r) && Answers(r, e)
      ensures ValidExpectation(e)
    {
      AnsweredExpectationIsValid(r, e);
    }
  }
}
