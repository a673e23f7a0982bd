/** The context meter: notifications of many sessions folded into one session's snapshot. */
module ContextReducer {
  import opened Wrappers
  import opened Json
  import opened ContextWire

  const STATE_REPORTED := "context/state_reported"
  const COMPACTION_STARTED := "context/compaction_started"
  const COMPACTION_COMPLETED := "context/compaction_completed"
  const NORMALIZATION_REPORTED := "context/normalization_reported"
  const CONTEXT_PREFIX := "context/"
  datatype Progress = Progress(generation: nat, threshold: nat, trigger: string)

  datatype Snapshot = Snapshot(
    state: ContextState,
    reported: Option<nat>,
    lastCompaction: Option<Compaction>,
    lastNormalization: Option<Normalization>,
    compacting: Option<Progress>)

  datatype Notification = Notification(name: string, params: Json)

  // ---------------------------------------------------------------- the reducer

  function OfSession(prior: Option<Snapshot>, sessionId: string): Option<Snapshot> {
    if prior.Some? && prior.value.state.sessionId == sessionId then prior else None
  }

  function WithoutReport(previous: Option<Snapshot>, state: ContextState): Snapshot {
    match previous
    case Some(s) => s.(state := state, reported := None)
    case None => Snapshot(state, None, None, None, None)
  }

  predicate StartsWith(s: string, prefix: string) {
    |prefix| <= |s| && s[..|prefix|] == prefix
  }

  function Apply(prior: Option<Snapshot>, event: Notification, sessionId: string): Option<Snapshot> {
    var previous := OfSession(prior, sessionId);
    if !StartsWith(event.name, CONTEXT_PREFIX) || !event.params.Obj?
       || Text(Get(event.params.fields, "session_id")) != Some(sessionId)
    then previous
    else
      var params := event.params.fields;
      match ParseContextState(Get(params, "context_state"), sessionId)
      case None => previous
      case Some(state) =>
        if previous.Some? && state.generation < previous.value.state.generation then previous
        else if event.name == STATE_REPORTED then
          match Count(Get(params, "threshold_tokens"))
          case None => previous
          case Some(threshold) => Some(WithoutReport(previous, state).(reported := Some(threshold)))
        else if event.name == COMPACTION_STARTED then
          match (Count(Get(params, "threshold_tokens")), Label(Get(params, "trigger")))
          case (Some(threshold), Some(trigger)) =>
            Some(WithoutReport(previous, state).(compacting := Some(Progress(state.generation, threshold, trigger))))
          case _ => previous
        else if event.name == COMPACTION_COMPLETED then
          match ParseCompaction(Get(params, "compaction"))
          case None => previous
          case Some(c) => Some(WithoutReport(previous, state).(lastCompaction := Some(c), compacting := None))
        else if event.name == NORMALIZATION_REPORTED then
          match ParseNormalization(Get(params, "normalization"))
          case None => previous
          case Some(n) => Some(WithoutReport(previous, state).(lastNormalization := Some(n)))
        else previous
  }

  function Fold(prior: Option<Snapshot>, es: seq<Notification>, sessionId: string): Option<Snapshot>
    decreases |es|
  {
    if es == [] then OfSession(prior, sessionId)
    else var m := |es| - 1; Apply(Fold(prior, es[..m], sessionId), es[m], sessionId)
  }

  // ---------------------------------------------------------------- what was reported

  datatype Report =
    | Reported(threshold: nat)
    | Started(progress: Progress)
    | Completed(compaction: Compaction)
    | Normalized(normalization: Normalization)

  datatype Entry = Entry(state: ContextState, report: Report)

  /** What a notification says about the session, whatever came before it. */
  function Reading(event: Notification, sessionId: string): Option<Entry> {
    match event.params
    case Obj(params) =>
      if Text(Get(params, "session_id")) != Some(sessionId) then None
      else
        (match ParseContextState(Get(params, "context_state"), sessionId)
         case None => None
         case Some(state) =>
           (match ReportOf(event.name, params, state)
            case None => None
            case Some(report) => Some(Entry(state, report))))
    case _ => None
  }

  function ReportOf(name: string, params: map<string, Json>, state: ContextState): Option<Report> {
    var threshold := Count(Get(params, "threshold_tokens"));
    var trigger := Label(Get(params, "trigger"));
    var compaction := ParseCompaction(Get(params, "compaction"));
    var normalization := ParseNormalization(Get(params, "normalization"));
    if name == STATE_REPORTED && threshold.Some? then Some(Reported(threshold.value))
    else if name == COMPACTION_STARTED && threshold.Some? && trigger.Some? then
      Some(Started(Progress(state.generation, threshold.value, trigger.value)))
    else if name == COMPACTION_COMPLETED && compaction.Some? then Some(Completed(compaction.value))
    else if name == NORMALIZATION_REPORTED && normalization.Some? then Some(Normalized(normalization.value))
    else None
  }

  /** The generation the next report must reach. */
  function Fence(base: Option<Snapshot>, log: seq<Entry>): nat {
    if log != [] then log[|log| - 1].state.generation
    else if base.Some? then base.value.state.generation
    else 0
  }

  /** The accepted reports of a run: readable ones that do not fall behind the last accepted generation. */
  function Accepted(prior: Option<Snapshot>, es: seq<Notification>, sessionId: string): seq<Entry>
    decreases |es|
  {
    if es == [] then []
    else
      var m := |es| - 1;
      var log := Accepted(prior, es[..m], sessionId);
      match Reading(es[m], sessionId)
      case Some(entry) =>
        if Fence(OfSession(prior, sessionId), log) <= entry.state.generation then log + [entry] else log
      case None => log
  }

  /** The position of the last report of a kind, or -1. */
  function Latest(log: seq<Entry>, kind: Report -> bool): (i: int)
    ensures -1 <= i < |log|
    ensures i >= 0 ==> kind(log[i].report)
    ensures forall j :: i < j < |log| ==> !kind(log[j].report)
  {
    if log == [] then -1
    else if kind(log[|log| - 1].report) then |log| - 1
    else Latest(log[..|log| - 1], kind)
  }

  predicate IsStarted(r: Report) { r.Started? }
  predicate IsCompleted(r: Report) { r.Completed? }
  predicate IsNormalized(r: Report) { r.Normalized? }

  /**
   * What the snapshot means: the state is the last accepted one; the prompt estimate is shown only when the very
   * last accepted report was one; a compaction is in progress when the last start has no completion after it; the
   * last compaction and normalization are the latest of their kind.
   */
  function Meaning(base: Option<Snapshot>, log: seq<Entry>): Option<Snapshot> {
    if log == [] then base
    else
      var last := log[|log| - 1];
      var started, completed, normalized := Latest(log, IsStarted), Latest(log, IsCompleted), Latest(log, IsNormalized);
      Some(Snapshot(
             last.state,
             if last.report.Reported? then Some(last.report.threshold) else None,
             if completed >= 0 then Some(log[completed].report.compaction)
             else if base.Some? then base.value.lastCompaction else None,
             if normalized >= 0 then Some(log[normalized].report.normalization)
             else if base.Some? then base.value.lastNormalization else None,
             if started > completed then Some(log[started].report.progress)
             else if completed < 0 && base.Some? then base.value.compacting
             else None))
  }

  // ---------------------------------------------------------------- theorems

  lemma MethodsAreContextMethods()
    ensures StartsWith(STATE_REPORTED, CONTEXT_PREFIX) && StartsWith(COMPACTION_STARTED, CONTEXT_PREFIX)
    ensures StartsWith(COMPACTION_COMPLETED, CONTEXT_PREFIX) && StartsWith(NORMALIZATION_REPORTED, CONTEXT_PREFIX)
    ensures STATE_REPORTED != COMPACTION_STARTED && STATE_REPORTED != COMPACTION_COMPLETED
    ensures STATE_REPORTED != NORMALIZATION_REPORTED && COMPACTION_STARTED != COMPACTION_COMPLETED
    ensures COMPACTION_STARTED != NORMALIZATION_REPORTED && COMPACTION_COMPLETED != NORMALIZATION_REPORTED
  {
  }

  /** One step either ignores the notification or records its reading. */
  lemma ApplyRecordsReading(previous: Option<Snapshot>, event: Notification, sessionId: string)
    requires OfSession(previous, sessionId) == previous
    ensures var entry := Reading(event, sessionId);
            Apply(previous, event, sessionId) ==
              if entry.Some? && Fence(previous, []) <= entry.value.state.generation
              then Some(Recorded(previous, entry.value)) else previous
  {
    MethodsAreContextMethods();
  }

  /** The snapshot after one more accepted report. */
  function Recorded(previous: Option<Snapshot>, entry: Entry): Snapshot {
    var next := WithoutReport(previous, entry.state);
    match entry.report
    case Reported(threshold) => next.(reported := Some(threshold))
    case Started(progress) => next.(compacting := Some(progress))
    case Completed(c) => next.(lastCompaction := Some(c), compacting := None)
    case Normalized(n) => next.(lastNormalization := Some(n))
  }

  lemma MeaningExtended(base: Option<Snapshot>, log: seq<Entry>, entry: Entry)
    ensures Meaning(base, log + [entry]) == Some(Recorded(Meaning(base, log), entry))
  {
    var longer := log + [entry];
    assert longer[..|log|] == log && longer[|log|] == entry;
    assert Latest(longer, IsStarted) == if entry.report.Started? then |log| else Latest(log, IsStarted);
    assert Latest(longer, IsCompleted) == if entry.report.Completed? then |log| else Latest(log, IsCompleted);
    assert Latest(longer, IsNormalized) == if entry.report.Normalized? then |log| else Latest(log, IsNormalized);
  }

  lemma ReadingShape(event: Notification, sessionId: string)
    ensures var entry := Reading(event, sessionId);
            entry.Some? ==>
              && entry.value.state.sessionId == sessionId
              && (entry.value.report.Started? ==>
                    entry.value.report.progress.generation == entry.value.state.generation)
  {
  }

  lemma MeaningKeepsFence(base: Option<Snapshot>, log: seq<Entry>)
    ensures Fence(Meaning(base, log), []) == Fence(base, log)
  {
  }

  lemma RecordedState(previous: Option<Snapshot>, entry: Entry)
    ensures Recorded(previous, entry).state == entry.state
  {
  }

  /** For every run, from any earlier snapshot, the reducer computes the meaning of the accepted reports. */
  lemma {:induction false} FoldIsMeaning(prior: Option<Snapshot>, es: seq<Notification>, sessionId: string)
    ensures Fold(prior, es, sessionId) == Meaning(OfSession(prior, sessionId), Accepted(prior, es, sessionId))
    ensures OfSession(Fold(prior, es, sessionId), sessionId) == Fold(prior, es, sessionId)
    decreases |es|
  {
    if es != [] {
      hide Apply, Reading, Meaning, Recorded, Fence;
      var m := |es| - 1;
      FoldIsMeaning(prior, es[..m], sessionId);
      var previous, base := Fold(prior, es[..m], sessionId), OfSession(prior, sessionId);
      var log := Accepted(prior, es[..m], sessionId);
      ApplyRecordsReading(previous, es[m], sessionId);
      MeaningKeepsFence(base, log);
      ReadingShape(es[m], sessionId);
      if Reading(es[m], sessionId).Some? {
        RecordedState(previous, Reading(es[m], sessionId).value);
        MeaningExtended(base, log, Reading(es[m], sessionId).value);
      }
    }
  }

  /** Generations never decrease along the log, nor below the earlier snapshot's. */
  ghost predicate Ordered(base: Option<Snapshot>, log: seq<Entry>) {
    && (forall i, j :: 0 <= i <= j < |log| ==> log[i].state.generation <= log[j].state.generation)
    && (forall i :: 0 <= i < |log| ==> Fence(base, []) <= log[i].state.generation)
    && (forall i :: 0 <= i < |log| && log[i].report.Started? ==>
          log[i].report.progress.generation == log[i].state.generation)
  }

  lemma OrderedExtended(base: Option<Snapshot>, log: seq<Entry>, entry: Entry)
    requires Ordered(base, log) && Fence(base, log) <= entry.state.generation
    requires entry.report.Started? ==> entry.report.progress.generation == entry.state.generation
    ensures Ordered(base, log + [entry])
  {
  }

  lemma {:induction false} AcceptedReportsAreOrdered(prior: Option<Snapshot>, es: seq<Notification>, sessionId: string)
    ensures Ordered(OfSession(prior, sessionId), Accepted(prior, es, sessionId))
    decreases |es|
  {
    if es != [] {
      hide Reading, Ordered;
      var m := |es| - 1;
      AcceptedReportsAreOrdered(prior, es[..m], sessionId);
      ReadingShape(es[m], sessionId);
      var log := Accepted(prior, es[..m], sessionId);
      var entry := Reading(es[m], sessionId);
      if entry.Some? && Fence(OfSession(prior, sessionId), log) <= entry.value.state.generation {
        OrderedExtended(OfSession(prior, sessionId), log, entry.value);
      }
    } else {
      assert Accepted(prior, es, sessionId) == [];
    }
  }

  /** A compaction in progress never claims a generation beyond the state it is shown with. */
  lemma {:induction false} ProgressNotAheadOfState(es: seq<Notification>, sessionId: string)
    ensures var s := Fold(None, es, sessionId);
            s.Some? && s.value.compacting.Some? ==> s.value.compacting.value.generation <= s.value.state.generation
  {
    FoldIsMeaning(None, es, sessionId);
    AcceptedReportsAreOrdered(None, es, sessionId);
  }

  lemma ApplyNeverGoesBack(previous: Option<Snapshot>, event: Notification, sessionId: string)
    requires OfSession(previous, sessionId) == previous
    ensures var next := Apply(previous, event, sessionId);
            previous.Some? ==> next.Some? && previous.value.state.generation <= next.value.state.generation
  {
  }

  lemma FoldExtended(prior: Option<Snapshot>, es: seq<Notification>, event: Notification, sessionId: string)
    ensures Fold(prior, es + [event], sessionId) == Apply(Fold(prior, es, sessionId), event, sessionId)
  {
    hide Apply;
    assert (es + [event])[..|es|] == es;
  }

  /** A longer run never shows a smaller generation. */
  lemma {:induction false} GenerationGrowsAlongRun(
      prior: Option<Snapshot>, es: seq<Notification>, more: seq<Notification>, sessionId: string)
    ensures var s, t := Fold(prior, es, sessionId), Fold(prior, es + more, sessionId);
            s.Some? ==> t.Some? && s.value.state.generation <= t.value.state.generation
    decreases |more|
  {
    if more == [] {
      assert es + more == es;
    } else {
      hide Apply, Fold;
      var m := |more| - 1;
      var front := es + more[..m];
      assert es + more == front + [more[m]];
      GenerationGrowsAlongRun(prior, es, more[..m], sessionId);
      FoldIsMeaning(prior, front, sessionId);
      FoldExtended(prior, front, more[m], sessionId);
      ApplyNeverGoesBack(Fold(prior, front, sessionId), more[m], sessionId);
    }
  }

  /** The notifications addressed to one session. */
  predicate AddressedTo(event: Notification, sessionId: string) {
    event.params.Obj? && Text(Get(event.params.fields, "session_id")) == Some(sessionId)
  }

  function Only(es: seq<Notification>, sessionId: string): seq<Notification>
    decreases |es|
  {
    if es == [] then []
    else var m := |es| - 1; Only(es[..m], sessionId) + if AddressedTo(es[m], sessionId) then [es[m]] else []
  }

  /** Other sessions' notifications in the stream make no difference. */
  lemma {:induction false} OtherSessionsAreInvisible(prior: Option<Snapshot>, es: seq<Notification>, sessionId: string)
    ensures Fold(prior, es, sessionId) == Fold(prior, Only(es, sessionId), sessionId)
    decreases |es|
  {
    if es != [] {
      var m := |es| - 1;
      OtherSessionsAreInvisible(prior, es[..m], sessionId);
      FoldIsMeaning(prior, es[..m], sessionId);
      var kept := Only(es[..m], sessionId);
      if AddressedTo(es[m], sessionId) {
        assert Only(es, sessionId) == kept + [es[m]];
        assert (kept + [es[m]])[..|kept|] == kept;
      } else {
        assert Only(es, sessionId) == kept;
      }
    }
  }

  /** Folding in two parts. */
  lemma {:induction false} FoldInParts(
      prior: Option<Snapshot>, es: seq<Notification>, more: seq<Notification>, sessionId: string)
    ensures Fold(prior, es + more, sessionId) == Fold(Fold(prior, es, sessionId), more, sessionId)
    decreases |more|
  {
    if more == [] {
      assert es + more == es;
      FoldIsMeaning(prior, es, sessionId);
    } else {
      var m := |more| - 1;
      assert Fold(Fold(prior, es, sessionId), more, sessionId)
          == Apply(Fold(Fold(prior, es, sessionId), more[..m], sessionId), more[m], sessionId);
      hide Apply, Fold;
      assert es + more == (es + more[..m]) + [more[m]];
      FoldInParts(prior, es, more[..m], sessionId);
      FoldExtended(prior, es + more[..m], more[m], sessionId);
    }
  }

  /** Every report the event could make is older than the snapshot it meets. */
  predicate Stale(event: Notification, sessionId: string, generation: nat) {
    Reading(event, sessionId).Some? ==> Reading(event, sessionId).value.state.generation < generation
  }

  lemma {:induction false} StaleRunIsIgnored(s: Snapshot, stale: seq<Notification>, sessionId: string)
    requires OfSession(Some(s), sessionId) == Some(s)
    requires forall e :: e in stale ==> Stale(e, sessionId, s.state.generation)
    ensures Fold(Some(s), stale, sessionId) == Some(s)
    decreases |stale|
  {
    if stale != [] {
      var m := |stale| - 1;
      hide Apply, Reading;
      assert Stale(stale[m], sessionId, s.state.generation);
      StaleRunIsIgnored(s, stale[..m], sessionId);
      ApplyRecordsReading(Some(s), stale[m], sessionId);
    }
  }

  /** Inserting events older than the current generation anywhere in a run leaves the final snapshot unchanged. */
  lemma StaleInsertionIsInvisible(
      prior: Option<Snapshot>, before: seq<Notification>, stale: seq<Notification>, after: seq<Notification>,
      sessionId: string)
    requires Fold(prior, before, sessionId).Some?
    requires forall e :: e in stale ==> Stale(e, sessionId, Fold(prior, before, sessionId).value.state.generation)
    ensures Fold(prior, before + stale + after, sessionId) == Fold(prior, before + after, sessionId)
  {
    var s := Fold(prior, before, sessionId);
    FoldIsMeaning(prior, before, sessionId);
    StaleRunIsIgnored(s.value, stale, sessionId);
    FoldInParts(prior, before, stale, sessionId);
    FoldInParts(prior, before + stale, after, sessionId);
    FoldInParts(prior, before, after, sessionId);
  }

  /** A snapshot of another session counts for nothing, and one of the own session is where the run begins. */
  lemma {:induction false} ForeignSnapshotIsForgotten(s: Snapshot, es: seq<Notification>, sessionId: string)
    ensures s.state.sessionId != sessionId ==> Fold(Some(s), es, sessionId) == Fold(None, es, sessionId)
    ensures s.state.sessionId == sessionId ==> Fold(Some(s), [], sessionId) == Some(s)
    decreases |es|
  {
    hide Apply;
    if es != [] {
      ForeignSnapshotIsForgotten(s, es[..|es| - 1], sessionId);
    }
  }
}
