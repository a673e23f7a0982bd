/** Which logs of accepted reports there are: exactly the ordered ones of readable reports, each of them written out. */
module ContextLogs {
  import opened Wrappers
  import opened Json
  import opened ContextWire
  import opened ContextReducer

  predicate IsReport(report: Report, state: ContextState) {
    match report
    case Reported(threshold) => threshold <= MAX_SAFE_INTEGER
    case Started(p) => p.generation == state.generation && p.threshold <= MAX_SAFE_INTEGER && IsLabel(p.trigger)
    case Completed(c) => IsCompaction(c)
    case Normalized(n) => IsNormalization(n)
  }

  predicate IsEntry(entry: Entry, sessionId: string) {
    entry.state.sessionId == sessionId && IsState(entry.state) && IsReport(entry.report, entry.state)
  }

  // ---------------------------------------------------------------- writing a report

  function NameOf(report: Report): string {
    match report
    case Reported(_) => STATE_REPORTED
    case Started(_) => COMPACTION_STARTED
    case Completed(_) => COMPACTION_COMPLETED
    case Normalized(_) => NORMALIZATION_REPORTED
  }

  function ParamOf(entry: Entry, key: string): Option<Json> {
    match key
    case "session_id" => Some(Str(entry.state.sessionId))
    case "context_state" => Some(Obj(EncodeState(entry.state)))
    case "threshold_tokens" =>
      (match entry.report
       case Reported(threshold) => Some(Integer(threshold))
       case Started(p) => Some(Integer(p.threshold))
       case _ => None)
    case "trigger" => if entry.report.Started? then Some(Str(entry.report.progress.trigger)) else None
    case "compaction" =>
      if entry.report.Completed? then Some(Obj(EncodeCompaction(entry.report.compaction))) else None
    case "normalization" =>
      if entry.report.Normalized? then Some(Obj(EncodeNormalization(entry.report.normalization))) else None
    case _ => None
  }

  const PARAMS: set<string> :=
    {"session_id", "context_state", "threshold_tokens", "trigger", "compaction", "normalization"}

  function Params(entry: Entry): (fields: map<string, Json>)
    ensures forall key :: key in PARAMS ==> Get(fields, key) == ParamOf(entry, key)
  {
    map key | key in PARAMS && ParamOf(entry, key).Some? :: ParamOf(entry, key).value
  }

  /** The notification that reports an entry. */
  function Written(entry: Entry): Notification {
    Notification(NameOf(entry.report), Obj(Params(entry)))
  }

  function WrittenAll(log: seq<Entry>): (es: seq<Notification>)
    ensures |es| == |log| && forall i :: 0 <= i < |log| ==> es[i] == Written(log[i])
  {
    seq(|log|, i requires 0 <= i < |log| => Written(log[i]))
  }

  lemma ParamsRead(entry: Entry)
    ensures var f := Params(entry);
            && Get(f, "session_id") == Some(Str(entry.state.sessionId))
            && Get(f, "context_state") == Some(Obj(EncodeState(entry.state)))
            && Get(f, "threshold_tokens") == ParamOf(entry, "threshold_tokens")
            && Get(f, "trigger") == ParamOf(entry, "trigger")
            && Get(f, "compaction") == ParamOf(entry, "compaction")
            && Get(f, "normalization") == ParamOf(entry, "normalization")
  {
    hide Params, EncodeState, EncodeCompaction, EncodeNormalization;
  }

  lemma ReportReadsBack(entry: Entry)
    requires IsReport(entry.report, entry.state)
    ensures ReportOf(NameOf(entry.report), Params(entry), entry.state) == Some(entry.report)
  {
    hide Params, EncodeState, EncodeCompaction, EncodeNormalization, ParseCompaction, ParseNormalization, IsCompaction,
      IsNormalization, Integer, Count;
    ParamsRead(entry);
    MethodsAreContextMethods();
    match entry.report
    case Reported(threshold) => IntegerIsCount(threshold);
    case Started(p) => IntegerIsCount(p.threshold);
    case Completed(c) => CompactionRoundTrip(c, None);
    case Normalized(n) => NormalizationRoundTrip(n, None);
  }

  lemma WrittenReads(entry: Entry, sessionId: string)
    requires IsEntry(entry, sessionId)
    ensures Reading(Written(entry), sessionId) == Some(entry)
  {
    hide Params, EncodeState, ParseContextState, ReportOf, IsState, IsReport;
    ParamsRead(entry);
    StateRoundTrip(entry.state, sessionId);
    ReportReadsBack(entry);
  }

  lemma ReadReportIsReport(name: string, params: map<string, Json>, state: ContextState)
    ensures ReportOf(name, params, state).Some? ==> IsReport(ReportOf(name, params, state).value, state)
  {
    hide ParseCompaction, ParseNormalization, IsCompaction, IsNormalization;
    CountIsSafe(Get(params, "threshold_tokens"));
    if ParseCompaction(Get(params, "compaction")).Some? {
      CompactionRoundTrip(ParseCompaction(Get(params, "compaction")).value, Get(params, "compaction"));
    }
    if ParseNormalization(Get(params, "normalization")).Some? {
      NormalizationRoundTrip(ParseNormalization(Get(params, "normalization")).value, Get(params, "normalization"));
    }
  }

  lemma ReadingIsEntry(event: Notification, sessionId: string)
    ensures Reading(event, sessionId).Some? ==> IsEntry(Reading(event, sessionId).value, sessionId)
  {
    hide ReportOf, ParseContextState, IsReport, IsState;
    if Reading(event, sessionId).Some? {
      var params := event.params.fields;
      ReadStateFits(Get(params, "context_state"), sessionId);
      ReadReportIsReport(event.name, params, ParseContextState(Get(params, "context_state"), sessionId).value);
    }
  }

  // ---------------------------------------------------------------- exactly the accepted logs

  /** Readable reports of the session whose generations never decrease, nor start below the earlier snapshot's. */
  ghost predicate IsLog(base: Option<Snapshot>, log: seq<Entry>, sessionId: string) {
    Ordered(base, log) && forall i :: 0 <= i < |log| ==> IsEntry(log[i], sessionId)
  }

  lemma {:induction false} AcceptedIsLog(prior: Option<Snapshot>, es: seq<Notification>, sessionId: string)
    ensures IsLog(OfSession(prior, sessionId), Accepted(prior, es, sessionId), sessionId)
    decreases |es|
  {
    AcceptedReportsAreOrdered(prior, es, sessionId);
    if es != [] {
      hide Reading, Ordered, IsEntry;
      AcceptedIsLog(prior, es[..|es| - 1], sessionId);
      ReadingIsEntry(es[|es| - 1], sessionId);
    }
  }

  lemma LogFront(base: Option<Snapshot>, log: seq<Entry>, sessionId: string)
    requires IsLog(base, log, sessionId) && log != []
    ensures var m := |log| - 1;
            && IsLog(base, log[..m], sessionId) && IsEntry(log[m], sessionId)
            && Fence(base, log[..m]) <= log[m].state.generation
            && log == log[..m] + [log[m]] && WrittenAll(log) == WrittenAll(log[..m]) + [Written(log[m])]
  {
    hide IsEntry, Written;
  }

  lemma AcceptedExtended(prior: Option<Snapshot>, es: seq<Notification>, entry: Entry, sessionId: string)
    requires IsEntry(entry, sessionId)
    requires Fence(OfSession(prior, sessionId), Accepted(prior, es, sessionId)) <= entry.state.generation
    ensures Accepted(prior, es + [Written(entry)], sessionId) == Accepted(prior, es, sessionId) + [entry]
  {
    hide Reading, IsEntry, Written, Fence;
    WrittenReads(entry, sessionId);
    assert (es + [Written(entry)])[..|es|] == es;
  }

  lemma {:induction false} WrittenLogIsAccepted(prior: Option<Snapshot>, log: seq<Entry>, sessionId: string)
    requires IsLog(OfSession(prior, sessionId), log, sessionId)
    ensures Accepted(prior, WrittenAll(log), sessionId) == log
    decreases |log|
  {
    if log == [] {
      assert WrittenAll(log) == [];
    } else {
      hide Accepted, IsLog, IsEntry, Written, Fence, WrittenAll;
      var m := |log| - 1;
      LogFront(OfSession(prior, sessionId), log, sessionId);
      WrittenLogIsAccepted(prior, log[..m], sessionId);
      AcceptedExtended(prior, WrittenAll(log[..m]), log[m], sessionId);
    }
  }

  /**
   * A log is what some run accepts if and only if it is an ordered log of readable reports; the run that writes its
   * entries out is one, and it ends in the log's meaning.
   */
  lemma AcceptedLogsExactly(prior: Option<Snapshot>, log: seq<Entry>, sessionId: string)
    ensures (exists es :: Accepted(prior, es, sessionId) == log) <==> IsLog(OfSession(prior, sessionId), log, sessionId)
    ensures IsLog(OfSession(prior, sessionId), log, sessionId) ==>
              Fold(prior, WrittenAll(log), sessionId) == Meaning(OfSession(prior, sessionId), log)
  {
    hide IsLog, Accepted, Fold, Meaning;
    forall es | Accepted(prior, es, sessionId) == log
      ensures IsLog(OfSession(prior, sessionId), log, sessionId)
    {
      AcceptedIsLog(prior, es, sessionId);
    }
    if IsLog(OfSession(prior, sessionId), log, sessionId) {
      WrittenLogIsAccepted(prior, log, sessionId);
      FoldIsMeaning(prior, WrittenAll(log), sessionId);
    }
  }
}
