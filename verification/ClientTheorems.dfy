/** Whole-run properties of the RPC client. */
module ClientTheorems {
  import opened Wrappers
  import opened Seqs
  import opened ClientModel
  import opened ClientInvariant
  import Decimal

  // ---------------------------------------------------------------- what steps leave alone

  /** Everything about requests, but for the reported errors. */
  ghost predicate SameRequests(s: State, t: State) {
    && t.settlements == s.settlements && t.marked == s.marked && t.pending == s.pending && t.timers == s.timers
    && t.issued == s.issued && t.next == s.next && t.outbox == s.outbox && t.absorbed == s.absorbed
  }

  ghost predicate SameConnections(s: State, t: State) {
    && t.socket == s.socket && t.status == s.status && t.handshakes == s.handshakes
    && t.connects == s.connects && t.closed == s.closed
  }

  lemma OpenAndConnectKeepRequests(s: State, attempt: Attempt, k: nat)
    ensures SameRequests(s, StepConnect(s, attempt))
    ensures k < |s.handshakes| ==> SameRequests(s, StepOpen(s, k))
  {
  }

  lemma FailuresKeepRequests(s: State, k: nat)
    requires k < |s.handshakes|
    ensures SameRequests(s, StepError(s, k)) && SameRequests(s, StepConnectTimeout(s, k))
  {
  }

  /** Connecting, opening, failing and timing out connections touches no request. */
  lemma ConnectionStepsKeepRequests(s: State, e: Event)
    requires Enabled(s, e) && (e.Connect? || e.Open? || e.Error? || e.ConnectTimeout?)
    ensures SameRequests(s, Step(s, e))
  {
    hide StepRequest, StepRequestTimeout, StepMessage, StepClose, StepDisconnect, StepConnect, StepOpen, StepError,
      StepConnectTimeout;
    match e
    case Connect(attempt) => OpenAndConnectKeepRequests(s, attempt, 0);
    case Open(k) => OpenAndConnectKeepRequests(s, BadUrl, k);
    case Error(k) => FailuresKeepRequests(s, k);
    case ConnectTimeout(k) => FailuresKeepRequests(s, k);
  }

  lemma RepliesKeepConnections(s: State, k: nat, frame: Frame)
    ensures SameConnections(s, StepMessage(s, k, frame))
  {
    hide LastN, Without, Absorbs;
  }

  /** Requests, replies and request timers touch no connection. */
  lemma RequestStepsKeepConnections(s: State, e: Event)
    requires Enabled(s, e) && (e.Request? || e.RequestTimeout? || e.Message?)
    ensures SameConnections(s, Step(s, e))
  {
    hide Without, StepMessage, StepClose, StepDisconnect, StepConnect, StepOpen, StepError, StepConnectTimeout;
    if e.Message? {
      RepliesKeepConnections(s, e.socket, e.frame);
    }
  }

  // ---------------------------------------------------------------- requests

  /**
   * In every run each issued request has been resolved or rejected at most once; it has not been settled
   * exactly while it is pending, and exactly then its timer is live. Without a socket nothing is pending,
   * also right after a connect timeout, which drops the socket without rejecting anything.
   */
  lemma RequestsSettleOnce(es: seq<Event>, id: string)
    requires Legal(es) && id in Run(es).issued
    ensures var s := Run(es);
            && multiset(Ids(s.settlements))[id] + multiset(s.pending)[id] == 1
            && (id in s.pending <==> id in s.timers)
            && (id in s.pending ==> s.socket == Some(s.issued[id]))
            && (s.socket.None? ==> s.pending == [] && s.timers == map[])
  {
    RunKeepsInv(es);
    var s := Run(es);
    DistinctCounts(Ids(s.settlements), id);
    DistinctCounts(s.pending, id);
    assert id in Elems(Ids(s.settlements)) <==> id !in Elems(s.pending);
  }

  /** Requests are conserved: everything issued is either settled or still pending. */
  lemma RequestsAreConserved(es: seq<Event>)
    requires Legal(es)
    ensures var s := Run(es);
            |s.issued| == |s.settlements| + |s.pending|
  {
    RunKeepsInv(es);
    hide Run, Legal;
    var s := Run(es);
    DistinctSize(Ids(s.settlements));
    DistinctSize(s.pending);
    assert s.issued.Keys == Elems(Ids(s.settlements)) + Elems(s.pending);
    assert |s.issued| == |s.issued.Keys|;
  }

  ghost predicate IsNumeralBelow(id: string, limit: nat) {
    exists n :: 1 <= n < limit && id == Decimal.Print(n)
  }

  /** The ids in use are the numerals from 1 up to the next number, without gaps. */
  lemma {:induction false} IdsAreConsecutive(es: seq<Event>, id: string)
    requires Legal(es)
    ensures Run(es).next >= 1 && (id in Run(es).issued <==> IsNumeralBelow(id, Run(es).next))
    decreases |es|
  {
    hide Step, Decimal.Print;
    if es != [] {
      var m := |es| - 1;
      var n := Run(es[..m]).next;
      IdsAreConsecutive(es[..m], id);
      NumbersGrow(Run(es[..m]), es[m]);
      assert IsNumeralBelow(id, n + 1) <==> IsNumeralBelow(id, n) || id == Decimal.Print(n);
    }
  }

  lemma NumbersGrow(s: State, e: Event)
    requires Enabled(s, e)
    ensures var t := Step(s, e);
            || (t.next == s.next && t.issued.Keys == s.issued.Keys)
            || (t.next == s.next + 1 && t.issued.Keys == s.issued.Keys + {Decimal.Print(s.next)})
  {
    hide LastN, Without, Elems, Absorbs, StepConnect, StepOpen, StepError, StepConnectTimeout;
    if e.Connect? || e.Open? || e.Error? || e.ConnectTimeout? {
      ConnectionStepsKeepRequests(s, e);
    }
  }

  /** The socket whose callback an event is. */
  function SocketOf(e: Event): Option<nat> {
    match e
    case Open(k) => Some(k)
    case Error(k) => Some(k)
    case Close(k) => Some(k)
    case ConnectTimeout(k) => Some(k)
    case Message(k, _) => Some(k)
    case _ => None
  }

  /**
   * In any state a callback of a replaced socket only ends that socket's own handshake, rejecting its connect
   * promise if that is still open: the current socket, the status, every request, its timer and the reported
   * errors stay as they are, and its messages do nothing at all.
   */
  lemma ReplacedSocketsAreInert(s: State, e: Event, k: nat)
    requires Enabled(s, e) && SocketOf(e) == Some(k) && s.socket != Some(k)
    ensures Step(s, e) ==
              if e.Message? then s
              else s.(handshakes := s.handshakes[k := Handshake(true, false)],
                      connects := s.connects + if s.handshakes[k].settled then [] else [ConnectOutcome(k, false)])
  {
  }

  /**
   * In state `s` the event `e` is what settles `r`: the reply to a request pending on the socket it came from, with
   * the reply's own value or error; the request's own timer, with the method it was created for; the failed sending
   * of the request with the next id; or the loss of the socket a pending request was sent on.
   */
  ghost predicate Causes(s: State, e: Event, r: Settlement) {
    match r.outcome
    case Answered(result) =>
      r.id in s.pending && r.via == s.socket && s.socket.Some?
      && e == Message(s.socket.value, SuccessFrame(r.id, result))
    case Refused(error) =>
      r.id in s.pending && r.via == s.socket && s.socket.Some?
      && e == Message(s.socket.value, FailureFrame(Some(r.id), error))
    case TimedOut(name) => r.id in s.pending && r.id in s.timers && s.timers[r.id] == name && e == RequestTimeout(r.id)
    case SendFailed =>
      r.id == Decimal.Print(s.next) && s.status == Connected && e.Request? && e.ready && !e.sent
    case ConnectionLost =>
      r.id in s.pending && r.id in s.issued && (e.Disconnect? || e == Close(s.issued[r.id]))
  }

  lemma ReplyCauses(s: State, k: nat, frame: Frame, r: Settlement)
    requires r in StepMessage(s, k, frame).settlements && r !in s.settlements
    ensures Causes(s, Message(k, frame), r)
  {
  }

  lemma TimerCauses(s: State, id: string, r: Settlement)
    requires Inv(s) && id in s.timers && r in StepRequestTimeout(s, id).settlements && r !in s.settlements
    ensures Causes(s, RequestTimeout(id), r)
  {
    assert id in Elems(s.pending);
  }

  lemma LossCauses(s: State, r: Settlement)
    requires Inv(s) && r in RejectPending(s).settlements && r !in s.settlements
    ensures r.outcome == ConnectionLost && r.id in s.pending && r.id in s.issued && s.socket == Some(s.issued[r.id])
  {
    assert r in Losses(s.pending);
    assert r.id in Elems(s.pending);
  }

  lemma StepCauses(s: State, e: Event, r: Settlement)
    requires Inv(s) && Enabled(s, e) && r in Step(s, e).settlements && r !in s.settlements
    ensures Causes(s, e, r)
  {
    hide Inv, StepConnect, StepOpen, StepError, StepConnectTimeout, StepMessage, StepRequestTimeout, RejectPending;
    match e
    case Message(k, frame) => ReplyCauses(s, k, frame, r);
    case RequestTimeout(id) => TimerCauses(s, id, r);
    case Request(_, _, _) =>
    case Close(k) =>
      RejectsTheSame(s, k);
      LossCauses(s, r);
    case Disconnect(_) => LossCauses(s, r);
    case _ => ConnectionStepsKeepRequests(s, e);
  }

  lemma RejectsTheSame(s: State, k: nat)
    requires k < |s.handshakes|
    ensures StepClose(s, k).settlements == if s.socket == Some(k) then RejectPending(s).settlements else s.settlements
  {
  }

  /** Every settlement in a run is made by one event of the run, in a state where it was still open, that fits it. */
  lemma {:induction false} SettlementsHaveCauses(es: seq<Event>, r: Settlement) returns (i: nat)
    requires Legal(es) && r in Run(es).settlements
    ensures i < |es| && Legal(es[..i]) && Enabled(Run(es[..i]), es[i])
    ensures r !in Run(es[..i]).settlements && r in Step(Run(es[..i]), es[i]).settlements
    ensures Causes(Run(es[..i]), es[i], r)
    decreases |es|
  {
    hide Step, Causes, Enabled;
    var m := |es| - 1;
    if r in Run(es[..m]).settlements {
      i := SettlementsHaveCauses(es[..m], r);
      assert es[..m][..i] == es[..i];
    } else {
      RunKeepsInv(es[..m]);
      StepCauses(Run(es[..m]), es[m], r);
      i := m;
    }
  }

  predicate EndsWait(s: State, e: Event, id: string) {
    || e == RequestTimeout(id) || e.Disconnect?
    || (SocketOf(e) == s.socket && (e.Close? || (e.Message? && RepliesTo(e.frame, id))))
  }

  lemma ConnectionStepsKeepSettledSocket(s: State, e: Event, k: nat)
    requires Enabled(s, e) && (e.Connect? || e.Open? || e.Error? || e.ConnectTimeout?)
    requires s.socket == Some(k) && k < |s.handshakes| && s.handshakes[k] == Handshake(true, false)
    ensures Step(s, e).socket == s.socket
  {
    hide StepRequest, StepRequestTimeout, StepMessage, StepClose, StepDisconnect;
  }

  lemma StepEndsWait(s: State, e: Event, id: string, k: nat)
    requires Enabled(s, e) && id in s.pending && s.socket == Some(k)
    requires k < |s.handshakes| && s.handshakes[k] == Handshake(true, false)
    ensures id !in Step(s, e).pending <==> EndsWait(s, e, id)
    ensures id in Step(s, e).pending ==> Step(s, e).socket == s.socket
  {
    hide StepConnect, StepOpen, StepError, StepConnectTimeout;
    if e.Connect? || e.Open? || e.Error? || e.ConnectTimeout? {
      ConnectionStepsKeepRequests(s, e);
      ConnectionStepsKeepSettledSocket(s, e, k);
    }
  }

  /**
   * A pending request stops waiting exactly when its reply arrives on the current socket, its timer fires, the
   * current socket closes or the client disconnects. In particular the connect timeout, which drops the socket
   * without rejecting anything, never strands one.
   */
  lemma PendingEndsExactlyWhen(es: seq<Event>, e: Event, id: string)
    requires Legal(es) && Enabled(Run(es), e) && id in Run(es).pending
    ensures id !in Step(Run(es), e).pending <==> EndsWait(Run(es), e, id)
    ensures id in Step(Run(es), e).pending ==> Step(Run(es), e).socket == Run(es).socket
  {
    RunKeepsInv(es);
    hide Step, EndsWait, Run, Legal, Enabled;
    StepEndsWait(Run(es), e, id, Run(es).socket.value);
  }

  /** A reply settles only a request that was sent on the socket the reply came from. */
  lemma RepliesComeFromTheSendingSocket(es: seq<Event>, r: Settlement)
    requires Legal(es) && r in Run(es).settlements && (r.outcome.Answered? || r.outcome.Refused?)
    ensures r.id in Run(es).issued && r.via == Some(Run(es).issued[r.id])
  {
    RunKeepsInv(es);
    var i := SettlementsHaveCauses(es, r);
  }

  // ---------------------------------------------------------------- late replies

  predicate RetiresTheId(outcome: Outcome) { outcome.TimedOut? || outcome.ConnectionLost? }

  /** The ids whose promise was rejected by a timeout or a lost connection, in the order of rejection. */
  function Retired(log: seq<Settlement>): seq<string> {
    if log == [] then []
    else
      var m := |log| - 1;
      Retired(log[..m]) + if RetiresTheId(log[m].outcome) then [log[m].id] else []
  }

  lemma RetiredWithOne(log: seq<Settlement>, r: Settlement)
    ensures Retired(log + [r]) == Retired(log) + if RetiresTheId(r.outcome) then [r.id] else []
  {
    assert (log + [r])[..|log|] == log;
  }

  lemma {:induction false} RetiredWithLosses(log: seq<Settlement>, ids: seq<string>)
    ensures Retired(log + Losses(ids)) == Retired(log) + ids
    decreases |ids|
  {
    hide Retired;
    if ids == [] {
      assert log + Losses(ids) == log;
    } else {
      var m := |ids| - 1;
      var front, last := log + Losses(ids[..m]), Settlement(ids[m], ConnectionLost, None);
      RetiredWithLosses(log, ids[..m]);
      RetiredWithOne(front, last);
      assert log + Losses(ids) == front + [last];
    }
  }

  lemma StepRetires(s: State, e: Event)
    requires Enabled(s, e) && s.marked == Retired(s.settlements)
    ensures Step(s, e).marked == Retired(Step(s, e).settlements)
  {
    hide Retired, LastN, Without, Elems, Absorbs, StepConnect, StepOpen, StepError, StepConnectTimeout;
    if e.Connect? || e.Open? || e.Error? || e.ConnectTimeout? {
      ConnectionStepsKeepRequests(s, e);
    }
    var t := Step(s, e);
    RetiredWithLosses(s.settlements, s.pending);
    if t.settlements != s.settlements && |t.settlements| == |s.settlements| + 1 {
      RetiredWithOne(s.settlements, t.settlements[|s.settlements|]);
    }
  }

  /** The history behind the window is the history of rejections: exactly the timed-out and lost requests, in order. */
  lemma {:induction false} HistoryIsTheRejections(es: seq<Event>)
    requires Legal(es)
    ensures Run(es).marked == Retired(Run(es).settlements)
    decreases |es|
  {
    if es != [] {
      var m := |es| - 1;
      HistoryIsTheRejections(es[..m]);
      StepRetires(Run(es[..m]), es[m]);
    }
  }

  predicate RepliesTo(frame: Frame, id: string) {
    (frame.SuccessFrame? && frame.replyTo == id) || (frame.FailureFrame? && frame.failed == Some(id))
  }

  /**
   * A reply that arrives on the current socket for a retired request is swallowed if and only if fewer than
   * 128 requests were retired after it and none of its replies was swallowed before; otherwise it is reported
   * as unknown. Either way nothing else changes.
   */
  lemma LateReply(es: seq<Event>, k: nat, frame: Frame, p: nat)
    requires Legal(es) && Run(es).socket == Some(k) && p < |Run(es).marked|
    requires RepliesTo(frame, Run(es).marked[p])
    ensures k < |Run(es).handshakes|
    ensures var s := Run(es);
            var id := s.marked[p];
            Step(s, Message(k, frame)) ==
              if |s.marked| - 1 - p < 128 && id !in s.absorbed
              then s.(absorbed := s.absorbed + {id})
              else s.(errors := s.errors + [UnknownRequest(id)])
  {
    RunKeepsInv(es);
    var s := Run(es);
    var id := s.marked[p];
    assert id in Elems(s.marked) && id in Elems(Ids(s.settlements));
    assert id !in Elems(s.pending);
    InWindow(s.marked, p, WINDOW);
  }

  /** In a duplicate-free history, exactly the last `n` entries are in the window. */
  lemma InWindow(history: seq<string>, p: nat, n: nat)
    requires p < |history| && Distinct(history)
    ensures history[p] in LastN(history, n) <==> |history| - 1 - p < n
  {
  }

  /** A reply to an id that is neither pending nor retired is reported and changes nothing else. */
  lemma StrayReply(s: State, k: nat, frame: Frame, id: string)
    requires Inv(s) && s.socket == Some(k) && RepliesTo(frame, id)
    requires id !in s.pending && id !in s.marked
    ensures k < |s.handshakes|
    ensures Step(s, Message(k, frame)) == s.(errors := s.errors + [UnknownRequest(id)])
  {
  }

  /** `id` was retired, fewer than 128 ids were retired after it, and no late reply to it was swallowed yet. */
  ghost predicate StillRemembered(s: State, id: string) {
    id !in s.absorbed && exists p :: 0 <= p < |s.marked| && s.marked[p] == id && |s.marked| - 1 - p < 128
  }

  function OutcomeOf(frame: Frame): Outcome
    requires frame.SuccessFrame? || frame.FailureFrame?
  {
    if frame.SuccessFrame? then Answered(frame.result) else Refused(frame.error)
  }

  /**
   * What any reply on the current socket does: it settles its request while that is pending; otherwise it is swallowed
   * if the request is still remembered, and reported as unknown if not. Nothing else changes.
   */
  lemma EveryReplyHasOneFate(es: seq<Event>, k: nat, frame: Frame, id: string)
    requires Legal(es) && Run(es).socket == Some(k) && RepliesTo(frame, id)
    ensures k < |Run(es).handshakes|
    ensures var s, t := Run(es), Step(Run(es), Message(k, frame));
            if id in s.pending then
              && !StillRemembered(s, id)
              && t == s.(pending := t.pending, timers := s.timers - {id},
                         settlements := s.settlements + [Settlement(id, OutcomeOf(frame), Some(k))])
              && id !in t.pending && forall x :: x in s.pending && x != id ==> x in t.pending
            else if StillRemembered(s, id) then t == s.(absorbed := s.absorbed + {id})
            else t == s.(errors := s.errors + [UnknownRequest(id)])
  {
    RunKeepsInv(es);
    var s := Run(es);
    hide Run, Legal;
    if id in s.pending {
      PendingIsNotRetired(s, id);
    } else if id in s.marked {
      var p :| 0 <= p < |s.marked| && s.marked[p] == id;
      LateReply(es, k, frame, p);
    } else {
      StrayReply(s, k, frame, id);
    }
  }

  lemma PendingIsNotRetired(s: State, id: string)
    requires Inv(s) && id in s.pending
    ensures id !in s.marked
  {
    assert id in Elems(s.pending);
  }

  lemma PrefixOfLegal(es: seq<Event>, rest: seq<Event>)
    requires Legal(es + rest)
    ensures Legal(es)
    decreases |rest|
  {
    if rest == [] {
      assert es + rest == es;
    } else {
      var m := |rest| - 1;
      assert (es + rest)[..|es + rest| - 1] == es + rest[..m];
      PrefixOfLegal(es, rest[..m]);
    }
  }

  lemma StepKeepsAbsorbed(s: State, e: Event)
    requires Enabled(s, e)
    ensures s.absorbed <= Step(s, e).absorbed
  {
    hide LastN, Without, Absorbs, StepConnect, StepOpen, StepError, StepConnectTimeout;
    if e.Connect? || e.Open? || e.Error? || e.ConnectTimeout? {
      ConnectionStepsKeepRequests(s, e);
    }
  }

  lemma {:induction false} AbsorbedStays(es: seq<Event>, rest: seq<Event>)
    requires Legal(es + rest) && Legal(es)
    ensures Run(es).absorbed <= Run(es + rest).absorbed
    decreases |rest|
  {
    if rest == [] {
      assert es + rest == es;
    } else {
      hide Step, Enabled;
      var m := |rest| - 1;
      assert (es + rest)[..|es + rest| - 1] == es + rest[..m];
      AbsorbedStays(es, rest[..m]);
      StepKeepsAbsorbed(Run(es + rest[..m]), rest[m]);
    }
  }

  /** A retired request swallows one late reply in its whole life: whatever happens in between, the next is reported. */
  lemma LateReplySwallowedOnce(es: seq<Event>, rest: seq<Event>, id: string, k: nat, frame: Frame)
    requires Legal(es + rest)
    requires Run(es + rest).socket == Some(k) && RepliesTo(frame, id)
    ensures k < |Run(es + rest).handshakes|
    ensures Legal(es)
    ensures var s := Run(es + rest);
            id in Run(es).absorbed ==> Step(s, Message(k, frame)) == s.(errors := s.errors + [UnknownRequest(id)])
  {
    PrefixOfLegal(es, rest);
    RunKeepsInv(es + rest);
    if id in Run(es).absorbed {
      SwallowedIsReported(es, rest, id, k, frame);
    }
  }

  lemma SwallowedIsReported(es: seq<Event>, rest: seq<Event>, id: string, k: nat, frame: Frame)
    requires Legal(es) && Legal(es + rest) && id in Run(es).absorbed
    requires Run(es + rest).socket == Some(k) && RepliesTo(frame, id)
    ensures k < |Run(es + rest).handshakes|
    ensures var s := Run(es + rest);
            Step(s, Message(k, frame)) == s.(errors := s.errors + [UnknownRequest(id)])
  {
    AbsorbedStays(es, rest);
    var s := Run(es + rest);
    RunKeepsInv(es + rest);
    assert id in Elems(s.marked);
    var p :| 0 <= p < |s.marked| && s.marked[p] == id;
    LateReply(es + rest, k, frame, p);
  }

  // ---------------------------------------------------------------- connections

  /** Every connect promise is called at most once, and its timer is live exactly until then. */
  lemma ConnectsSettleOnce(es: seq<Event>, k: nat)
    requires Legal(es) && k < |Run(es).handshakes|
    ensures var s := Run(es);
            && multiset(Sockets(s.connects))[k] == (if s.handshakes[k].timer then 0 else 1)
            && s.handshakes[k].timer == !s.handshakes[k].settled
  {
    RunKeepsInv(es);
    DistinctCounts(Sockets(Run(es).connects), k);
  }

  /** A connect promise is resolved by its socket's own open while current, and rejected by any other own callback. */
  predicate CausesConnect(s: State, e: Event, r: ConnectOutcome) {
    && SocketOf(e) == Some(r.socket) && !e.Message?
    && (r.ok <==> e.Open? && s.socket == Some(r.socket))
  }

  lemma OpenCallsConnect(s: State, k: nat, r: ConnectOutcome)
    requires k < |s.handshakes| && r in StepOpen(s, k).connects && r !in s.connects
    ensures r == ConnectOutcome(k, s.socket == Some(k)) && !s.handshakes[k].settled
  {
  }

  lemma FailureCallsConnect(s: State, e: Event, r: ConnectOutcome)
    requires Enabled(s, e) && (e.Error? || e.ConnectTimeout? || e.Close?)
    requires r in Step(s, e).connects && r !in s.connects
    ensures SocketOf(e) == Some(r.socket) && !r.ok && !s.handshakes[r.socket].settled
  {
    hide StepRequest, StepRequestTimeout, StepMessage, StepConnect, StepOpen, StepDisconnect, Losses, Elems;
  }

  lemma CallsKeepConnects(s: State, e: Event)
    requires Enabled(s, e) && (e.Connect? || e.Disconnect?)
    ensures Step(s, e).connects == s.connects
  {
    hide StepRequest, StepRequestTimeout, StepMessage, StepOpen, StepError, StepConnectTimeout, StepClose;
  }

  lemma StepCausesConnect(s: State, e: Event, r: ConnectOutcome)
    requires Enabled(s, e) && r in Step(s, e).connects && r !in s.connects
    ensures CausesConnect(s, e, r)
    ensures r.socket < |s.handshakes| && !s.handshakes[r.socket].settled
  {
    hide StepRequest, StepRequestTimeout, StepMessage, StepConnect, StepOpen, StepError, StepConnectTimeout, StepClose,
      StepDisconnect;
    if e.Open? {
      OpenCallsConnect(s, e.socket, r);
    } else if e.Error? || e.ConnectTimeout? || e.Close? {
      FailureCallsConnect(s, e, r);
    } else if e.Connect? || e.Disconnect? {
      CallsKeepConnects(s, e);
    } else {
      RequestStepsKeepConnections(s, e);
    }
  }

  /** The callbacks socket `k` has made that end or open a connection, in order. */
  function HandshakeEvents(es: seq<Event>, k: nat): seq<Event> {
    if es == [] then []
    else
      var m := |es| - 1;
      HandshakeEvents(es[..m], k) + if !es[m].Message? && SocketOf(es[m]) == Some(k) then [es[m]] else []
  }

  lemma OwnCallbackSettles(s: State, e: Event, k: nat)
    requires Enabled(s, e) && SocketOf(e) == Some(k) && !e.Message?
    ensures k < |Step(s, e).handshakes| && Step(s, e).handshakes[k].settled
  {
    hide StepRequest, StepRequestTimeout, StepMessage, StepConnect, StepDisconnect;
  }

  lemma OtherCallbacksKeepHandshake(s: State, e: Event, k: nat)
    requires Enabled(s, e) && k < |s.handshakes| && SocketOf(e) != Some(k) && !e.Message?
    ensures k < |Step(s, e).handshakes| && Step(s, e).handshakes[k] == s.handshakes[k]
  {
    hide StepRequest, StepRequestTimeout, StepMessage, Losses, Elems;
    if e.Request? || e.RequestTimeout? {
      RequestStepsKeepConnections(s, e);
    }
  }

  lemma StepSettles(s: State, e: Event, k: nat)
    requires Enabled(s, e) && k < |s.handshakes|
    ensures k < |Step(s, e).handshakes|
    ensures Step(s, e).handshakes[k].settled <==> s.handshakes[k].settled || (SocketOf(e) == Some(k) && !e.Message?)
  {
    hide Step;
    if e.Message? {
      RequestStepsKeepConnections(s, e);
    } else if SocketOf(e) == Some(k) {
      OwnCallbackSettles(s, e, k);
    } else {
      OtherCallbacksKeepHandshake(s, e, k);
    }
  }

  lemma NewSocketIsUnsettled(s: State, e: Event, k: nat)
    requires Enabled(s, e) && |s.handshakes| <= k < |Step(s, e).handshakes|
    ensures !Step(s, e).handshakes[k].settled && SocketOf(e) != Some(k)
  {
    hide StepRequest, StepRequestTimeout, StepMessage;
    if e.Request? || e.RequestTimeout? || e.Message? {
      RequestStepsKeepConnections(s, e);
    }
  }

  /** The connect promise of any socket, current or replaced, is settled exactly once it has made such a callback. */
  lemma {:induction false} SettledAfterFirstCallback(es: seq<Event>, k: nat)
    requires Legal(es) && k < |Run(es).handshakes|
    ensures Run(es).handshakes[k].settled <==> HandshakeEvents(es, k) != []
    decreases |es|
  {
    assert Run([]).handshakes == [];
    hide Step, Enabled, Run, Legal;
    var m := |es| - 1;
    LastStep(es);
    if k < |Run(es[..m]).handshakes| {
      SettledAfterFirstCallback(es[..m], k);
      StepSettles(Run(es[..m]), es[m], k);
    } else {
      NewSocketIsUnsettled(Run(es[..m]), es[m], k);
      NoEventsBeforeCreation(es[..m], k);
    }
  }

  /** Every connect promise is called by its socket's first such callback, which decides how. */
  lemma {:induction false} ConnectOutcomesHaveCauses(es: seq<Event>, r: ConnectOutcome) returns (i: nat)
    requires Legal(es) && r in Run(es).connects
    ensures i < |es| && Legal(es[..i]) && CausesConnect(Run(es[..i]), es[i], r)
    ensures HandshakeEvents(es[..i], r.socket) == []
    decreases |es|
  {
    hide Step, Enabled, CausesConnect;
    var m := |es| - 1;
    if r in Run(es[..m]).connects {
      i := ConnectOutcomesHaveCauses(es[..m], r);
      assert es[..m][..i] == es[..i];
    } else {
      StepCausesConnect(Run(es[..m]), es[m], r);
      SettledAfterFirstCallback(es[..m], r.socket);
      i := m;
    }
  }

  /** The socket opened before anything else happened to it, and has not failed since. */
  ghost predicate OpenedCleanly(hs: seq<Event>) {
    hs != [] && hs[0].Open? && forall i :: 0 <= i < |hs| ==> !hs[i].Error?
  }

  /** What the callbacks of the current socket say the status should be. */
  ghost function StatusOf(hs: seq<Event>): Status {
    if hs == [] then Connecting else if OpenedCleanly(hs) then Connected else Failed
  }

  /**
   * While there is a socket, its own callbacks alone decide the status; and the status reads `connected` exactly
   * while the current socket has opened without a later error.
   */
  lemma ConnectedMeansOpenedCleanly(es: seq<Event>)
    requires Legal(es)
    ensures var s := Run(es);
            && (s.socket.Some? ==> s.status == StatusOf(HandshakeEvents(es, s.socket.value)))
            && (s.status == Connected <==> s.socket.Some? && OpenedCleanly(HandshakeEvents(es, s.socket.value)))
  {
    RunKeepsInv(es);
    StatusTracksEvents(es);
  }

  /**
   * A request is issued exactly when the current socket opened cleanly and is still ready; it then waits on that
   * socket under the next free id, unless sending it threw, which settles it at once and leaves nothing to wait for.
   */
  lemma RequestIsIssuedExactlyWhenOpen(es: seq<Event>, call: Call, ready: bool, sent: bool)
    requires Legal(es)
    ensures var s, t, id := Run(es), Step(Run(es), Request(call, ready, sent)), Decimal.Print(Run(es).next);
            && (t != s <==> s.socket.Some? && ready && OpenedCleanly(HandshakeEvents(es, s.socket.value)))
            && (t != s ==>
                  && id !in s.issued && id in t.issued && t.issued[id] == s.socket.value
                  && t.pending == (if sent then s.pending + [id] else s.pending)
                  && t.timers == (if sent then s.timers[id := call.name] else s.timers)
                  && t.outbox == s.outbox + (if sent then [Sent(s.socket.value, id, call)] else [])
                  && t.settlements == s.settlements + (if sent then [] else [Settlement(id, SendFailed, None)]))
  {
    RunKeepsInv(es);
    ConnectedMeansOpenedCleanly(es);
  }

  /** Losing the current socket leaves `disconnected` only when it had opened cleanly or the caller asked for it. */
  lemma StatusAfterLoss(es: seq<Event>, e: Event)
    requires Legal(es) && Enabled(Run(es), e) && Run(es).socket.Some?
    requires e.Disconnect? || e == Close(Run(es).socket.value) || e == ConnectTimeout(Run(es).socket.value)
    ensures Step(Run(es), e).socket == None
    ensures Step(Run(es), e).status ==
              if e.Disconnect? || OpenedCleanly(HandshakeEvents(es, Run(es).socket.value)) then Disconnected else Failed
  {
    RunKeepsInv(es);
    StatusTracksEvents(es);
    LossStatus(Run(es), e);
  }

  lemma LossStatus(s: State, e: Event)
    requires Inv(s) && Enabled(s, e) && s.socket.Some?
    requires e.Disconnect? || e == Close(s.socket.value) || e == ConnectTimeout(s.socket.value)
    requires s.status in {Connecting, Connected, Failed}
    requires s.status == Connecting <==> !s.handshakes[s.socket.value].settled
    ensures Step(s, e).socket == None
    ensures Step(s, e).status == if e.Disconnect? || s.status == Connected then Disconnected else Failed
  {
    hide StepRequest, StepRequestTimeout, StepMessage;
    if e.Request? || e.RequestTimeout? || e.Message? {
      RequestStepsKeepConnections(s, e);
    }
  }

  // ---------------------------------------------------------------- connecting without a socket

  /** Event `i` was a connect without a socket whose URL could not be built, and nothing was attempted since. */
  ghost predicate FailedUrlSince(es: seq<Event>, i: nat)
    requires Legal(es)
  {
    && i < |es| && Legal(es[..i])
    && es[i] == Connect(BadUrl) && Run(es[..i]).socket.None?
    && forall j :: i < j < |es| ==> !es[j].Connect? && !es[j].Disconnect?
  }

  lemma LastStep(es: seq<Event>)
    requires Legal(es) && es != []
    ensures var m := |es| - 1;
            && Legal(es[..m]) && Enabled(Run(es[..m]), es[m]) && Run(es) == Step(Run(es[..m]), es[m])
  {
    hide Step, Enabled;
  }

  lemma FailedUrlStays(es: seq<Event>, i: nat)
    requires Legal(es) && i < |es| - 1 && Legal(es[..|es| - 1])
    ensures var m := |es| - 1;
            FailedUrlSince(es, i) <==> FailedUrlSince(es[..m], i) && !es[m].Connect? && !es[m].Disconnect?
  {
    hide Step, Enabled, Run, Legal;
    var m := |es| - 1;
    assert es[..m][..i] == es[..i];
    assert forall j :: i < j < m ==> es[..m][j] == es[j];
  }

  lemma {:induction false} StuckHasCause(es: seq<Event>) returns (i: nat)
    requires Legal(es) && Run(es).socket.None? && Run(es).status == Connecting
    ensures FailedUrlSince(es, i)
    decreases |es|
  {
    assert Run([]).status == Idle;
    hide Step, Enabled, Run, Legal, Inv;
    var m := |es| - 1;
    LastStep(es);
    RunKeepsInv(es[..m]);
    StepIntoStuck(Run(es[..m]), es[m]);
    if es[m] == Connect(BadUrl) {
      i := m;
    } else {
      hide FailedUrlSince;
      i := StuckHasCause(es[..m]);
      FailedUrlIsEarlier(es[..m], i);
      FailedUrlStays(es, i);
    }
  }

  lemma FailedUrlIsEarlier(es: seq<Event>, i: nat)
    requires Legal(es) && FailedUrlSince(es, i)
    ensures i < |es|
  {
  }

  lemma {:induction false} FailedUrlSticks(es: seq<Event>, i: nat)
    requires Legal(es) && FailedUrlSince(es, i)
    ensures Run(es).socket.None? && Run(es).status == Connecting
    decreases |es|
  {
    hide Step, Enabled, Run, Legal, Inv;
    var m := |es| - 1;
    LastStep(es);
    RunKeepsInv(es[..m]);
    StepIntoStuck(Run(es[..m]), es[m]);
    if i < m {
      FailedUrlStays(es, i);
      FailedUrlSticks(es[..m], i);
    }
  }

  /** `connecting` without a socket is reached exactly by a connect whose URL could not be built. */
  lemma StuckExactlyAfterBadUrl(es: seq<Event>)
    requires Legal(es)
    ensures Run(es).socket.None? && Run(es).status == Connecting <==> exists i :: FailedUrlSince(es, i)
  {
    hide Run, Legal, FailedUrlSince;
    if Run(es).socket.None? && Run(es).status == Connecting {
      var i := StuckHasCause(es);
    }
    forall i | FailedUrlSince(es, i)
      ensures Run(es).socket.None? && Run(es).status == Connecting
    {
      FailedUrlSticks(es, i);
    }
  }

  lemma StepIntoStuck(s: State, e: Event)
    requires Inv(s) && Enabled(s, e)
    ensures var t := Step(s, e);
            t.socket.None? && t.status == Connecting <==>
              s.socket.None? && (e == Connect(BadUrl)
                                 || (s.status == Connecting && !e.Connect? && !e.Disconnect?))
  {
    hide StepRequest, StepRequestTimeout, StepMessage;
    if e.Request? || e.RequestTimeout? || e.Message? {
      RequestStepsKeepConnections(s, e);
    }
  }

  /** The shortest such run. */
  lemma BadUrlExample()
    ensures var es := [Connect(BadUrl)];
            Legal(es) && Run(es).status == Connecting && Run(es).socket == None && Run(es).handshakes == []
  {
    var es := [Connect(BadUrl)];
    assert es[..0] == [] && Run([]) == INITIAL;
    assert Run(es) == Step(INITIAL, es[0]);
  }

  /** The options are fixed when the client is made, so either every connect of a run can build the URL or none can. */
  predicate OneUrl(es: seq<Event>, builds: bool) {
    forall i :: 0 <= i < |es| && es[i].Connect? ==> (es[i].attempt.BadUrl? <==> !builds)
  }

  /** The status left by the last connect or disconnect. */
  function StatusWithoutUrl(es: seq<Event>): Status {
    if es == [] then Idle
    else
      var m := |es| - 1;
      if es[m].Connect? then Connecting else if es[m].Disconnect? then Disconnected else StatusWithoutUrl(es[..m])
  }

  /** Without a socket, a handshake or a request, only a connect or a disconnect does anything. */
  ghost predicate NothingBegun(s: State) {
    && s.socket.None? && s.handshakes == [] && s.connects == [] && s.closed == []
    && s.issued == map[] && s.pending == [] && s.timers == map[] && s.settlements == [] && s.outbox == []
  }

  lemma StepWithoutUrl(s: State, e: Event)
    requires Enabled(s, e) && NothingBegun(s) && s.status != Connected && (e.Connect? ==> e.attempt.BadUrl?)
    ensures var t := Step(s, e);
            && NothingBegun(t)
            && t.status == if e.Connect? then Connecting else if e.Disconnect? then Disconnected else s.status
  {
  }

  /**
   * A client whose URL cannot be built never gets a socket and never issues a request, however often it is asked to
   * connect: it is `connecting` after every connect, and only `disconnect` changes that.
   */
  lemma {:induction false} WithoutUrlNothingBegins(es: seq<Event>)
    requires Legal(es) && OneUrl(es, false)
    ensures NothingBegun(Run(es)) && Run(es).status == StatusWithoutUrl(es)
    ensures Run(es).status != Connected
    decreases |es|
  {
    if es == [] {
      assert Run(es) == INITIAL;
    } else {
      hide Step, Enabled, NothingBegun, Run, Legal;
      var m := |es| - 1;
      LastStep(es);
      WithoutUrlNothingBegins(es[..m]);
      StepWithoutUrl(Run(es[..m]), es[m]);
    }
  }

  /** For a client whose URL can be built, `connecting` does mean that the current socket's handshake is under way. */
  lemma WithUrlConnectingIsUnderWay(es: seq<Event>)
    requires Legal(es) && OneUrl(es, true)
    ensures var s := Run(es);
            s.status == Connecting <==>
              && s.socket.Some? && s.socket.value < |s.handshakes|
              && s.handshakes[s.socket.value] == Handshake(false, true)
  {
    hide Run, Legal, Step, Enabled;
    RunKeepsInv(es);
    StatusTracksEvents(es);
    StuckExactlyAfterBadUrl(es);
  }

  /** What the handshake events `hs` of the current socket `k` say about the state. */
  ghost predicate Tracks(s: State, k: nat, hs: seq<Event>) {
    && k < |s.handshakes|
    && (s.handshakes[k].settled <==> hs != [])
    && s.status == StatusOf(hs)
  }

  lemma OpenedCleanlyExtended(hs: seq<Event>, e: Event)
    ensures OpenedCleanly(hs + [e]) <==> !e.Error? && (if hs == [] then e.Open? else OpenedCleanly(hs))
  {
    assert (hs + [e])[|hs|] == e;
    assert forall i :: 0 <= i < |hs| ==> (hs + [e])[i] == hs[i];
  }

  lemma HandshakeStepTracks(s: State, e: Event, k: nat, hs: seq<Event>)
    requires Inv(s) && Enabled(s, e) && s.socket == Some(k) && Tracks(s, k, hs)
    requires SocketOf(e) == Some(k) && !e.Message?
    ensures Step(s, e).socket == Some(k) ==> Tracks(Step(s, e), k, hs + [e])
  {
    OpenedCleanlyExtended(hs, e);
  }

  lemma OtherStepTracks(s: State, e: Event)
    requires Inv(s) && Enabled(s, e)
    requires SocketOf(e) == None || SocketOf(e) != s.socket || e.Message?
    ensures var t := Step(s, e);
            && (t.socket == s.socket && s.socket.Some? ==>
                  && t.handshakes[s.socket.value].settled == s.handshakes[s.socket.value].settled
                  && t.status == s.status)
            && (t.socket != s.socket ==> t.socket == None || t.socket == Some(|s.handshakes|))
            && (t.socket != s.socket && t.socket.Some? ==>
                  !t.handshakes[t.socket.value].settled && t.status == Connecting)
  {
    hide StepRequest, StepRequestTimeout, StepMessage;
    if e.Request? || e.RequestTimeout? || e.Message? {
      RequestStepsKeepConnections(s, e);
    }
  }

  /** A socket that does not exist yet has made no callback. */
  lemma {:induction false} NoEventsBeforeCreation(es: seq<Event>, k: nat)
    requires Legal(es) && k >= |Run(es).handshakes|
    ensures HandshakeEvents(es, k) == []
    decreases |es|
  {
    if es != [] {
      var m := |es| - 1;
      HandshakesGrow(Run(es[..m]), es[m]);
      NoEventsBeforeCreation(es[..m], k);
    }
  }

  lemma HandshakesGrow(s: State, e: Event)
    requires Enabled(s, e)
    ensures |s.handshakes| <= |Step(s, e).handshakes|
  {
    hide StepRequest, StepRequestTimeout, StepMessage;
    if e.Request? || e.RequestTimeout? || e.Message? {
      RequestStepsKeepConnections(s, e);
    }
  }

  lemma {:induction false} StatusTracksEvents(es: seq<Event>)
    requires Legal(es)
    ensures var s := Run(es);
            s.socket.Some? ==> Tracks(s, s.socket.value, HandshakeEvents(es, s.socket.value))
    decreases |es|
  {
    if es != [] && Run(es).socket.Some? {
      var m := |es| - 1;
      StatusTracksEvents(es[..m]);
      RunKeepsInv(es[..m]);
      RunKeepsInv(es);
      var s, e, k := Run(es[..m]), es[m], Run(es).socket.value;
      var before := HandshakeEvents(es[..m], k);
      if s.socket.Some? && SocketOf(e) == s.socket && !e.Message? {
        HandshakeStepTracks(s, e, s.socket.value, before);
      } else {
        OtherStepTracks(s, e);
        if s.socket != Some(k) {
          NoEventsBeforeCreation(es[..m], k);
        }
        assert HandshakeEvents(es, k) == before;
      }
    }
  }
}
