/** What each step does to the socket, the status, the close calls and the reported errors, in every reachable state. */
module ClientSteps {
  import opened Wrappers
  import opened Seqs
  import opened ClientModel
  import opened ClientInvariant
  import opened ClientTheorems
  import Decimal

  // ---------------------------------------------------------------- the socket

  /** The socket goes when it closes, times out or is disconnected, and comes when a connect creates one. */
  function NextSocket(s: State, e: Event): Option<nat> {
    match s.socket
    case Some(k) => if e.Disconnect? || e == Close(k) || e == ConnectTimeout(k) then None else s.socket
    case None => if e == Connect(Created) then Some(|s.handshakes|) else None
  }

  lemma ConnectionStepsMoveSocket(s: State, e: Event)
    requires Inv(s) && Enabled(s, e) && (e.Connect? || e.Open? || e.Error? || e.ConnectTimeout?)
    ensures Step(s, e).socket == NextSocket(s, e)
  {
    hide StepRequest, StepRequestTimeout, StepMessage, StepClose, StepDisconnect, FreshIds, SettledOnce, RetiredOnce;
  }

  lemma LossMovesSocket(s: State, e: Event)
    requires Enabled(s, e) && (e.Close? || e.Disconnect?)
    ensures Step(s, e).socket == NextSocket(s, e)
  {
    hide StepRequest, StepRequestTimeout, StepMessage, StepConnect, StepOpen, StepError, StepConnectTimeout, Losses;
  }

  lemma SocketsAreNumbered(s: State, e: Event)
    requires Enabled(s, e)
    ensures |Step(s, e).handshakes| == |s.handshakes| + if s.socket == None && e == Connect(Created) then 1 else 0
  {
    hide StepRequest, StepRequestTimeout, StepMessage, Losses, Elems;
    if e.Request? || e.RequestTimeout? || e.Message? {
      RequestStepsKeepConnections(s, e);
    }
  }

  lemma SocketStepsExactly(es: seq<Event>, e: Event)
    requires Legal(es) && Enabled(Run(es), e)
    ensures Step(Run(es), e).socket == NextSocket(Run(es), e)
    ensures |Step(Run(es), e).handshakes| ==
              |Run(es).handshakes| + if Run(es).socket == None && e == Connect(Created) then 1 else 0
  {
    RunKeepsInv(es);
    SocketsAreNumbered(Run(es), e);
    hide Run, Legal, Step, Inv;
    if e.Request? || e.RequestTimeout? || e.Message? {
      RequestStepsKeepConnections(Run(es), e);
    } else if e.Close? || e.Disconnect? {
      LossMovesSocket(Run(es), e);
    } else {
      ConnectionStepsMoveSocket(Run(es), e);
    }
  }

  // ---------------------------------------------------------------- the status

  lemma StatusWithoutSocket(s: State, e: Event)
    requires Enabled(s, e) && s.socket == None && e != Connect(Created)
    ensures Step(s, e).status ==
              if e == Connect(BadUrl) then Connecting else if e == Connect(FactoryThrows) then Failed
              else if e.Disconnect? then Disconnected else s.status
  {
    hide StepRequest, StepRequestTimeout, StepMessage;
    if e.Request? || e.RequestTimeout? || e.Message? {
      RequestStepsKeepConnections(s, e);
    }
  }

  /**
   * The status after any step of any run: the current socket's callbacks decide it while there is one; its loss ends
   * in `disconnected` if it had opened cleanly or the caller disconnected, and in `error` otherwise; without a socket
   * only a failing connect and a disconnect change it.
   */
  lemma StatusStepsExactly(es: seq<Event>, e: Event)
    requires Legal(es + [e]) && Legal(es) && Enabled(Run(es), e)
    ensures var s, t := Run(es), Run(es + [e]);
            t.status ==
              if NextSocket(s, e).Some? then StatusOf(HandshakeEvents(es + [e], NextSocket(s, e).value))
              else if s.socket.Some? then
                if e.Disconnect? || OpenedCleanly(HandshakeEvents(es, s.socket.value)) then Disconnected else Failed
              else if e == Connect(BadUrl) then Connecting else if e == Connect(FactoryThrows) then Failed
              else if e.Disconnect? then Disconnected else s.status
  {
    SocketStepsExactly(es, e);
    LastStep(es + [e]);
    assert (es + [e])[..|es|] == es;
    ConnectedMeansOpenedCleanly(es + [e]);
    hide Run, Legal, Step, Enabled, StatusOf, OpenedCleanly;
    var s := Run(es);
    if NextSocket(s, e).None? {
      if s.socket.Some? {
        StatusAfterLoss(es, e);
      } else {
        StatusWithoutSocket(s, e);
      }
    }
  }

  // ---------------------------------------------------------------- close calls

  /** The client closes the socket that times out, and the one it disconnects unless that is closing already. */
  function Closes(s: State, e: Event): seq<nat> {
    match s.socket
    case Some(k) => if e == ConnectTimeout(k) || e == Disconnect(true) then [k] else []
    case None => []
  }

  lemma ConnectionStepsClose(s: State, e: Event)
    requires Inv(s) && Enabled(s, e) && (e.Connect? || e.Open? || e.Error? || e.ConnectTimeout?)
    ensures Step(s, e).closed == s.closed + Closes(s, e)
  {
    hide StepRequest, StepRequestTimeout, StepMessage, StepClose, StepDisconnect, FreshIds, SettledOnce, RetiredOnce;
  }

  lemma LossCloses(s: State, e: Event)
    requires Enabled(s, e) && (e.Close? || e.Disconnect?)
    ensures Step(s, e).closed == s.closed + Closes(s, e)
  {
    hide StepRequest, StepRequestTimeout, StepMessage, StepConnect, StepOpen, StepError, StepConnectTimeout, Losses;
  }

  lemma CloseCallsExactly(es: seq<Event>, e: Event)
    requires Legal(es) && Enabled(Run(es), e)
    ensures Step(Run(es), e).closed == Run(es).closed + Closes(Run(es), e)
  {
    RunKeepsInv(es);
    hide Run, Legal, Step, Inv;
    if e.Request? || e.RequestTimeout? || e.Message? {
      RequestStepsKeepConnections(Run(es), e);
    } else if e.Close? || e.Disconnect? {
      LossCloses(Run(es), e);
    } else {
      ConnectionStepsClose(Run(es), e);
    }
  }

  // ---------------------------------------------------------------- errors

  /** What a frame makes the current socket's client report. */
  ghost function FrameErrors(s: State, frame: Frame): seq<ClientError> {
    match frame
    case NonText => [NonTextFrame]
    case Invalid => [RejectedFrame]
    case Notification => []
    case FailureFrame(None, error) => [MissingRequestId(error.message)]
    case SuccessFrame(id, _) => StrayErrors(s, id)
    case FailureFrame(Some(id), _) => StrayErrors(s, id)
  }

  ghost function StrayErrors(s: State, id: string): seq<ClientError> {
    if id in s.pending || StillRemembered(s, id) then [] else [UnknownRequest(id)]
  }

  ghost function Reports(s: State, e: Event): seq<ClientError> {
    match e
    case Connect(attempt) => if s.socket == None && attempt.FactoryThrows? then [FactoryThrew] else []
    case ConnectTimeout(k) => if s.socket == Some(k) then [HandshakeTimedOut] else []
    case Error(k) => if s.socket == Some(k) then [SocketFailed] else []
    case Message(k, frame) => if s.socket == Some(k) then FrameErrors(s, frame) else []
    case _ => []
  }

  /** A frame that answers no request reports what is wrong with it, if anything, and does nothing else. */
  lemma OtherFramesOnlyReport(s: State, k: nat, frame: Frame)
    requires s.socket == Some(k) && (forall id :: !RepliesTo(frame, id))
    ensures StepMessage(s, k, frame) == s.(errors := s.errors + FrameErrors(s, frame))
  {
    assert frame.SuccessFrame? ==> RepliesTo(frame, frame.replyTo);
    assert frame.FailureFrame? && frame.failed.Some? ==> RepliesTo(frame, frame.failed.value);
  }

  lemma ConnectionStepsReport(s: State, e: Event)
    requires Inv(s) && Enabled(s, e) && (e.Connect? || e.Open? || e.Error? || e.ConnectTimeout?)
    ensures Step(s, e).errors == s.errors + Reports(s, e)
  {
    hide StepRequest, StepRequestTimeout, StepMessage, StepClose, StepDisconnect, FreshIds, SettledOnce, RetiredOnce;
  }

  lemma QuietStepsReport(s: State, e: Event)
    requires Enabled(s, e) && (e.Close? || e.Disconnect? || e.Request? || e.RequestTimeout?)
    ensures Step(s, e).errors == s.errors
  {
    hide StepMessage, StepConnect, StepOpen, StepError, StepConnectTimeout, Losses, Without;
  }

  lemma ReplyReports(es: seq<Event>, k: nat, frame: Frame, id: string)
    requires Legal(es) && Run(es).socket == Some(k) && RepliesTo(frame, id)
    ensures k < |Run(es).handshakes|
    ensures Step(Run(es), Message(k, frame)).errors == Run(es).errors + FrameErrors(Run(es), frame)
  {
    EveryReplyHasOneFate(es, k, frame, id);
    hide Run, Legal, Step, StillRemembered;
    assert FrameErrors(Run(es), frame) == StrayErrors(Run(es), id);
  }

  /** The errors reported by any step of any run. */
  lemma ErrorsExactly(es: seq<Event>, e: Event)
    requires Legal(es) && Enabled(Run(es), e)
    ensures Step(Run(es), e).errors == Run(es).errors + Reports(Run(es), e)
  {
    RunKeepsInv(es);
    var s := Run(es);
    hide Run, Legal, Inv, StillRemembered, FrameErrors;
    match e
    case Message(k, frame) =>
      if s.socket == Some(k) {
        if frame.SuccessFrame? {
          ReplyReports(es, k, frame, frame.replyTo);
        } else if frame.FailureFrame? && frame.failed.Some? {
          ReplyReports(es, k, frame, frame.failed.value);
        } else {
          OtherFramesOnlyReport(s, k, frame);
        }
      } else {
        hide StepReply;
      }
    case Close(_) => QuietStepsReport(s, e);
    case Disconnect(_) => QuietStepsReport(s, e);
    case Request(_, _, _) => QuietStepsReport(s, e);
    case RequestTimeout(_) => QuietStepsReport(s, e);
    case _ => ConnectionStepsReport(s, e);
  }

  // ---------------------------------------------------------------- the order of rejections

  /** `x` and `y` are request ids below the limit, `x` the older one. */
  ghost predicate Older(x: string, y: string, limit: nat) {
    exists m: nat, n: nat :: m < n < limit && x == Decimal.Print(m) && y == Decimal.Print(n)
  }

  ghost predicate OldestFirst(ids: seq<string>, limit: nat) {
    forall i, j :: 0 <= i < j < |ids| ==> Older(ids[i], ids[j], limit)
  }

  lemma {:induction false} WithoutStaysOrdered(ids: seq<string>, x: string, limit: nat)
    requires OldestFirst(ids, limit)
    ensures OldestFirst(Without(ids, x), limit)
  {
    hide Older;
    if ids != [] {
      WithoutStaysOrdered(ids[1..], x, limit);
      var rest := Without(ids[1..], x);
      forall j | 0 <= j < |rest|
        ensures Older(ids[0], rest[j], limit)
      {
        assert rest[j] in ids[1..];
      }
    }
  }

  lemma NewestIsLast(es: seq<Event>, limit: nat)
    requires Legal(es) && OldestFirst(Run(es).pending, Run(es).next) && limit == Run(es).next + 1
    ensures OldestFirst(Run(es).pending + [Decimal.Print(Run(es).next)], limit)
  {
    RunKeepsInv(es);
    var s := Run(es);
    var longer := s.pending + [Decimal.Print(s.next)];
    forall i | 0 <= i < |s.pending|
      ensures Older(s.pending[i], Decimal.Print(s.next), limit)
    {
      assert s.pending[i] in Elems(s.pending);
      IdsAreConsecutive(es, s.pending[i]);
    }
    hide Run, Legal, Inv;
    forall i, j | 0 <= i < j < |longer|
      ensures Older(longer[i], longer[j], limit)
    {
      if j < |s.pending| {
        assert Older(s.pending[i], s.pending[j], s.next);
      }
    }
  }

  lemma LimitGrows(ids: seq<string>, limit: nat, more: nat)
    requires OldestFirst(ids, limit) && limit <= more
    ensures OldestFirst(ids, more)
  {
    forall i, j | 0 <= i < j < |ids|
      ensures Older(ids[i], ids[j], more)
    {
      assert Older(ids[i], ids[j], limit);
    }
  }

  /** A step keeps `pending`, drops one id from it, empties it, or appends the newest id. */
  lemma StepMovesPending(s: State, e: Event) returns (x: string)
    requires Enabled(s, e)
    ensures var t := Step(s, e);
            && s.next <= t.next
            && (|| t.pending == s.pending || t.pending == [] || t.pending == Without(s.pending, x)
                || (t.pending == s.pending + [Decimal.Print(s.next)] && t.next == s.next + 1))
  {
    hide LastN, Without, Absorbs, StepConnect, StepOpen, StepError, StepConnectTimeout, Losses, Elems;
    x := "";
    match e
    case Message(_, SuccessFrame(id, _)) => x := id;
    case Message(_, FailureFrame(Some(id), _)) => x := id;
    case RequestTimeout(id) => x := id;
    case Message(_, _) =>
    case Request(_, _, _) =>
    case Close(_) =>
    case Disconnect(_) =>
    case _ => ConnectionStepsKeepRequests(s, e);
  }

  /** Requests wait in the order they were issued. */
  lemma {:induction false} PendingIsOldestFirst(es: seq<Event>)
    requires Legal(es)
    ensures OldestFirst(Run(es).pending, Run(es).next)
    decreases |es|
  {
    if es == [] {
      assert Run(es) == INITIAL;
    } else {
      var m := |es| - 1;
      LastStep(es);
      PendingIsOldestFirst(es[..m]);
      var s := Run(es[..m]);
      NewestIsLast(es[..m], s.next + 1);
      hide Run, Legal, Step, Enabled, OldestFirst, Decimal.Print, Without;
      var x := StepMovesPending(s, es[m]);
      WithoutStaysOrdered(s.pending, x, s.next);
      LimitGrows(s.pending, s.next, Run(es).next);
      LimitGrows(Without(s.pending, x), s.next, Run(es).next);
      NothingIsOrdered(Run(es).next);
    }
  }

  lemma NothingIsOrdered(limit: nat)
    ensures OldestFirst([], limit)
  {
  }

  /** Losing the connection rejects and retires every pending request, in the order of `pending`. */
  lemma LossRejectsInOrder(s: State, e: Event)
    requires Enabled(s, e) && (e.Disconnect? || (e.Close? && s.socket == SocketOf(e)))
    ensures var t := Step(s, e);
            && |t.settlements| == |s.settlements| + |s.pending| && t.settlements[..|s.settlements|] == s.settlements
            && (forall i :: 0 <= i < |s.pending| ==>
                  t.settlements[|s.settlements| + i] == Settlement(s.pending[i], ConnectionLost, None))
            && t.marked == s.marked + s.pending && t.pending == []
  {
    hide StepRequest, StepRequestTimeout, StepMessage, StepConnect, StepOpen, StepError, StepConnectTimeout;
  }
}
