/** What the client puts on its sockets over whole runs: request frames and close calls. */
module ClientTraffic {
  import opened Wrappers
  import opened Seqs
  import opened ClientModel
  import opened ClientInvariant
  import opened ClientTheorems
  import Decimal

  // ---------------------------------------------------------------- request frames

  function FrameIds(outbox: seq<Sent>): (ids: seq<string>)
    ensures |ids| == |outbox| && forall i :: 0 <= i < |outbox| ==> ids[i] == outbox[i].id
  {
    seq(|outbox|, i requires 0 <= i < |outbox| => outbox[i].id)
  }

  predicate FailedToSend(s: State, id: string) {
    Settlement(id, SendFailed, None) in s.settlements
  }

  /** A frame went out for `id`, asking for the method `name`. */
  ghost predicate SentAs(s: State, id: string, name: string) {
    exists f :: f in s.outbox && f.id == id && f.call.name == name
  }

  /** One frame for each issued request, on its socket, unless sending failed. */
  ghost predicate FramesAreRequests(s: State) {
    && Distinct(FrameIds(s.outbox))
    && (forall f :: f in s.outbox ==> f.id in s.issued && s.issued[f.id] == f.socket && !FailedToSend(s, f.id))
    && (forall id :: id in s.issued ==> FailedToSend(s, id) || id in FrameIds(s.outbox))
  }

  /** Timers, and the timeouts they caused, know the method that was sent. */
  ghost predicate TimersKnowTheMethod(s: State) {
    && (forall id :: id in s.timers ==> SentAs(s, id, s.timers[id]))
    && (forall r :: r in s.settlements && r.outcome.TimedOut? ==> SentAs(s, r.id, r.outcome.name))
  }

  ghost predicate FramesMatchRequests(s: State) {
    FramesAreRequests(s) && TimersKnowTheMethod(s)
  }

  /** No frame goes out, no settlement is lost and no timer is set. */
  ghost predicate SendsNothing(s: State, t: State) {
    && t.outbox == s.outbox && t.issued == s.issued
    && (forall r :: r in s.settlements ==> r in t.settlements)
    && (forall id :: id in t.timers ==> id in s.timers && t.timers[id] == s.timers[id])
  }

  lemma LossSendsNothing(s: State, e: Event)
    requires Enabled(s, e) && (e.Close? || e.Disconnect?)
    ensures SendsNothing(s, Step(s, e))
  {
    hide Elems, Losses;
  }

  lemma RepliesSendNothing(s: State, k: nat, frame: Frame)
    ensures SendsNothing(s, StepMessage(s, k, frame))
  {
    hide LastN, Without, Absorbs;
  }

  lemma OtherStepsSendNothing(s: State, e: Event)
    requires Enabled(s, e) && !e.Request?
    ensures SendsNothing(s, Step(s, e))
  {
    hide Without, StepMessage, StepConnect, StepOpen, StepError, StepConnectTimeout, StepClose, StepDisconnect;
    if e.Close? || e.Disconnect? {
      LossSendsNothing(s, e);
    } else if e.Message? {
      RepliesSendNothing(s, e.socket, e.frame);
    } else if !e.RequestTimeout? {
      ConnectionStepsKeepRequests(s, e);
    }
  }

  lemma OtherStepsMatch(s: State, e: Event)
    requires Inv(s) && Enabled(s, e) && !e.Request? && FramesMatchRequests(s)
    ensures FramesMatchRequests(Step(s, e))
  {
    hide Step, Inv, Enabled;
    OtherStepsSendNothing(s, e);
    var t := Step(s, e);
    forall r | r in t.settlements && r !in s.settlements
      ensures r.outcome != SendFailed
      ensures r.outcome.TimedOut? ==> SentAs(s, r.id, r.outcome.name)
    {
      StepCauses(s, e, r);
    }
    assert forall id, name :: SentAs(t, id, name) <==> SentAs(s, id, name);
    assert forall id :: FailedToSend(t, id) <==> FailedToSend(s, id);
  }

  lemma SentFrameIsRequest(s: State, t: State, f: Sent)
    requires FramesAreRequests(s) && f.id !in s.issued
    requires t.outbox == s.outbox + [f] && t.issued == s.issued[f.id := f.socket] && t.settlements == s.settlements
    requires forall r :: r in s.settlements ==> r.id in s.issued
    ensures FramesAreRequests(t)
  {
    assert FrameIds(t.outbox) == FrameIds(s.outbox) + [f.id];
    assert t.outbox[|s.outbox|] == f;
    assert forall x :: FailedToSend(t, x) <==> FailedToSend(s, x);
    assert !FailedToSend(s, f.id);
    DistinctAppend(FrameIds(s.outbox), [f.id]);
  }

  lemma SentFrameIsKnown(s: State, t: State, f: Sent)
    requires TimersKnowTheMethod(s)
    requires t.outbox == s.outbox + [f] && t.timers == s.timers[f.id := f.call.name] && t.settlements == s.settlements
    ensures TimersKnowTheMethod(t)
  {
    assert t.outbox[|s.outbox|] == f && SentAs(t, f.id, f.call.name);
    forall x, name | SentAs(s, x, name)
      ensures SentAs(t, x, name)
    {
      var g :| g in s.outbox && g.id == x && g.call.name == name;
      assert g in t.outbox;
    }
  }

  lemma SentFrameMatches(s: State, t: State, f: Sent)
    requires FramesMatchRequests(s) && f.id !in s.issued
    requires t.outbox == s.outbox + [f] && t.issued == s.issued[f.id := f.socket]
    requires t.timers == s.timers[f.id := f.call.name] && t.settlements == s.settlements
    requires forall r :: r in s.settlements ==> r.id in s.issued
    ensures FramesMatchRequests(t)
  {
    hide FramesAreRequests, TimersKnowTheMethod;
    SentFrameIsRequest(s, t, f);
    SentFrameIsKnown(s, t, f);
  }

  lemma FailedFrameMatches(s: State, t: State, id: string, k: nat)
    requires FramesMatchRequests(s) && id !in s.issued
    requires t.outbox == s.outbox && t.issued == s.issued[id := k] && t.timers == s.timers
    requires t.settlements == s.settlements + [Settlement(id, SendFailed, None)]
    ensures FramesMatchRequests(t)
  {
    assert t.settlements[|s.settlements|] == Settlement(id, SendFailed, None);
    assert forall x, name :: SentAs(t, x, name) <==> SentAs(s, x, name);
    assert forall x :: FailedToSend(t, x) <==> FailedToSend(s, x) || x == id;
  }

  lemma SettledIdsAreIssued(s: State)
    requires Inv(s)
    ensures Decimal.Print(s.next) !in s.issued
    ensures forall r :: r in s.settlements ==> r.id in s.issued
  {
    forall r | r in s.settlements
      ensures r.id in s.issued
    {
      assert r.id in Elems(Ids(s.settlements));
    }
  }

  lemma RequestStepMatches(s: State, call: Call, ready: bool, sent: bool)
    requires Inv(s) && FramesMatchRequests(s)
    ensures FramesMatchRequests(StepRequest(s, call, ready, sent))
  {
    hide Inv, FramesMatchRequests, Decimal.Print;
    var t, id := StepRequest(s, call, ready, sent), Decimal.Print(s.next);
    SettledIdsAreIssued(s);
    if t == s {
    } else if sent {
      SentFrameMatches(s, t, Sent(s.socket.value, id, call));
    } else {
      FailedFrameMatches(s, t, id, s.socket.value);
    }
  }

  lemma {:induction false} FramesAlwaysMatch(es: seq<Event>)
    requires Legal(es)
    ensures FramesMatchRequests(Run(es))
    decreases |es|
  {
    if es != [] {
      hide FramesMatchRequests, Inv, StepMessage, StepRequestTimeout, StepConnect, StepConnectTimeout, StepOpen,
        StepError, StepClose, StepDisconnect, StepRequest;
      var m := |es| - 1;
      FramesAlwaysMatch(es[..m]);
      RunKeepsInv(es[..m]);
      match es[m]
      case Request(call, ready, sent) => RequestStepMatches(Run(es[..m]), call, ready, sent);
      case _ => OtherStepsMatch(Run(es[..m]), es[m]);
    } else {
      assert Run(es) == INITIAL;
    }
  }

  /**
   * Of every issued request exactly one frame goes out, on the socket it was issued on, unless sending it failed, and
   * then none does. A timeout names the method that frame asked for.
   */
  lemma EachRequestIsSentOnce(es: seq<Event>, id: string)
    requires Legal(es) && id in Run(es).issued
    ensures var s := Run(es);
            && multiset(FrameIds(s.outbox))[id] == (if FailedToSend(s, id) then 0 else 1)
            && (forall f :: f in s.outbox && f.id == id ==> f.socket == s.issued[id])
            && (forall r :: r in s.settlements && r.id == id && r.outcome.TimedOut? ==> SentAs(s, id, r.outcome.name))
  {
    FramesAlwaysMatch(es);
    var s := Run(es);
    DistinctCounts(FrameIds(s.outbox), id);
  }

  lemma SettlementsAgree(s: State, r: Settlement)
    requires SettledOnce(s) && r in s.settlements
    ensures forall q :: q in s.settlements && q.id == r.id ==> q == r
  {
    var i :| 0 <= i < |s.settlements| && s.settlements[i] == r;
    forall j | 0 <= j < |s.settlements| && s.settlements[j].id == r.id
      ensures j == i
    {
      assert Ids(s.settlements)[j] == Ids(s.settlements)[i];
    }
  }

  /** A reply only ever settles a request whose frame went out, on the socket the reply came from. */
  lemma RepliesAnswerFrames(es: seq<Event>, r: Settlement)
    requires Legal(es) && r in Run(es).settlements && (r.outcome.Answered? || r.outcome.Refused?)
    ensures exists f :: f in Run(es).outbox && f.id == r.id && r.via == Some(f.socket)
  {
    hide Step, Legal, Enabled;
    var s := Run(es);
    RepliesComeFromTheSendingSocket(es, r);
    FramesAlwaysMatch(es);
    RunKeepsInv(es);
    SettlementsAgree(s, r);
    assert r.id in FrameIds(s.outbox);
    var n :| 0 <= n < |s.outbox| && FrameIds(s.outbox)[n] == r.id;
    assert s.outbox[n] in s.outbox;
  }

  // ---------------------------------------------------------------- close calls

  ghost predicate ClosedAreGone(s: State) {
    && Distinct(s.closed)
    && (forall k :: k in s.closed ==> k < |s.handshakes| && s.socket != Some(k))
  }

  lemma HandshakeStepKeepsClosedGone(s: State, e: Event)
    requires Inv(s) && Enabled(s, e) && ClosedAreGone(s) && (e.Connect? || e.Open? || e.Error? || e.ConnectTimeout?)
    ensures ClosedAreGone(Step(s, e))
  {
    hide StepRequest, StepRequestTimeout, StepMessage, StepClose, StepDisconnect, FreshIds, SettledOnce, RetiredOnce,
      ConnectSettledOnce;
  }

  lemma LossKeepsClosedGone(s: State, e: Event)
    requires Inv(s) && Enabled(s, e) && ClosedAreGone(s) && (e.Close? || e.Disconnect?)
    ensures ClosedAreGone(Step(s, e))
  {
    hide StepRequest, StepRequestTimeout, StepMessage, StepConnect, StepOpen, StepError, StepConnectTimeout, FreshIds,
      SettledOnce, RetiredOnce, ConnectSettledOnce;
  }

  lemma StepKeepsClosedGone(s: State, e: Event)
    requires Inv(s) && Enabled(s, e) && ClosedAreGone(s)
    ensures ClosedAreGone(Step(s, e))
  {
    hide Inv, Step;
    if e.Request? || e.RequestTimeout? || e.Message? {
      RequestStepsKeepConnections(s, e);
    } else if e.Close? || e.Disconnect? {
      LossKeepsClosedGone(s, e);
    } else {
      HandshakeStepKeepsClosedGone(s, e);
    }
  }

  /** The client closes a socket at most once, and only one it has dropped for good. */
  lemma {:induction false} SocketsAreClosedOnce(es: seq<Event>)
    requires Legal(es)
    ensures ClosedAreGone(Run(es))
    decreases |es|
  {
    if es != [] {
      hide ClosedAreGone, Step, Inv;
      var m := |es| - 1;
      SocketsAreClosedOnce(es[..m]);
      RunKeepsInv(es[..m]);
      StepKeepsClosedGone(Run(es[..m]), es[m]);
    } else {
      assert Run(es) == INITIAL;
    }
  }
}
