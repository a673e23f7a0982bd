/** Replaced sockets leave no trace: a run without any of their callbacks ends in the same place. */
module ClientIsolation {
  import opened Wrappers
  import opened Seqs
  import opened Json
  import opened ClientModel
  import opened ClientInvariant
  import opened ClientTheorems

  /** The event is a call, a request timer, or a callback of the current socket. */
  predicate Heard(s: State, e: Event) {
    SocketOf(e).Some? ==> SocketOf(e) == s.socket
  }

  /** The run without the callbacks that sockets made while they were not current. */
  function OnlyHeard(es: seq<Event>): seq<Event>
    requires Legal(es)
    decreases |es|
  {
    if es == [] then []
    else
      var m := |es| - 1;
      OnlyHeard(es[..m]) + if Heard(Run(es[..m]), es[m]) then [es[m]] else []
  }

  /** Equal but for the handshakes and connect promises of sockets that are not current. */
  ghost predicate SameUpToReplaced(s: State, t: State) {
    && t == s.(handshakes := t.handshakes, connects := t.connects)
    && |s.handshakes| == |t.handshakes|
    && (s.socket.Some? ==> s.socket.value < |s.handshakes|
                           && s.handshakes[s.socket.value] == t.handshakes[s.socket.value])
  }

  lemma UnheardStep(s: State, t: State, e: Event)
    requires Enabled(s, e) && !Heard(s, e) && SameUpToReplaced(s, t)
    ensures SameUpToReplaced(Step(s, e), t)
  {
    hide Step;
    ReplacedSocketsAreInert(s, e, SocketOf(e).value);
  }

  lemma CallsIgnoreHandshakes(s: State, t: State, call: Call, ready: bool, sent: bool, id: string)
    requires t == s.(handshakes := t.handshakes, connects := t.connects)
    ensures StepRequest(t, call, ready, sent) ==
              StepRequest(s, call, ready, sent).(handshakes := t.handshakes, connects := t.connects)
    ensures id in s.timers ==>
              StepRequestTimeout(t, id) ==
                StepRequestTimeout(s, id).(handshakes := t.handshakes, connects := t.connects)
  {
    hide Without;
  }

  lemma RepliesIgnoreHandshakes(s: State, t: State, k: nat, frame: Frame)
    requires t == s.(handshakes := t.handshakes, connects := t.connects)
    ensures StepMessage(t, k, frame) ==
              StepMessage(s, k, frame).(handshakes := t.handshakes, connects := t.connects)
  {
    hide Without, LastN;
  }

  lemma HeardRequestStep(s: State, t: State, e: Event)
    requires Enabled(s, e) && SameUpToReplaced(s, t)
    requires e.Request? || e.RequestTimeout? || (e.Message? && Heard(s, e))
    ensures Enabled(t, e) && SameUpToReplaced(Step(s, e), Step(t, e))
  {
    hide StepRequest, StepRequestTimeout, StepMessage, StepConnect, StepOpen, StepError, StepConnectTimeout, StepClose,
      StepDisconnect;
    RequestStepsKeepConnections(s, e);
    match e
    case Request(call, ready, sent) => CallsIgnoreHandshakes(s, t, call, ready, sent, "");
    case RequestTimeout(id) => CallsIgnoreHandshakes(s, t, Call("", Null), false, false, id);
    case Message(k, frame) => RepliesIgnoreHandshakes(s, t, k, frame);
  }

  lemma HeardHandshakeStep(s: State, t: State, e: Event)
    requires Enabled(s, e) && Heard(s, e) && SameUpToReplaced(s, t)
    requires e.Open? || e.Error? || e.ConnectTimeout?
    ensures Enabled(t, e) && SameUpToReplaced(Step(s, e), Step(t, e))
  {
    hide StepRequest, StepRequestTimeout, StepMessage, StepConnect, StepClose, StepDisconnect;
  }

  lemma HeardConnectionStep(s: State, t: State, e: Event)
    requires Enabled(s, e) && Heard(s, e) && SameUpToReplaced(s, t)
    requires e.Connect? || e.Close? || e.Disconnect?
    ensures Enabled(t, e) && SameUpToReplaced(Step(s, e), Step(t, e))
  {
    hide Elems, Losses, StepRequest, StepRequestTimeout, StepMessage, StepOpen, StepError, StepConnectTimeout;
  }

  lemma RunExtended(es: seq<Event>, e: Event)
    requires Legal(es) && Enabled(Run(es), e)
    ensures Legal(es + [e]) && Run(es + [e]) == Step(Run(es), e)
  {
    hide Step, Enabled;
    assert (es + [e])[..|es|] == es;
  }

  /**
   * Deleting from a run every callback that a socket made while it was not the current one gives a legal run with the
   * same socket, status, requests, replies, timers, frames, close calls and errors.
   */
  lemma {:induction false} ReplacedSocketsLeaveNoTrace(es: seq<Event>)
    requires Legal(es)
    ensures Legal(OnlyHeard(es)) && SameUpToReplaced(Run(es), Run(OnlyHeard(es)))
    decreases |es|
  {
    if es == [] {
      assert Run(es) == INITIAL;
    } else {
      hide Step, Enabled, Heard, SameUpToReplaced, Run, Legal;
      LastStep(es);
      var m := |es| - 1;
      var s, e, heard := Run(es[..m]), es[m], OnlyHeard(es[..m]);
      ReplacedSocketsLeaveNoTrace(es[..m]);
      if Heard(s, e) {
        if e.Request? || e.RequestTimeout? || e.Message? {
          HeardRequestStep(s, Run(heard), e);
        } else if e.Open? || e.Error? || e.ConnectTimeout? {
          HeardHandshakeStep(s, Run(heard), e);
        } else {
          HeardConnectionStep(s, Run(heard), e);
        }
        RunExtended(heard, e);
        assert OnlyHeard(es) == heard + [e];
      } else {
        assert OnlyHeard(es) == heard;
        UnheardStep(s, Run(heard), e);
      }
    }
  }
}
