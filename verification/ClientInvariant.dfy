/** What every step of the client keeps, and hence what holds in every reachable state. */
module ClientInvariant {
  import opened Wrappers
  import opened Seqs
  import opened ClientModel
  import Decimal

  /** Ids not issued yet are still free, and no id is the empty string. */
  ghost predicate FreshIds(s: State) {
    && "" !in s.issued
    && forall n :: n >= s.next ==> Decimal.Print(n) !in s.issued
  }

  /** Pending requests have live timers and were sent on the current, opened socket. */
  ghost predicate PendingOnCurrentSocket(s: State) {
    && Distinct(s.pending)
    && Elems(s.pending) == s.timers.Keys <= s.issued.Keys
    && (s.socket.None? ==> s.pending == [])
    && (s.socket.Some? ==>
          && s.socket.value < |s.handshakes|
          && (forall id :: id in s.pending ==> s.issued[id] == s.socket.value)
          && (s.pending != [] ==> s.handshakes[s.socket.value].settled))
  }

  /** Every issued request is settled or pending, and its promise is called at most once. */
  ghost predicate SettledOnce(s: State) {
    && Distinct(Ids(s.settlements))
    && Elems(Ids(s.settlements)) == s.issued.Keys - Elems(s.pending)
    && (forall i :: 0 <= i < |s.settlements| && s.settlements[i].via.Some? ==>
          s.settlements[i].id in s.issued && s.issued[s.settlements[i].id] == s.settlements[i].via.value)
  }

  /** No id is retired twice; retired ids are settled; only retired ids are absorbed. */
  ghost predicate RetiredOnce(s: State) {
    && Distinct(s.marked)
    && Elems(s.marked) <= Elems(Ids(s.settlements))
    && s.absorbed <= Elems(s.marked)
  }

  function Sockets(log: seq<ConnectOutcome>): (ks: seq<nat>)
    ensures |ks| == |log| && forall i :: 0 <= i < |log| ==> ks[i] == log[i].socket
  {
    seq(|log|, i requires 0 <= i < |log| => log[i].socket)
  }

  /** A connect promise is called at most once, and its timer runs exactly until then. */
  ghost predicate ConnectSettledOnce(s: State) {
    && Distinct(Sockets(s.connects))
    && (forall k :: k in Sockets(s.connects) ==> k < |s.handshakes|)
    && (forall k :: 0 <= k < |s.handshakes| ==>
          && s.handshakes[k].timer == !s.handshakes[k].settled
          && (s.handshakes[k].settled <==> k in Sockets(s.connects)))
  }

  /** `connected` needs an opened current socket; an unsettled current socket means `connecting`. */
  ghost predicate StatusFollowsSocket(s: State) {
    && (s.socket.Some? ==> s.socket.value < |s.handshakes|)
    && (s.status == Connected ==> s.socket.Some? && s.handshakes[s.socket.value].settled)
    && (s.socket.Some? && !s.handshakes[s.socket.value].settled ==> s.status == Connecting)
  }

  ghost predicate Inv(s: State) {
    && FreshIds(s)
    && PendingOnCurrentSocket(s)
    && SettledOnce(s)
    && RetiredOnce(s)
    && ConnectSettledOnce(s)
    && StatusFollowsSocket(s)
  }

  // ---------------------------------------------------------------- request steps

  /** Settling an id that leaves `pending` (or never entered it) keeps the settlement ledger. */
  lemma SettleKeeps(s: State, t: State, id: string, outcome: Outcome, via: Option<nat>)
    requires SettledOnce(s) && s.issued.Keys <= t.issued.Keys && id in t.issued && id !in Ids(s.settlements)
    requires forall x :: x in s.issued ==> t.issued[x] == s.issued[x]
    requires t.issued.Keys - Elems(t.pending) == s.issued.Keys - Elems(s.pending) + {id}
    requires t.settlements == s.settlements
    requires via.Some? ==> t.issued[id] == via.value
    ensures SettledOnce(Settle(t, id, outcome, via))
    ensures Elems(Ids(Settle(t, id, outcome, via).settlements)) == Elems(Ids(s.settlements)) + {id}
  {
    var u := Settle(t, id, outcome, via);
    assert Ids(u.settlements) == Ids(s.settlements) + [id];
    DistinctAppend(Ids(s.settlements), [id]);
  }

  lemma RejectPendingKeeps(s: State)
    requires PendingOnCurrentSocket(s) && SettledOnce(s) && RetiredOnce(s)
    ensures SettledOnce(RejectPending(s)) && RetiredOnce(RejectPending(s))
    ensures RejectPending(s).timers == map[] && RejectPending(s).pending == []
  {
    var t := RejectPending(s);
    assert Ids(t.settlements) == Ids(s.settlements) + s.pending;
    assert Elems(Ids(s.settlements)) !! Elems(s.pending);
    DistinctAppend(Ids(s.settlements), s.pending);
    DistinctAppend(s.marked, s.pending);
    forall id ensures id in Ids(t.settlements) <==> id in Ids(s.settlements) || id in s.pending {}
    assert Elems(Ids(t.settlements)) == Elems(Ids(s.settlements)) + Elems(s.pending);
    assert Elems(t.marked) == Elems(s.marked) + Elems(s.pending);
  }

  lemma RequestKeeps(s: State, call: Call, ready: bool, sent: bool)
    requires Inv(s)
    ensures Inv(StepRequest(s, call, ready, sent))
  {
    if s.status == Connected && s.socket.Some? && ready {
      var id := Decimal.Print(s.next);
      var t := s.(next := s.next + 1, issued := s.issued[id := s.socket.value]);
      forall n: nat | n >= t.next
        ensures Decimal.Print(n) !in t.issued
      {
        if Decimal.Print(n) == id { Decimal.PrintInjective(n, s.next); }
      }
      if sent {
        var u := StepRequest(s, call, ready, sent);
        DistinctAppend(s.pending, [id]);
        assert Elems(u.pending) == Elems(s.pending) + {id};
      } else {
        assert t.issued.Keys - Elems(t.pending) == s.issued.Keys - Elems(s.pending) + {id};
        SettleKeeps(s, t, id, SendFailed, None);
      }
    }
  }

  lemma RequestTimeoutKeeps(s: State, id: string)
    requires Inv(s) && id in s.timers
    ensures Inv(StepRequestTimeout(s, id))
  {
    var t := s.(timers := s.timers - {id}, pending := Without(s.pending, id), marked := s.marked + [id]);
    WithoutDistinct(s.pending, id);
    assert Elems(t.pending) == Elems(s.pending) - {id};
    SettleKeeps(s, t, id, TimedOut(s.timers[id]), None);
    DistinctAppend(s.marked, [id]);
    assert Elems(t.marked) == Elems(s.marked) + {id};
  }

  lemma ReplyKeeps(s: State, k: nat, id: string, outcome: Outcome)
    requires Inv(s) && s.socket == Some(k)
    ensures Inv(StepReply(s, k, id, outcome))
  {
    if id in s.pending {
      var t := s.(timers := s.timers - {id}, pending := Without(s.pending, id));
      WithoutDistinct(s.pending, id);
      assert Elems(t.pending) == Elems(s.pending) - {id};
      SettleKeeps(s, t, id, outcome, Some(k));
    }
  }

  // ---------------------------------------------------------------- handshake steps

  lemma SettleConnectKeeps(s: State, k: nat, ok: bool)
    requires k < |s.handshakes| && ConnectSettledOnce(s)
    ensures ConnectSettledOnce(SettleConnect(StopTimer(s, k), k, ok))
  {
    var t := SettleConnect(StopTimer(s, k), k, ok);
    if !s.handshakes[k].settled {
      assert Sockets(t.connects) == Sockets(s.connects) + [k];
      DistinctAppend(Sockets(s.connects), [k]);
    } else {
      assert t.handshakes == s.handshakes;
    }
  }

  lemma ConnectKeeps(s: State, attempt: Attempt)
    requires Inv(s)
    ensures Inv(StepConnect(s, attempt))
  {
  }

  lemma OpenKeeps(s: State, k: nat)
    requires Inv(s) && k < |s.handshakes|
    ensures Inv(StepOpen(s, k))
  {
    SettleConnectKeeps(s, k, s.socket == Some(k));
  }

  lemma ErrorKeeps(s: State, k: nat)
    requires Inv(s) && k < |s.handshakes|
    ensures Inv(StepError(s, k))
  {
    SettleConnectKeeps(s, k, false);
  }

  lemma CloseKeeps(s: State, k: nat)
    requires Inv(s) && k < |s.handshakes|
    ensures Inv(StepClose(s, k))
  {
    hide Losses;
    SettleConnectKeeps(s, k, false);
    var t := SettleConnect(StopTimer(s, k), k, false);
    RejectPendingKeeps(t);
  }

  lemma ConnectTimeoutKeeps(s: State, k: nat)
    requires Inv(s) && k < |s.handshakes| && s.handshakes[k].timer
    ensures Inv(StepConnectTimeout(s, k))
  {
    SettleConnectKeeps(s, k, false);
  }

  lemma StepKeepsInv(s: State, e: Event)
    requires Inv(s) && Enabled(s, e)
    ensures Inv(Step(s, e))
  {
    match e
    case Connect(attempt) => ConnectKeeps(s, attempt);
    case Open(k) => OpenKeeps(s, k);
    case Error(k) => ErrorKeeps(s, k);
    case Close(k) => CloseKeeps(s, k);
    case ConnectTimeout(k) => ConnectTimeoutKeeps(s, k);
    case Request(call, ready, sent) => RequestKeeps(s, call, ready, sent);
    case RequestTimeout(id) => RequestTimeoutKeeps(s, id);
    case Disconnect(_) => RejectPendingKeeps(s);
    case Message(k, frame) =>
      if s.socket == Some(k) {
        match frame
        case SuccessFrame(id, result) => ReplyKeeps(s, k, id, Answered(result));
        case FailureFrame(Some(id), error) => ReplyKeeps(s, k, id, Refused(error));
        case _ =>
      }
  }

  lemma {:induction false} RunKeepsInv(es: seq<Event>)
    requires Legal(es)
    ensures Inv(Run(es))
    decreases |es|
  {
    if es != [] {
      var m := |es| - 1;
      RunKeepsInv(es[..m]);
      StepKeepsInv(Run(es[..m]), es[m]);
    }
  }
}
