/**
 * The client object itself. Each method is one synchronous stretch of the source: a call, a socket callback or a timer
 * callback. Its fields are those the source updates in place, and the ghost trace records what the source does to the
 * outside. Every method is proved to be exactly one step of `ClientModel`, with the 128-entry window in place of the
 * full history.
 */
module Client {
  import opened Wrappers
  import opened Seqs
  import opened ClientModel
  import opened ClientInvariant
  import Decimal

  /** What the client did to the outside: promises called, timers set and cleared, frames sent, errors emitted. */
  datatype Trace = Trace(
    timers: map<string, string>,
    issued: map<string, nat>,
    settlements: seq<Settlement>,
    marked: seq<string>,
    absorbed: set<string>,
    connects: seq<ConnectOutcome>,
    outbox: seq<Sent>,
    closed: seq<nat>,
    errors: seq<ClientError>)

  class OctosUiClient {
    /** Whether a URL can be built from the options the client was made with; they never change. */
    const urlBuilds: bool

    var pending: seq<string>
    var settledRequestIds: set<string>
    var settledRequestOrder: seq<string>
    var socket: Option<nat>
    var nextRequestId: nat
    var currentStatus: Status
    var handshakes: seq<Handshake>

    ghost var trace: Trace

    ghost function View(): State
      reads this
    {
      var t := trace;
      State(socket, currentStatus, handshakes, nextRequestId, pending, t.timers, t.issued, t.settlements,
            t.marked, t.absorbed, t.connects, t.outbox, t.closed, t.errors)
    }

    /** The bounded window and id set stand for the full history of retired and absorbed ids. */
    ghost predicate WindowStandsForHistory()
      reads this
    {
      && settledRequestOrder == LastN(trace.marked, WINDOW)
      && settledRequestIds == Elems(settledRequestOrder) - trace.absorbed
    }

    ghost predicate Valid()
      reads this
    {
      Inv(View()) && WindowStandsForHistory()
    }

    constructor (urlBuilds: bool)
      ensures Valid() && View() == INITIAL && this.urlBuilds == urlBuilds
    {
      this.urlBuilds := urlBuilds;
      pending, settledRequestIds, settledRequestOrder := [], {}, [];
      socket, nextRequestId, currentStatus, handshakes := None, 1, Idle, [];
      trace := Trace(map[], map[], [], [], {}, [], [], [], []);
    }

    // -------------------------------------------------------------- requests

    method Request(call: Call, ready: bool, sent: bool) returns (id: Option<string>)
      requires Valid()
      modifies this
      ensures Valid() && View() == Step(old(View()), Event.Request(call, ready, sent))
      ensures id == if old(currentStatus) == Connected && old(socket).Some? && ready
                    then Some(Decimal.Print(old(nextRequestId))) else None
    {
      hide Inv, Decimal.Print, StepRequestTimeout, StepMessage, StepConnect, StepConnectTimeout, StepOpen, StepError,
        StepClose, StepDisconnect;
      RequestKeeps(View(), call, ready, sent);
      NextNameIsFree();
      if currentStatus != Connected || socket.None? || !ready {
        return None;
      }
      var name := Decimal.Print(nextRequestId);
      nextRequestId := nextRequestId + 1;
      trace := trace.(issued := trace.issued[name := socket.value]);
      Send(socket.value, name, call, sent);
      id := Some(name);
    }

    /** The promise executor: a request whose `send` throws leaves `pending` at once and is not remembered. */
    method Send(k: nat, name: string, call: Call, sent: bool)
      requires name !in pending && name !in trace.timers
      modifies this`trace, this`pending
      ensures pending == if sent then old(pending) + [name] else old(pending)
      ensures var was := old(trace);
              trace == if sent then was.(timers := was.timers[name := call.name],
                                         outbox := was.outbox + [Sent(k, name, call)])
                       else was.(settlements := was.settlements + [Settlement(name, SendFailed, None)])
    {
      trace := trace.(timers := trace.timers[name := call.name]);
      pending := pending + [name];
      if sent {
        trace := trace.(outbox := trace.outbox + [Sent(k, name, call)]);
      } else {
        trace := trace.(timers := trace.timers - {name});
        WithoutAppended(old(pending), name);
        pending := Without(pending, name);
        trace := trace.(settlements := trace.settlements + [Settlement(name, SendFailed, None)]);
      }
    }

    lemma NextNameIsFree()
      requires Inv(View())
      ensures Decimal.Print(nextRequestId) !in pending && Decimal.Print(nextRequestId) !in trace.timers
    {
    }

    method OnRequestTimeout(id: string)
      requires Valid() && Enabled(View(), RequestTimeout(id))
      modifies this
      ensures Valid() && View() == Step(old(View()), RequestTimeout(id))
    {
      hide Inv, StepRequest, StepMessage, StepConnect, StepConnectTimeout, StepOpen, StepError, StepClose,
        StepDisconnect;
      RequestTimeoutKeeps(View(), id);
      RetiredIdsAreNames();
      ghost var name := trace.timers[id];
      trace := trace.(timers := trace.timers - {id});
      pending := Without(pending, id);
      DistinctAppend(trace.marked, [id]);
      MarkRequestSettled(id);
      trace := trace.(settlements := trace.settlements + [Settlement(id, TimedOut(name), None)]);
    }

    method OnMessage(k: nat, frame: Frame)
      requires Valid() && Enabled(View(), Message(k, frame))
      modifies this
      ensures Valid() && View() == Step(old(View()), Message(k, frame))
    {
      hide Inv, StepRequest, StepRequestTimeout, StepConnect, StepConnectTimeout, StepOpen, StepError, StepClose,
        StepDisconnect;
      StepKeepsInv(View(), Message(k, frame));
      if socket != Some(k) {
        return;
      }
      var id: string;
      var outcome: Outcome;
      match frame {
        case NonText =>
          trace := trace.(errors := trace.errors + [NonTextFrame]);
          return;
        case Invalid =>
          trace := trace.(errors := trace.errors + [RejectedFrame]);
          return;
        case Notification =>
          return;
        case FailureFrame(None, error) =>
          trace := trace.(errors := trace.errors + [MissingRequestId(error.message)]);
          return;
        case FailureFrame(Some(name), error) =>
          id, outcome := name, Refused(error);
        case SuccessFrame(name, result) =>
          id, outcome := name, Answered(result);
      }
      if id !in pending {
        if id in settledRequestIds {
          settledRequestIds := settledRequestIds - {id};
          trace := trace.(absorbed := trace.absorbed + {id});
          return;
        }
        trace := trace.(errors := trace.errors + [UnknownRequest(id)]);
        return;
      }
      trace := trace.(timers := trace.timers - {id});
      pending := Without(pending, id);
      trace := trace.(settlements := trace.settlements + [Settlement(id, outcome, Some(k))]);
    }

    /** Retired ids are not empty, so the eviction test `if (expired)` never skips one. */
    lemma RetiredIdsAreNames()
      requires Inv(View())
      ensures "" !in trace.marked && "" !in pending && Distinct(trace.marked) && Distinct(pending)
      ensures forall id :: id in trace.timers <==> id in pending
      ensures trace.absorbed <= Elems(trace.marked) && Elems(trace.marked) !! Elems(pending)
    {
      assert forall id :: id in trace.marked ==> id in Elems(trace.marked);
      assert forall id :: id in pending <==> id in Elems(pending);
      assert "" !in Elems(Ids(trace.settlements));
    }

    /** Evicting the oldest remembered id from both the order and the set. */
    lemma EvictOldest(order: seq<string>, gone: set<string>)
      requires Distinct(order) && order != []
      ensures Distinct(order[1..])
      ensures Elems(order) - gone - {order[0]} == Elems(order[1..]) - gone
    {
    }

    method MarkRequestSettled(id: string)
      requires WindowStandsForHistory()
      requires Distinct(trace.marked + [id]) && "" !in trace.marked + [id] && trace.absorbed <= Elems(trace.marked)
      modifies this`settledRequestIds, this`settledRequestOrder, this`trace
      ensures WindowStandsForHistory() && trace == old(trace).(marked := old(trace).marked + [id])
    {
      ghost var grown := settledRequestOrder + [id];
      SlideWindow(trace.marked, id, WINDOW);
      trace := trace.(marked := trace.marked + [id]);
      settledRequestIds := settledRequestIds + {id};
      settledRequestOrder := settledRequestOrder + [id];
      ghost var evicted := 0;
      while |settledRequestOrder| > 128
        invariant trace == old(trace).(marked := old(trace).marked + [id])
        invariant evicted <= |grown| && settledRequestOrder == grown[evicted..]
        invariant evicted > 0 ==> |settledRequestOrder| >= 128
        invariant Distinct(settledRequestOrder) && "" !in settledRequestOrder
        invariant settledRequestIds == Elems(settledRequestOrder) - trace.absorbed
      {
        EvictOldest(settledRequestOrder, trace.absorbed);
        var expired := settledRequestOrder[0];
        settledRequestOrder := settledRequestOrder[1..];
        if expired != "" {
          settledRequestIds := settledRequestIds - {expired};
        }
        evicted := evicted + 1;
      }
      assert settledRequestOrder == LastN(grown, WINDOW);
    }

    method RejectPending()
      requires WindowStandsForHistory()
      requires Distinct(trace.marked) && Distinct(pending) && Elems(trace.marked) !! Elems(pending)
      requires "" !in trace.marked && "" !in pending && trace.absorbed <= Elems(trace.marked)
      modifies this`pending, this`settledRequestIds, this`settledRequestOrder, this`trace
      ensures WindowStandsForHistory() && View() == ClientModel.RejectPending(old(View()))
    {
      var i := 0;
      DistinctAppend(trace.marked, pending);
      while i < |pending|
        invariant 0 <= i <= |pending| && pending == old(pending)
        invariant WindowStandsForHistory()
        invariant var was := old(trace);
                  trace == was.(timers := was.timers - Elems(pending[..i]),
                                marked := was.marked + pending[..i],
                                settlements := was.settlements + Losses(pending[..i]))
      {
        var id := pending[i];
        trace := trace.(timers := trace.timers - {id});
        assert trace.marked + [id] == (old(trace.marked) + pending)[..|old(trace.marked)| + i + 1];
        MarkRequestSettled(id);
        trace := trace.(settlements := trace.settlements + [Settlement(id, ConnectionLost, None)]);
        assert pending[..i + 1] == pending[..i] + [id];
        assert Losses(pending[..i + 1]) == Losses(pending[..i]) + [Settlement(id, ConnectionLost, None)];
        i := i + 1;
      }
      assert pending[..i] == pending;
      pending := [];
    }

    // -------------------------------------------------------------- connections

    /** What a call of `connect` meets, as far as the options and the factory decide it. */
    function AttemptOf(factoryThrows: bool): Attempt {
      if !urlBuilds then BadUrl else if factoryThrows then FactoryThrows else Created
    }

    method Connect(factoryThrows: bool) returns (created: Option<nat>)
      requires Valid()
      modifies this
      ensures Valid() && View() == Step(old(View()), Event.Connect(AttemptOf(factoryThrows)))
      ensures created == if old(socket).None? && urlBuilds && !factoryThrows then Some(|old(handshakes)|) else None
    {
      hide Inv, StepRequest, StepRequestTimeout, StepMessage, StepConnectTimeout, StepOpen, StepError, StepClose,
        StepDisconnect;
      ConnectKeeps(View(), AttemptOf(factoryThrows));
      if socket.Some? {
        return None;
      }
      currentStatus := Connecting;
      if !urlBuilds {
        return None;
      }
      if factoryThrows {
        currentStatus := Failed;
        trace := trace.(errors := trace.errors + [FactoryThrew]);
        return None;
      }
      created := Some(|handshakes|);
      socket := created;
      handshakes := handshakes + [Handshake(false, true)];
    }

    /** `resolve` or `reject` of the connect promise of socket `k`. */
    ghost method CallConnectPromise(k: nat, ok: bool)
      modifies this`trace
      ensures trace == old(trace).(connects := old(trace).connects + [ConnectOutcome(k, ok)])
    {
      trace := trace.(connects := trace.connects + [ConnectOutcome(k, ok)]);
    }

    method OnConnectTimeout(k: nat)
      requires Valid() && Enabled(View(), ConnectTimeout(k))
      modifies this
      ensures Valid() && View() == Step(old(View()), ConnectTimeout(k))
    {
      hide Inv, StepRequest, StepRequestTimeout, StepMessage, StepConnect, StepOpen, StepError, StepClose,
        StepDisconnect;
      ConnectTimeoutKeeps(View(), k);
      handshakes := handshakes[k := handshakes[k].(timer := false)];
      if handshakes[k].settled {
        return;
      }
      handshakes := handshakes[k := handshakes[k].(settled := true)];
      CallConnectPromise(k, false);
      if socket != Some(k) {
        return;
      }
      socket := None;
      trace := trace.(errors := trace.errors + [HandshakeTimedOut]);
      currentStatus := Failed;
      trace := trace.(closed := trace.closed + [k]);
    }

    method OnOpen(k: nat)
      requires Valid() && Enabled(View(), Open(k))
      modifies this
      ensures Valid() && View() == Step(old(View()), Open(k))
    {
      hide Inv, StepRequest, StepRequestTimeout, StepMessage, StepConnect, StepConnectTimeout, StepError, StepClose,
        StepDisconnect;
      OpenKeeps(View(), k);
      handshakes := handshakes[k := handshakes[k].(timer := false)];
      if handshakes[k].settled {
        return;
      }
      handshakes := handshakes[k := handshakes[k].(settled := true)];
      if socket != Some(k) {
        CallConnectPromise(k, false);
        return;
      }
      currentStatus := Connected;
      CallConnectPromise(k, true);
    }

    method OnError(k: nat)
      requires Valid() && Enabled(View(), Error(k))
      modifies this
      ensures Valid() && View() == Step(old(View()), Error(k))
    {
      hide Inv, StepRequest, StepRequestTimeout, StepMessage, StepConnect, StepConnectTimeout, StepOpen, StepClose,
        StepDisconnect;
      ErrorKeeps(View(), k);
      handshakes := handshakes[k := handshakes[k].(timer := false)];
      if socket != Some(k) {
        if !handshakes[k].settled { CallConnectPromise(k, false); }
        assert handshakes[k].settled ==> handshakes[k := handshakes[k].(settled := true)] == handshakes;
        handshakes := handshakes[k := handshakes[k].(settled := true)];
        return;
      }
      trace := trace.(errors := trace.errors + [SocketFailed]);
      currentStatus := Failed;
      if !handshakes[k].settled {
        handshakes := handshakes[k := handshakes[k].(settled := true)];
        CallConnectPromise(k, false);
      }
    }

    method OnClose(k: nat)
      requires Valid() && Enabled(View(), Close(k))
      modifies this
      ensures Valid() && View() == Step(old(View()), Close(k))
    {
      hide Inv, StepRequest, StepRequestTimeout, StepMessage, StepConnect, StepConnectTimeout, StepOpen, StepError,
        StepDisconnect;
      CloseKeeps(View(), k);
      RetiredIdsAreNames();
      handshakes := handshakes[k := handshakes[k].(timer := false)];
      if socket != Some(k) {
        if !handshakes[k].settled { CallConnectPromise(k, false); }
        assert handshakes[k].settled ==> handshakes[k := handshakes[k].(settled := true)] == handshakes;
        handshakes := handshakes[k := handshakes[k].(settled := true)];
        return;
      }
      socket := None;
      RejectPending();
      if !handshakes[k].settled {
        handshakes := handshakes[k := handshakes[k].(settled := true)];
        currentStatus := Failed;
        CallConnectPromise(k, false);
      } else if currentStatus != Failed {
        currentStatus := Disconnected;
      }
    }

    method Disconnect(closable: bool)
      requires Valid()
      modifies this
      ensures Valid() && View() == Step(old(View()), Event.Disconnect(closable))
    {
      hide Inv, StepRequest, StepRequestTimeout, StepMessage, StepConnect, StepConnectTimeout, StepOpen, StepError,
        StepClose;
      StepKeepsInv(View(), Event.Disconnect(closable));
      RetiredIdsAreNames();
      var current := socket;
      socket := None;
      RejectPending();
      if current.Some? && closable {
        trace := trace.(closed := trace.closed + [current.value]);
      }
      currentStatus := Disconnected;
    }
  }
}
