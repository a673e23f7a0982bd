/**
 * The RPC client as a state machine over its callbacks.
 *
 * Sockets are numbered in the order `connect` creates them, and every callback of every socket may run
 * at any later time. The settled-request window is not part of this machine: the machine keeps the whole
 * history of retired requests, and `Client.OctosUiClient` refines that history by its 128-entry window.
 */
module ClientModel {
  import opened Wrappers
  import opened Seqs
  import opened Json
  import Decimal

  /** How many retired ids the client remembers. */
  const WINDOW: nat := 128

  datatype Status = Idle | Connecting | Connected | Disconnected | Failed

  /** One `connect` promise: its `settled` variable and its timeout timer. */
  datatype Handshake = Handshake(settled: bool, timer: bool)

  datatype RpcError = RpcError(code: Number, message: string, data: Option<Json>)

  /** What a request's promise is called with; the timeout error names the method. */
  datatype Outcome =
    | Answered(result: Json) | Refused(error: RpcError) | TimedOut(name: string) | SendFailed | ConnectionLost

  /** The method and parameters of a request. */
  datatype Call = Call(name: string, params: Json)

  /** A request frame handed to a socket. */
  datatype Sent = Sent(socket: nat, id: string, call: Call)

  /** One call of a request's `resolve` or `reject`; `via` is the socket whose frame caused it. */
  datatype Settlement = Settlement(id: string, outcome: Outcome, via: Option<nat>)

  /** One call of a connect promise's `resolve` or `reject`. */
  datatype ConnectOutcome = ConnectOutcome(socket: nat, ok: bool)

  datatype ClientError =
    | FactoryThrew | HandshakeTimedOut | SocketFailed
    | NonTextFrame | RejectedFrame | MissingRequestId(message: string) | UnknownRequest(id: string)

  /** A frame after `parseIncomingFrame`; only a failure frame can lack a request id. */
  datatype Frame =
    | NonText | Invalid | Notification
    | SuccessFrame(replyTo: string, result: Json) | FailureFrame(failed: Option<string>, error: RpcError)

  datatype Attempt = BadUrl | FactoryThrows | Created

  datatype Event =
    | Connect(attempt: Attempt)
    | Open(socket: nat) | Error(socket: nat) | Close(socket: nat) | ConnectTimeout(socket: nat)
    | Message(socket: nat, frame: Frame)
    | Request(call: Call, ready: bool, sent: bool)
    | RequestTimeout(id: string)
    | Disconnect(closable: bool)    // whether the socket is not closing already

  datatype State = State(
    socket: Option<nat>,
    status: Status,
    handshakes: seq<Handshake>,
    next: nat,                      // the number of the next request
    pending: seq<string>,           // keys of the pending map, oldest first
    timers: map<string, string>,    // live request timers, with the method each would report
    issued: map<string, nat>,       // the socket each id was sent on
    settlements: seq<Settlement>,
    marked: seq<string>,            // every id ever retired by a timeout or a lost connection
    absorbed: set<string>,          // retired ids whose late reply was swallowed
    connects: seq<ConnectOutcome>,
    outbox: seq<Sent>,              // every frame sent, in order
    closed: seq<nat>,               // the sockets the client told to close
    errors: seq<ClientError>)

  const INITIAL := State(None, Idle, [], 1, [], map[], map[], [], [], {}, [], [], [], [])

  // ---------------------------------------------------------------- requests

  function Ids(log: seq<Settlement>): (ids: seq<string>)
    ensures |ids| == |log| && forall i :: 0 <= i < |log| ==> ids[i] == log[i].id
  {
    seq(|log|, i requires 0 <= i < |log| => log[i].id)
  }

  function Settle(s: State, id: string, outcome: Outcome, via: Option<nat>): State {
    s.(settlements := s.settlements + [Settlement(id, outcome, via)])
  }

  /** The rejection a lost connection gives every request in `ids`. */
  function Losses(ids: seq<string>): (log: seq<Settlement>)
    ensures |log| == |ids|
    ensures forall i :: 0 <= i < |ids| ==> log[i] == Settlement(ids[i], ConnectionLost, None)
  {
    seq(|ids|, i requires 0 <= i < |ids| => Settlement(ids[i], ConnectionLost, None))
  }

  /** Retire every pending request, oldest first. */
  function RejectPending(s: State): State {
    s.(pending := [],
       timers := s.timers - Elems(s.pending),
       marked := s.marked + s.pending,
       settlements := s.settlements + Losses(s.pending))
  }

  function StepRequest(s: State, call: Call, ready: bool, sent: bool): State {
    if s.status != Connected || s.socket.None? || !ready then s
    else
      var id := Decimal.Print(s.next);
      var s' := s.(next := s.next + 1, issued := s.issued[id := s.socket.value]);
      if sent then
        s'.(pending := s.pending + [id], timers := s.timers[id := call.name],
            outbox := s.outbox + [Sent(s.socket.value, id, call)])
      else Settle(s', id, SendFailed, None)
  }

  function StepRequestTimeout(s: State, id: string): State
    requires id in s.timers
  {
    Settle(s.(timers := s.timers - {id},
              pending := Without(s.pending, id),
              marked := s.marked + [id]), id, TimedOut(s.timers[id]), None)
  }

  /** A reply to `id` is late but still remembered. */
  predicate Absorbs(s: State, id: string) {
    id in LastN(s.marked, WINDOW) && id !in s.absorbed
  }

  function StepReply(s: State, k: nat, id: string, outcome: Outcome): State {
    if id in s.pending then
      Settle(s.(timers := s.timers - {id}, pending := Without(s.pending, id)), id, outcome, Some(k))
    else if Absorbs(s, id) then s.(absorbed := s.absorbed + {id})
    else s.(errors := s.errors + [UnknownRequest(id)])
  }

  function StepMessage(s: State, k: nat, frame: Frame): State {
    if s.socket != Some(k) then s
    else match frame
      case NonText => s.(errors := s.errors + [NonTextFrame])
      case Invalid => s.(errors := s.errors + [RejectedFrame])
      case Notification => s
      case SuccessFrame(id, result) => StepReply(s, k, id, Answered(result))
      case FailureFrame(None, error) => s.(errors := s.errors + [MissingRequestId(error.message)])
      case FailureFrame(Some(id), error) => StepReply(s, k, id, Refused(error))
  }

  // ---------------------------------------------------------------- handshakes

  function StepConnect(s: State, attempt: Attempt): State {
    if s.socket.Some? then s
    else
      var s' := s.(status := Connecting);
      match attempt
      case BadUrl => s'
      case FactoryThrows => s'.(status := Failed, errors := s.errors + [FactoryThrew])
      case Created => s'.(socket := Some(|s.handshakes|),
                          handshakes := s.handshakes + [Handshake(false, true)])
  }

  function StopTimer(s: State, k: nat): State
    requires k < |s.handshakes|
  {
    s.(handshakes := s.handshakes[k := s.handshakes[k].(timer := false)])
  }

  /** Settle the connect promise of socket `k` unless it is settled already. */
  function SettleConnect(s: State, k: nat, ok: bool): (s': State)
    requires k < |s.handshakes|
  {
    if s.handshakes[k].settled then s
    else s.(handshakes := s.handshakes[k := s.handshakes[k].(settled := true)],
            connects := s.connects + [ConnectOutcome(k, ok)])
  }

  function StepConnectTimeout(s: State, k: nat): State
    requires k < |s.handshakes|
  {
    var s' := StopTimer(s, k);
    if s'.handshakes[k].settled then s'
    else
      var s'' := SettleConnect(s', k, false);
      if s.socket != Some(k) then s''
      else s''.(socket := None, status := Failed, errors := s.errors + [HandshakeTimedOut], closed := s.closed + [k])
  }

  function StepOpen(s: State, k: nat): State
    requires k < |s.handshakes|
  {
    var s' := StopTimer(s, k);
    if s'.handshakes[k].settled then s'
    else if s.socket != Some(k) then SettleConnect(s', k, false)
    else SettleConnect(s', k, true).(status := Connected)
  }

  function StepError(s: State, k: nat): State
    requires k < |s.handshakes|
  {
    var s' := SettleConnect(StopTimer(s, k), k, false);
    if s.socket != Some(k) then s'
    else s'.(status := Failed, errors := s.errors + [SocketFailed])
  }

  function StepClose(s: State, k: nat): State
    requires k < |s.handshakes|
  {
    var s' := SettleConnect(StopTimer(s, k), k, false);
    if s.socket != Some(k) then s'
    else
      RejectPending(s').(
        socket := None,
        status := if !s.handshakes[k].settled || s.status == Failed then Failed else Disconnected)
  }

  function StepDisconnect(s: State, closable: bool): State {
    RejectPending(s).(
      socket := None, status := Disconnected,
      closed := if s.socket.Some? && closable then s.closed + [s.socket.value] else s.closed)
  }

  // ---------------------------------------------------------------- runs

  /**
   * What the event loop can deliver: callbacks of sockets that exist, and timers that are live.
   * Nothing relates the callbacks of different sockets, and a socket may repeat any callback.
   */
  predicate Enabled(s: State, e: Event) {
    match e
    case Open(k) => k < |s.handshakes|
    case Error(k) => k < |s.handshakes|
    case Close(k) => k < |s.handshakes|
    case Message(k, _) => k < |s.handshakes|
    case ConnectTimeout(k) => k < |s.handshakes| && s.handshakes[k].timer
    case RequestTimeout(id) => id in s.timers
    case _ => true
  }

  function Step(s: State, e: Event): State
    requires Enabled(s, e)
  {
    match e
    case Connect(attempt) => StepConnect(s, attempt)
    case Open(k) => StepOpen(s, k)
    case Error(k) => StepError(s, k)
    case Close(k) => StepClose(s, k)
    case ConnectTimeout(k) => StepConnectTimeout(s, k)
    case Message(k, frame) => StepMessage(s, k, frame)
    case Request(call, ready, sent) => StepRequest(s, call, ready, sent)
    case RequestTimeout(id) => StepRequestTimeout(s, id)
    case Disconnect(closable) => StepDisconnect(s, closable)
  }

  predicate Legal(es: seq<Event>)
    decreases |es|, 0
  {
    es == [] || (var m := |es| - 1; Legal(es[..m]) && Enabled(Run(es[..m]), es[m]))
  }

  /** The state after a legal sequence of events. */
  function Run(es: seq<Event>): State
    requires Legal(es)
    decreases |es|, 1
  {
    if es == [] then INITIAL else var m := |es| - 1; Step(Run(es[..m]), es[m])
  }
}
