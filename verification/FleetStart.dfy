/** The Fleet start sequencer and the component state it is wired to, over whole runs. */
module FleetStart {
  import opened Wrappers

  datatype Submit = Submit(laneKey: string, brief: string, title: string)

  datatype SequencerState = Idle | AwaitingSeat(submit: Submit)

  datatype Call = AcquireSeat | Dispatch(submit: Submit)

  /** The next state (`None` once the submit is consumed) and the sink calls made on the way. */
  datatype Result = Result(next: Option<SequencerState>, calls: seq<Call>)

  function OnSubmit(state: SequencerState, seatHeld: bool, submit: Submit): Result {
    if !seatHeld then Result(Some(AwaitingSeat(submit)), if state.Idle? then [AcquireSeat] else [])
    else Result(None, [Dispatch(submit)])
  }

  function OnSeatHeld(state: SequencerState, seatHeld: bool): Result {
    if !state.AwaitingSeat? || !seatHeld then Result(Some(state), [])
    else Result(None, [Dispatch(state.submit)])
  }

  // ---------------------------------------------------------------- the component

  /** A submit with the seat as the click sees it, or a render that looks at the seat. */
  datatype Event = Submitted(submit: Submit, seatHeld: bool) | Rendered(seatHeld: bool)

  /** One dispatch: at which event, what, and whether the submit had been waiting for the seat. */
  datatype Sent = Sent(at: nat, submit: Submit, waited: bool)

  datatype World = World(state: SequencerState, sent: seq<Sent>, acquires: nat)

  /** Every dispatch sets the pending state to idle; so does a consumed submit. */
  function Settle(w: World, r: Result, at: nat): World {
    var state := if r.next.Some? then r.next.value else Idle;
    if r.calls == [] then w.(state := state)
    else if r.calls[0].AcquireSeat? then w.(state := state, acquires := w.acquires + 1)
    else w.(state := state, sent := w.sent + [Sent(at, r.calls[0].submit, w.state.AwaitingSeat?)])
  }

  function Step(w: World, e: Event, at: nat): World {
    match e
    case Submitted(submit, held) => Settle(w, OnSubmit(w.state, held, submit), at)
    case Rendered(held) => if w.state.Idle? then w else Settle(w, OnSeatHeld(w.state, held), at)
  }

  function Run(es: seq<Event>): World {
    if es == [] then World(Idle, [], 0)
    else var m := |es| - 1; Step(Run(es[..m]), es[m], m)
  }

  // ---------------------------------------------------------------- whole runs

  /** The last submit among the first `n` events, or -1. */
  function LastSubmit(es: seq<Event>, n: nat): (l: int)
    requires n <= |es|
    ensures -1 <= l < n
    ensures l >= 0 ==> es[l].Submitted?
    ensures forall j :: l < j < n ==> !es[j].Submitted?
  {
    if n == 0 then -1 else if es[n - 1].Submitted? then n - 1 else LastSubmit(es, n - 1)
  }

  lemma {:induction false} LastSubmitOfPrefix(es: seq<Event>, m: nat, n: nat)
    requires n <= m <= |es|
    ensures LastSubmit(es[..m], n) == LastSubmit(es, n)
  {
  }

  /** A dispatch happens with the seat held and carries the latest submit there is. */
  ghost predicate SentLatest(es: seq<Event>, d: Sent) {
    && d.at < |es| && es[d.at].seatHeld
    && var l := LastSubmit(es, d.at + 1);
    l >= 0 && es[l].submit == d.submit
  }

  /** The submit event a dispatch stands for. */
  function SubmitOf(es: seq<Event>, d: Sent): int
    requires d.at < |es|
  {
    LastSubmit(es, d.at + 1)
  }

  ghost predicate DispatchesAreSound(es: seq<Event>, w: World) {
    && (forall i :: 0 <= i < |w.sent| ==> SentLatest(es, w.sent[i]))
    && (forall i, j :: 0 <= i < j < |w.sent| ==> SubmitOf(es, w.sent[i]) < SubmitOf(es, w.sent[j]))
    && (forall i :: 0 <= i < |w.sent| ==> SubmitOf(es, w.sent[i]) <= LastSubmit(es, |es|))
    && (w.state.AwaitingSeat? ==>
          && LastSubmit(es, |es|) >= 0 && es[LastSubmit(es, |es|)].submit == w.state.submit
          && forall i :: 0 <= i < |w.sent| ==> SubmitOf(es, w.sent[i]) < LastSubmit(es, |es|))
  }

  lemma PrefixFactsStay(es: seq<Event>, m: nat, w: World)
    requires m < |es| && DispatchesAreSound(es[..m], w)
    ensures forall i :: 0 <= i < |w.sent| ==>
              SentLatest(es, w.sent[i]) && SubmitOf(es, w.sent[i]) == SubmitOf(es[..m], w.sent[i])
    ensures LastSubmit(es[..m], m) == LastSubmit(es, m)
  {
  }

  /** A step that dispatches keeps the log sound when what it sends is newer than everything sent before. */
  lemma DispatchStaysSound(es: seq<Event>, m: nat, w: World, d: Sent, acquires: nat)
    requires m == |es| - 1 && DispatchesAreSound(es[..m], w)
    requires SentLatest(es, d) && d.at == m
    requires forall i :: 0 <= i < |w.sent| ==> SubmitOf(es[..m], w.sent[i]) < SubmitOf(es, d)
    ensures DispatchesAreSound(es, World(Idle, w.sent + [d], acquires))
  {
    PrefixFactsStay(es, m, w);
    var sent := w.sent + [d];
    assert forall i :: 0 <= i < |w.sent| ==> sent[i] == w.sent[i];
    assert sent[|w.sent|] == d;
  }

  /** A step that sends nothing keeps the log sound; what waits afterwards is the latest submit. */
  lemma QuietStaysSound(es: seq<Event>, m: nat, w: World, state: SequencerState, acquires: nat)
    requires m == |es| - 1 && DispatchesAreSound(es[..m], w)
    requires state == if es[m].Submitted? then AwaitingSeat(es[m].submit) else w.state
    ensures DispatchesAreSound(es, World(state, w.sent, acquires))
  {
    PrefixFactsStay(es, m, w);
  }

  /**
   * In every run each dispatch is made with the seat held and carries the latest submit; no submit is dispatched
   * twice; and a submit still waiting for the seat is the latest one and has not been dispatched.
   */
  lemma {:induction false} EveryDispatchIsTheLatestSubmitOnce(es: seq<Event>)
    ensures DispatchesAreSound(es, Run(es))
    decreases |es|
  {
    if es != [] {
      var m := |es| - 1;
      var w := Run(es[..m]);
      EveryDispatchIsTheLatestSubmitOnce(es[..m]);
      LastSubmitOfPrefix(es, m, m);
      if es[m].seatHeld && es[m].Submitted? {
        DispatchStaysSound(es, m, w, Sent(m, es[m].submit, w.state.AwaitingSeat?), w.acquires);
      } else if es[m].seatHeld && w.state.AwaitingSeat? {
        DispatchStaysSound(es, m, w, Sent(m, w.state.submit, true), w.acquires);
      } else {
        QuietStaysSound(es, m, w, Run(es).state, Run(es).acquires);
      }
    }
  }

  // ---------------------------------------------------------------- counting

  function Submits(es: seq<Event>): nat {
    if es == [] then 0 else Submits(es[..|es| - 1]) + if es[|es| - 1].Submitted? then 1 else 0
  }

  /** Submits that replaced one still waiting for the seat. */
  function Superseded(es: seq<Event>): nat {
    if es == [] then 0
    else
      var m := |es| - 1;
      Superseded(es[..m]) + if es[m].Submitted? && Run(es[..m]).state.AwaitingSeat? then 1 else 0
  }

  function Waited(sent: seq<Sent>): nat {
    if sent == [] then 0 else Waited(sent[..|sent| - 1]) + if sent[|sent| - 1].waited then 1 else 0
  }

  lemma WaitedWithOne(sent: seq<Sent>, d: Sent)
    ensures Waited(sent + [d]) == Waited(sent) + if d.waited then 1 else 0
  {
    assert (sent + [d])[..|sent|] == sent;
  }

  function Waiting(w: World): nat { if w.state.AwaitingSeat? then 1 else 0 }

  /** One event: either one submit goes out, or none does; every new submit goes out, waits or supersedes. */
  lemma StepCounts(w: World, e: Event, at: nat)
    ensures var t := Step(w, e, at);
            && t.acquires - Waited(t.sent) - Waiting(t) == w.acquires - Waited(w.sent) - Waiting(w)
            && |t.sent| + Waiting(t) + (if e.Submitted? then Waiting(w) else 0)
               == |w.sent| + Waiting(w) + if e.Submitted? then 1 else 0
  {
    hide Waited;
    if |Step(w, e, at).sent| > |w.sent| {
      WaitedWithOne(w.sent, Step(w, e, at).sent[|w.sent|]);
    }
  }

  /** Seat requests and submits are both accounted for, whatever the order of clicks and renders. */
  lemma {:induction false} SubmitsAndAcquiresAreConserved(es: seq<Event>)
    ensures var w := Run(es);
            && w.acquires == Waited(w.sent) + Waiting(w)
            && Submits(es) == |w.sent| + Superseded(es) + Waiting(w)
    decreases |es|
  {
    if es == [] {
      assert Waited([]) == 0;
    } else {
      hide Step, Waited;
      var m := |es| - 1;
      SubmitsAndAcquiresAreConserved(es[..m]);
      StepCounts(Run(es[..m]), es[m], m);
    }
  }

  // ---------------------------------------------------------------- nothing is left behind

  /** With the seat held nothing waits, and what is not waiting has gone out: the last dispatch is the last submit. */
  ghost predicate NothingLeft(es: seq<Event>, w: World) {
    && (es != [] && es[|es| - 1].seatHeld ==> w.state.Idle?)
    && (w.state.Idle? && LastSubmit(es, |es|) >= 0 ==>
          && w.sent != [] && w.sent[|w.sent| - 1].at < |es|
          && SubmitOf(es, w.sent[|w.sent| - 1]) == LastSubmit(es, |es|))
  }

  /** A render or click without the seat sends nothing; with it, whatever waits or was clicked goes out. */
  lemma StepSends(w: World, e: Event, at: nat)
    ensures var t := Step(w, e, at);
            if e.seatHeld && (e.Submitted? || w.state.AwaitingSeat?) then
              t.state == Idle && |t.sent| == |w.sent| + 1 && t.sent[|w.sent|].at == at
            else t.sent == w.sent && (t.state == Idle <==> w.state == Idle && !e.Submitted?)
  {
  }

  /**
   * In every run a submit goes out as soon as the seat is seen held: then nothing is left waiting, and unless something
   * is waiting, the last dispatch was that of the last submit.
   */
  lemma {:induction false} EverySubmitGoesOut(es: seq<Event>)
    ensures NothingLeft(es, Run(es))
    decreases |es|
  {
    if es != [] {
      var m := |es| - 1;
      var w := Run(es[..m]);
      EverySubmitGoesOut(es[..m]);
      LastSubmitOfPrefix(es, m, m);
      StepSends(w, es[m], m);
      if w.sent != [] && w.sent[|w.sent| - 1].at < m {
        LastSubmitOfPrefix(es, m, w.sent[|w.sent| - 1].at + 1);
      }
      hide Step;
    }
  }
}
