/** The replay part of a hydrate result, checked against the per-thread checkpoints and the snapshot cursor. */
module Replay {
  import opened Seqs
  import opened Envelope

  type Checkpoints = map<string, nat>
  type Key = (string, nat)

  function KeyOf(e: Envelope): Key { (e.threadId, e.seqNo) }

  /** The event is covered by its thread's checkpoint and by the snapshot cursor. */
  predicate Covered(e: Envelope, checkpoints: Checkpoints, cursor: Cursor) {
    && e.threadId in checkpoints
    && e.seqNo <= checkpoints[e.threadId]
    && (e.cursor.Some? ==> e.cursor.value.stream == cursor.stream && e.cursor.value.seqNo <= cursor.seqNo)
  }

  /** What an acceptable replay is: pairwise distinct positions, all covered. */
  predicate ValidReplay(replay: seq<Envelope>, checkpoints: Checkpoints, cursor: Cursor) {
    && (forall i, j :: 0 <= i < j < |replay| ==> KeyOf(replay[i]) != KeyOf(replay[j]))
    && (forall i :: 0 <= i < |replay| ==> Covered(replay[i], checkpoints, cursor))
  }

  /** `validReplayCheckpoint`: one walk with a growing set, stopping at the first bad event. */
  method CheckReplay(replay: seq<Envelope>, checkpoints: Checkpoints, cursor: Cursor) returns (ok: bool)
    ensures ok <==> ValidReplay(replay, checkpoints, cursor)
    ensures ok <==>
            && (forall i, j :: 0 <= i < j < |replay| ==>
                  replay[i].threadId != replay[j].threadId || replay[i].seqNo != replay[j].seqNo)
            && (forall e :: e in replay ==>
                  && e.threadId in checkpoints && e.seqNo <= checkpoints[e.threadId]
                  && (e.cursor.None?
                      || (e.cursor.value.stream == cursor.stream && e.cursor.value.seqNo <= cursor.seqNo)))
  {
    var seen: set<Key> := {};
    var i := 0;
    while i < |replay|
      invariant 0 <= i <= |replay|
      invariant forall k :: k in seen <==> exists j :: 0 <= j < i && KeyOf(replay[j]) == k
      invariant ValidReplay(replay[..i], checkpoints, cursor)
    {
      var event := replay[i];
      var key := KeyOf(event);
      if key in seen {
        return false;
      }
      seen := seen + {key};
      if event.threadId !in checkpoints || event.seqNo > checkpoints[event.threadId]
         || (event.cursor.Some? &&
             (event.cursor.value.stream != cursor.stream || event.cursor.value.seqNo > cursor.seqNo))
      {
        return false;
      }
      i := i + 1;
    }
    assert replay[..i] == replay;
    return true;
  }

  // ---------------------------------------------------------------- order does not matter

  lemma {:induction false} CountsAtLeastTwice<T>(s: seq<T>, i: nat, j: nat)
    requires i < j < |s| && s[i] == s[j]
    ensures multiset(s)[s[i]] >= 2
  {
    assert s == s[..j] + s[j..] && s[i] in s[..j] && s[j] in s[j..];
  }

  /** Validity in terms of the events as an unordered collection. */
  ghost predicate ValidCollection(events: multiset<Envelope>, checkpoints: Checkpoints, cursor: Cursor) {
    && (forall e :: e in events ==> events[e] == 1 && Covered(e, checkpoints, cursor))
    && (forall e, f :: e in events && f in events && KeyOf(e) == KeyOf(f) ==> e == f)
  }

  lemma ValidReplayIsUnordered(replay: seq<Envelope>, checkpoints: Checkpoints, cursor: Cursor)
    ensures ValidReplay(replay, checkpoints, cursor) <==> ValidCollection(multiset(replay), checkpoints, cursor)
  {
    if ValidReplay(replay, checkpoints, cursor) {
      assert Distinct(replay);
      forall e | e in multiset(replay)
        ensures multiset(replay)[e] == 1
      {
        DistinctCounts(replay, e);
      }
    }
    if ValidCollection(multiset(replay), checkpoints, cursor) {
      assert forall i :: 0 <= i < |replay| ==> replay[i] in multiset(replay);
      forall i, j | 0 <= i < j < |replay|
        ensures KeyOf(replay[i]) != KeyOf(replay[j])
      {
        assert replay[i] in multiset(replay) && replay[j] in multiset(replay);
        if replay[i] == replay[j] {
          CountsAtLeastTwice(replay, i, j);
        }
      }
    }
  }

  /** The order of the replay has no influence on whether it is accepted. */
  lemma OrderIsIrrelevant(replay: seq<Envelope>, permuted: seq<Envelope>, checkpoints: Checkpoints, cursor: Cursor)
    requires multiset(replay) == multiset(permuted)
    ensures ValidReplay(replay, checkpoints, cursor) <==> ValidReplay(permuted, checkpoints, cursor)
  {
    ValidReplayIsUnordered(replay, checkpoints, cursor);
    ValidReplayIsUnordered(permuted, checkpoints, cursor);
  }

  // ---------------------------------------------------------------- how many events fit

  function OfThread(thread: string, n: nat): (s: set<Key>)
    ensures forall k :: k in s <==> k.0 == thread && k.1 <= n
    ensures |s| == n + 1
  {
    if n == 0 then {(thread, 0)} else OfThread(thread, n - 1) + {(thread, n)}
  }

  /** Every position the checkpoints of `threads` cover. */
  ghost function Slots(checkpoints: Checkpoints, threads: seq<string>): set<Key>
    requires forall t :: t in threads ==> t in checkpoints
  {
    if threads == [] then {}
    else OfThread(threads[0], checkpoints[threads[0]]) + Slots(checkpoints, threads[1..])
  }

  /** checkpoint + 1 summed over `threads`. */
  function Total(checkpoints: Checkpoints, threads: seq<string>): nat
    requires forall t :: t in threads ==> t in checkpoints
  {
    if threads == [] then 0 else checkpoints[threads[0]] + 1 + Total(checkpoints, threads[1..])
  }

  lemma {:induction false} SlotsAddUp(checkpoints: Checkpoints, threads: seq<string>)
    requires forall t :: t in threads ==> t in checkpoints
    requires Distinct(threads)
    ensures forall k :: k in Slots(checkpoints, threads) <==> k.0 in threads && k.1 <= checkpoints[k.0]
    ensures |Slots(checkpoints, threads)| == Total(checkpoints, threads)
  {
    if threads != [] {
      SlotsAddUp(checkpoints, threads[1..]);
      var own, rest := OfThread(threads[0], checkpoints[threads[0]]), Slots(checkpoints, threads[1..]);
      assert threads[0] !in threads[1..];
      assert own !! rest;
      assert forall t :: t in threads <==> t == threads[0] || t in threads[1..];
    }
  }

  function Keys(replay: seq<Envelope>): (keys: seq<Key>)
    ensures |keys| == |replay| && forall i :: 0 <= i < |replay| ==> keys[i] == KeyOf(replay[i])
  {
    seq(|replay|, i requires 0 <= i < |replay| => KeyOf(replay[i]))
  }

  function EventsOf(replay: seq<Envelope>, thread: string): (events: seq<Envelope>)
    ensures forall e :: e in events <==> e in replay && e.threadId == thread
  {
    if replay == [] then []
    else (if replay[0].threadId == thread then [replay[0]] else []) + EventsOf(replay[1..], thread)
  }

  lemma {:induction false} EventsOfStaysValid(
      replay: seq<Envelope>, thread: string, checkpoints: Checkpoints, cursor: Cursor)
    requires ValidReplay(replay, checkpoints, cursor)
    ensures ValidReplay(EventsOf(replay, thread), checkpoints, cursor)
  {
    if replay != [] {
      EventsOfStaysValid(replay[1..], thread, checkpoints, cursor);
      var events := EventsOf(replay, thread);
      assert forall i :: 0 <= i < |events| ==> events[i] in replay;
      assert forall e :: e in replay[1..] ==> KeyOf(e) != KeyOf(replay[0]);
    }
  }

  /** A smaller set of positions bounds a smaller number of events. */
  lemma {:induction false} Pigeonhole(s: set<Key>, t: set<Key>)
    requires s <= t
    ensures |s| <= |t|
  {
    if s != {} {
      var x :| x in s;
      Pigeonhole(s - {x}, t - {x});
    }
  }

  /** An accepted replay has at most checkpoint + 1 events of a thread. */
  lemma ThreadIsBounded(replay: seq<Envelope>, thread: string, checkpoints: Checkpoints, cursor: Cursor)
    requires ValidReplay(replay, checkpoints, cursor)
    ensures |EventsOf(replay, thread)| <= if thread in checkpoints then checkpoints[thread] + 1 else 0
  {
    var events := EventsOf(replay, thread);
    EventsOfStaysValid(replay, thread, checkpoints, cursor);
    assert forall i :: 0 <= i < |events| ==> events[i] in events;
    if thread in checkpoints {
      var own := OfThread(thread, checkpoints[thread]);
      DistinctSize(Keys(events));
      assert Elems(Keys(events)) <= own;
      Pigeonhole(Elems(Keys(events)), own);
    }
  }

  /** An accepted replay has at most as many events as checkpoint + 1 summed over the threads, in any order. */
  lemma ReplayIsBounded(replay: seq<Envelope>, checkpoints: Checkpoints, cursor: Cursor, threads: seq<string>)
    requires ValidReplay(replay, checkpoints, cursor)
    requires Distinct(threads) && forall t :: t in threads <==> t in checkpoints
    ensures |replay| <= Total(checkpoints, threads)
  {
    DistinctSize(Keys(replay));
    SlotsAddUp(checkpoints, threads);
    assert Elems(Keys(replay)) <= Slots(checkpoints, threads);
    Pigeonhole(Elems(Keys(replay)), Slots(checkpoints, threads));
  }
}
