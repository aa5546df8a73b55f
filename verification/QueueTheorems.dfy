/** What the ring of queue.rs guarantees over every run: any number of producers and consumers,
  * every interleaving of their atomic steps. */
module MpmcTheorems {
  import opened Wrappers
  import opened MpmcProtocol

  datatype Move<V> = Move(t: Tid, a: Action<V>)

  predicate Runs<V>(s: State<V>, moves: seq<Move<V>>)
    decreases |moves|
  {
    moves == [] || (Enabled(s, moves[0].t, moves[0].a) && Runs(Act(s, moves[0].t, moves[0].a), moves[1..]))
  }

  function After<V>(s: State<V>, moves: seq<Move<V>>): State<V>
    requires Runs(s, moves)
    decreases |moves|
  {
    if moves == [] then s else After(Act(s, moves[0].t, moves[0].a), moves[1..])
  }

  lemma {:induction false} RunKeepsInv<V>(s: State<V>, moves: seq<Move<V>>)
    requires Inv(s) && Runs(s, moves)
    ensures Inv(After(s, moves))
    decreases |moves|
  {
    if moves != [] {
      ActKeepsInv(s, moves[0].t, moves[0].a);
      RunKeepsInv(Act(s, moves[0].t, moves[0].a), moves[1..]);
    }
  }

  ghost predicate Reachable<V(!new)>(s: State<V>) {
    exists s0: State<V>, moves :: Init(s0) && Runs(s0, moves) && s == After(s0, moves)
  }

  lemma ReachableInv<V(!new)>(s: State<V>)
    requires Reachable(s)
    ensures Inv(s)
  {
    var s0: State<V>, moves :| Init(s0) && Runs(s0, moves) && s == After(s0, moves);
    InitInv(s0);
    RunKeepsInv(s0, moves);
  }

  // ---- safety in every reachable state ----

  lemma CountersStayWithinOneTurn<V(!new)>(s: State<V>)
    requires Reachable(s)
    ensures s.deq <= s.enq <= s.deq + |s.slots|
  {
    ReachableInv(s);
  }

  lemma MutualExclusion<V(!new)>(s: State<V>, t: Tid, u: Tid)
    requires Reachable(s) && t in s.threads && u in s.threads && t != u
    requires s.threads[t].Owning() && s.threads[u].Owning()
    ensures |s.slots| > 0 && s.threads[t].pos % |s.slots| != s.threads[u].pos % |s.slots|
  {
    ReachableInv(s);
    OwnersHoldDifferentSlots(s, t, u);
    IndexIsModulo(|s.slots|, s.threads[t].pos);
    IndexIsModulo(|s.slots|, s.threads[u].pos);
  }

  /** A read finds an initialised cell, a write overwrites no live value, and the sequence number a
    * thread checked before its compare-exchange still stands when it touches the cell. */
  lemma CellAccessesAreSafe<V(!new)>(s: State<V>, t: Tid)
    requires Reachable(s) && t in s.threads
    ensures |s.slots| > 0
    ensures s.threads[t].PushWrite? ==> At(s, s.threads[t].pos) == Slot(s.threads[t].pos, None)
    ensures s.threads[t].PopRead? ==>
              && At(s, s.threads[t].pos).sequence == s.threads[t].pos + 1
              && At(s, s.threads[t].pos).value.Some?
  {
    ReachableInv(s);
    assert ThreadOk(s, t, s.threads[t]);
  }

  /** Nothing is lost, invented or duplicated: the item of a reserved position is in one place. */
  ghost predicate BeingWritten<V>(s: State<V>, p: nat)
    requires p < |s.reserved|
  {
    s.reserved[p].0 in s.threads && s.threads[s.reserved[p].0].OwnsPush(p)
    && s.threads[s.reserved[p].0].v == s.reserved[p].1
  }

  ghost predicate InTheRing<V>(s: State<V>, p: nat)
    requires p < |s.reserved| && |s.slots| > 0
  {
    s.deq <= p && At(s, p) == Slot(p + 1, Some(s.reserved[p].1))
  }

  ghost predicate BeingRead<V>(s: State<V>, p: nat) {
    p < |s.claimed| && s.claimed[p] in s.threads && s.threads[s.claimed[p]].OwnsPop(p)
  }

  ghost predicate HandedOut<V>(s: State<V>, p: nat)
    requires p < |s.reserved|
  {
    (p, s.reserved[p].1) in s.delivered
  }

  function Ones(a: bool, b: bool, c: bool, d: bool): nat {
    (if a then 1 else 0) + (if b then 1 else 0) + (if c then 1 else 0) + if d then 1 else 0
  }

  lemma HandedOutIffReleased<V>(s: State<V>, p: nat)
    requires Inv(s) && p < s.enq
    ensures HandedOut(s, p) <==> p < s.deq && Released(s, p)
  {
    if HandedOut(s, p) {
      var k :| 0 <= k < |s.delivered| && s.delivered[k] == (p, s.reserved[p].1);
      assert Released(s, s.delivered[k].0);
    }
    if p < s.deq && Released(s, p) {
      assert IsDelivered(s, p);
    }
  }

  lemma BeingWrittenIffUnpublished<V>(s: State<V>, p: nat)
    requires Inv(s) && p < s.enq
    ensures BeingWritten(s, p) <==> At(s, p).sequence == p
  {
    if s.reserved[p].0 in s.threads {
      assert ThreadOk(s, s.reserved[p].0, s.threads[s.reserved[p].0]);
    }
  }

  lemma BeingReadIffClaimed<V>(s: State<V>, p: nat)
    requires Inv(s) && p < s.enq
    ensures BeingRead(s, p) <==> p < s.deq && At(s, p).sequence == p + 1
  {
    if p < s.deq && s.claimed[p] in s.threads {
      assert ThreadOk(s, s.claimed[p], s.threads[s.claimed[p]]);
    }
  }

  lemma EveryItemIsInOnePlace<V(!new)>(s: State<V>, p: nat)
    requires Reachable(s) && p < s.enq
    ensures |s.reserved| == s.enq && |s.slots| > 0
    ensures Ones(BeingWritten(s, p), InTheRing(s, p), BeingRead(s, p), HandedOut(s, p)) == 1
  {
    ReachableInv(s);
    HandedOutIffReleased(s, p);
    BeingWrittenIffUnpublished(s, p);
    BeingReadIffClaimed(s, p);
  }

  /** The pop that won position p returned exactly the value of the push that won p, and only one
    * pop ever returns the item of p. */
  lemma PopReturnsWhatPushWrote<V(!new)>(s: State<V>)
    requires Reachable(s)
    ensures forall k | 0 <= k < |s.delivered| ::
              s.delivered[k].0 < |s.reserved| && s.delivered[k].1 == s.reserved[s.delivered[k].0].1
    ensures forall j, k | 0 <= j < k < |s.delivered| :: s.delivered[j].0 != s.delivered[k].0
  {
    ReachableInv(s);
  }

  // ---- what `Full` and `None` mean ----

  /** `push` answers Full at its sequence load exactly when it is looking at the newest position and
    * the position one turn earlier has not been released. */
  lemma FullIff<V(!new)>(s: State<V>, t: Tid, spurious: bool)
    requires Reachable(s) && t in s.threads && s.threads[t].PushSeq?
    ensures |s.slots| > 0
    ensures Act(s, t, Advance(spurious)).threads[t] == Idle(Full) <==>
            s.threads[t].pos == s.enq && s.enq >= |s.slots| && !Released(s, s.enq - |s.slots|)
  {
    ReachableInv(s);
    assert ThreadOk(s, t, s.threads[t]);
    var pos := s.threads[t].pos;
    if s.enq >= |s.slots| {
      assert At(s, s.enq - |s.slots|) == At(s, s.enq);
    } else {
      assert s.slots[s.enq].sequence >= s.enq;
      assert At(s, s.enq) == s.slots[s.enq];
    }
  }

  /** `pop` answers None at its sequence load exactly when it is looking at the head position and the
    * head has not been published. */
  lemma EmptyIff<V(!new)>(s: State<V>, t: Tid, spurious: bool)
    requires Reachable(s) && t in s.threads && s.threads[t].PopSeq?
    ensures |s.slots| > 0
    ensures Act(s, t, Advance(spurious)).threads[t] == Idle(Empty) <==>
            s.threads[t].pos == s.deq && !Published(s, s.deq)
  {
    ReachableInv(s);
    assert ThreadOk(s, t, s.threads[t]);
  }

  // ---- order ----

  ghost predicate OnlyConsumer<V>(moves: seq<Move<V>>, c: Tid) {
    forall i | 0 <= i < |moves| && moves[i].a.BeginPop? :: moves[i].t == c
  }

  ghost predicate SoloConsumer<V>(s: State<V>, c: Tid) {
    && (forall t | t in s.threads && t != c :: !s.threads[t].Popping())
    && (forall p | 0 <= p < |s.claimed| :: s.claimed[p] == c)
    && (forall k | 0 <= k < |s.delivered| :: s.delivered[k].0 == k)
  }

  lemma SoloConsumerStep<V>(s: State<V>, t: Tid, a: Action<V>, c: Tid)
    requires Inv(s) && SoloConsumer(s, c) && Enabled(s, t, a)
    requires a.BeginPop? ==> t == c
    ensures SoloConsumer(Act(s, t, a), c)
  {
    hide Index, Cells, Deliveries, Completions;
    assert ThreadOk(s, t, s.threads[t]);
    if s.threads[t].PopStore? {
      NextDeliveryIsInOrder(s, c);
    }
  }

  lemma DeliveredInOrderIsReleased<V>(s: State<V>, c: Tid, p: nat)
    requires Inv(s) && SoloConsumer(s, c)
    ensures p < |s.delivered| ==> Released(s, p)
  {
    if p < |s.delivered| {
      assert s.delivered[p].0 == p;
    }
  }

  /** The only consumer has returned every position it claimed except the one in its hands. */
  lemma NextDeliveryIsInOrder<V>(s: State<V>, c: Tid)
    requires Inv(s) && SoloConsumer(s, c) && c in s.threads && s.threads[c].PopStore?
    ensures |s.delivered| == s.threads[c].pos
  {
    var pos, n := s.threads[c].pos, |s.delivered|;
    assert ThreadOk(s, c, s.threads[c]);
    DeliveredInOrderIsReleased(s, c, pos);
    assert !IsDelivered(s, n);
    assert !Released(s, n);
    assert s.threads[s.claimed[n]].OwnsPop(n);
  }

  lemma {:induction false} RunKeepsSoloConsumer<V>(s: State<V>, moves: seq<Move<V>>, c: Tid)
    requires Inv(s) && SoloConsumer(s, c) && Runs(s, moves) && OnlyConsumer(moves, c)
    ensures SoloConsumer(After(s, moves), c) && Inv(After(s, moves))
    decreases |moves|
  {
    if moves != [] {
      SoloConsumerStep(s, moves[0].t, moves[0].a, c);
      ActKeepsInv(s, moves[0].t, moves[0].a);
      RunKeepsSoloConsumer(Act(s, moves[0].t, moves[0].a), moves[1..], c);
    }
  }

  /** With one draining consumer the queue is first-in first-out in the order of reservation. */
  lemma FifoInReservationOrder<V>(s0: State<V>, moves: seq<Move<V>>, c: Tid)
    requires Init(s0) && Runs(s0, moves) && OnlyConsumer(moves, c)
    ensures var s := After(s0, moves);
            && |s.delivered| <= |s.reserved|
            && forall k | 0 <= k < |s.delivered| :: s.delivered[k] == (k, s.reserved[k].1)
  {
    InitInv(s0);
    RunKeepsSoloConsumer(s0, moves, c);
    var s := After(s0, moves);
    if s.delivered != [] {
      assert s.delivered[|s.delivered| - 1].0 < s.deq;
    }
  }

  /** Of two pushes of one producer, the one that returned first is delivered first. */
  lemma ProducerOrderIsKept<V>(s0: State<V>, moves: seq<Move<V>>, c: Tid, i: nat, j: nat)
    requires Init(s0) && Runs(s0, moves) && OnlyConsumer(moves, c)
    requires i < j < |After(s0, moves).completed|
    requires var s := After(s0, moves);
             && s.completed[i] < |s.reserved| && s.completed[j] < |s.reserved|
             && s.reserved[s.completed[i]].0 == s.reserved[s.completed[j]].0
             && s.completed[j] < |s.delivered|
    ensures var s := After(s0, moves);
            && s.completed[i] < s.completed[j]
            && s.delivered[s.completed[i]] == (s.completed[i], s.reserved[s.completed[i]].1)
            && s.delivered[s.completed[j]] == (s.completed[j], s.reserved[s.completed[j]].1)
  {
    InitInv(s0);
    RunKeepsInv(s0, moves);
    FifoInReservationOrder(s0, moves, c);
  }

  // ---- one thread on its own: the ring is a bounded first-in first-out queue ----

  ghost predicate Quiescent<V>(s: State<V>) {
    forall t | t in s.threads :: s.threads[t].Idle?
  }

  /** The values waiting in a quiescent ring, oldest first. */
  ghost function Contents<V>(s: State<V>): (r: seq<V>)
    requires s.deq <= |s.reserved|
    ensures |r| == |s.reserved| - s.deq
  {
    seq(|s.reserved| - s.deq, i requires 0 <= i < |s.reserved| - s.deq => s.reserved[s.deq + i].1)
  }

  lemma QuiescentSlots<V>(s: State<V>)
    requires Inv(s) && Quiescent(s)
    ensures forall p: nat :: s.deq <= p < s.enq ==> At(s, p) == Slot(p + 1, Some(s.reserved[p].1))
    ensures s.enq < s.deq + |s.slots| ==> At(s, s.enq) == Slot(s.enq, None)
    ensures s.enq == s.deq + |s.slots| ==> At(s, s.enq).sequence < s.enq
  {
    if s.enq >= |s.slots| {
      var q: nat := s.enq - |s.slots|;
      assert At(s, q) == At(s, s.enq);
      if q < s.deq {
        assert Released(s, q);
      }
    } else {
      assert At(s, s.enq) == s.slots[s.enq];
    }
  }

  /** A `push` that no other thread disturbs. */
  function PushAlone<V>(s: State<V>, t: Tid, v: V): (r: State<V>)
    requires |s.slots| > 0 && t in s.threads && s.threads[t].Idle?
    ensures r.threads.Keys == s.threads.Keys
  {
    var s2 := Act(Act(Act(s, t, BeginPush(v)), t, Advance(false)), t, Advance(false));
    if s2.threads[t].PushCas?
    then Act(Act(Act(s2, t, Advance(false)), t, Advance(false)), t, Advance(false))
    else s2
  }

  /** A `pop` that no other thread disturbs. */
  function PopAlone<V>(s: State<V>, t: Tid): (r: State<V>)
    requires |s.slots| > 0 && t in s.threads && s.threads[t].Idle?
    ensures r.threads.Keys == s.threads.Keys
  {
    var s2 := Act(Act(Act(s, t, BeginPop), t, Advance(false)), t, Advance(false));
    if s2.threads[t].PopCas?
    then Act(Act(Act(s2, t, Advance(false)), t, Advance(false)), t, Advance(false))
    else s2
  }

  /** The state after an undisturbed `push` into a free slot. */
  function Enqueued<V>(s: State<V>, t: Tid, v: V): State<V>
    requires |s.slots| > 0
  {
    SetSlot(s, s.enq, Slot(s.enq + 1, Some(v)))
    .(enq := s.enq + 1, threads := s.threads[t := Idle(Pushed)],
      reserved := s.reserved + [(t, v)], completed := s.completed + [s.enq])
  }

  lemma PushAloneIs<V>(s: State<V>, t: Tid, v: V)
    requires |s.slots| > 0 && t in s.threads && s.threads[t].Idle?
    requires At(s, s.enq) == Slot(s.enq, None)
    ensures PushAlone(s, t, v) == Enqueued(s, t, v)
  {
    var s2 := Act(Act(Act(s, t, BeginPush(v)), t, Advance(false)), t, Advance(false));
    assert s2 == Goto(s, t, PushCas(v, s.enq));
    var s3 := Act(s2, t, Advance(false));
    assert At(s3, s.enq) == Slot(s.enq, None);
    var s4 := Act(s3, t, Advance(false));
    assert s4 == SetSlot(Goto(s3, t, PushStore(v, s.enq)), s.enq, Slot(s.enq, Some(v)));
    assert Act(s4, t, Advance(false)).slots == Enqueued(s, t, v).slots;
  }

  lemma PushAloneIsFull<V>(s: State<V>, t: Tid, v: V)
    requires |s.slots| > 0 && t in s.threads && s.threads[t].Idle?
    requires At(s, s.enq).sequence < s.enq
    ensures PushAlone(s, t, v) == Goto(s, t, Idle(Full))
  {
  }

  lemma EnqueuedContents<V>(s: State<V>, t: Tid, v: V)
    requires Quiescent(s) && |s.slots| > 0 && t in s.threads && s.deq <= |s.reserved|
    ensures Quiescent(Enqueued(s, t, v)) && Contents(Enqueued(s, t, v)) == Contents(s) + [v]
  {
  }

  lemma PushAloneEnqueues<V>(s: State<V>, t: Tid, v: V)
    requires Inv(s) && Quiescent(s) && t in s.threads
    ensures var s' := PushAlone(s, t, v);
            && s'.deq <= |s'.reserved| && Quiescent(s')
            && (if |Contents(s)| < |s.slots|
                then Contents(s') == Contents(s) + [v] && s'.threads[t] == Idle(Pushed)
                else Contents(s') == Contents(s) && s'.threads[t] == Idle(Full))
  {
    hide PushAlone;
    QuiescentSlots(s);
    if s.enq < s.deq + |s.slots| {
      PushAloneIs(s, t, v);
      EnqueuedContents(s, t, v);
    } else {
      PushAloneIsFull(s, t, v);
      assert Contents(Goto(s, t, Idle(Full))) == Contents(s);
    }
  }

  /** The state after an undisturbed `pop` of a published head. */
  function Dequeued<V>(s: State<V>, t: Tid, v: V): State<V>
    requires |s.slots| > 0
  {
    SetSlot(s, s.deq, Slot(s.deq + |s.slots|, None))
    .(deq := s.deq + 1, threads := s.threads[t := Idle(Popped(v))],
      claimed := s.claimed + [t], delivered := s.delivered + [(s.deq, v)])
  }

  lemma PopAloneIs<V>(s: State<V>, t: Tid, v: V)
    requires |s.slots| > 0 && t in s.threads && s.threads[t].Idle?
    requires At(s, s.deq) == Slot(s.deq + 1, Some(v))
    ensures PopAlone(s, t) == Dequeued(s, t, v)
  {
    var s2 := Act(Act(Act(s, t, BeginPop), t, Advance(false)), t, Advance(false));
    assert s2 == Goto(s, t, PopCas(s.deq));
    var s3 := Act(s2, t, Advance(false));
    assert At(s3, s.deq) == Slot(s.deq + 1, Some(v));
    var s4 := Act(s3, t, Advance(false));
    assert s4 == SetSlot(Goto(s3, t, PopStore(s.deq, v)), s.deq, Slot(s.deq + 1, None));
    assert Act(s4, t, Advance(false)).slots == Dequeued(s, t, v).slots;
  }

  lemma DequeuedContents<V>(s: State<V>, t: Tid, v: V)
    requires Quiescent(s) && |s.slots| > 0 && t in s.threads
    requires s.deq < |s.reserved| && s.reserved[s.deq].1 == v
    ensures Quiescent(Dequeued(s, t, v))
    ensures [v] + Contents(Dequeued(s, t, v)) == Contents(s)
  {
  }

  lemma PopAloneIsEmpty<V>(s: State<V>, t: Tid)
    requires |s.slots| > 0 && t in s.threads && s.threads[t].Idle?
    requires At(s, s.deq).sequence <= s.deq
    ensures PopAlone(s, t) == Goto(s, t, Idle(Empty))
  {
  }

  lemma PopAloneDequeues<V>(s: State<V>, t: Tid)
    requires Inv(s) && Quiescent(s) && t in s.threads
    ensures var s' := PopAlone(s, t);
            && s'.deq <= |s'.reserved| && Quiescent(s')
            && (if Contents(s) != []
                then s'.threads[t].last.Popped? && [s'.threads[t].last.v] + Contents(s') == Contents(s)
                else Contents(s') == Contents(s) && s'.threads[t] == Idle(Empty))
  {
    if s.deq < s.enq {
      var v := s.reserved[s.deq].1;
      assert At(s, s.deq) == Slot(s.deq + 1, Some(v)) by {
        QuiescentSlots(s);
      }
      PopAloneIs(s, t, v);
      DequeuedContents(s, t, v);
    } else {
      PopAloneIsEmpty(s, t);
      assert Contents(Goto(s, t, Idle(Empty))) == Contents(s);
    }
  }

  // ---- completion order is not delivery order ----

  lemma InitIsReachable<V(!new)>(s: State<V>)
    requires Init(s)
    ensures Reachable(s)
  {
    assert Runs(s, []) && After(s, []) == s;
  }

  lemma {:induction false} RunsAppend<V>(s: State<V>, a: seq<Move<V>>, m: Move<V>)
    requires Runs(s, a) && Enabled(After(s, a), m.t, m.a)
    ensures Runs(s, a + [m]) && After(s, a + [m]) == Act(After(s, a), m.t, m.a)
    decreases |a|
  {
    if a == [] {
      assert a + [m] == [m];
      assert Runs(Act(s, m.t, m.a), [m][1..]);
    } else {
      assert (a + [m])[0] == a[0] && (a + [m])[1..] == a[1..] + [m];
      RunsAppend(Act(s, a[0].t, a[0].a), a[1..], m);
    }
  }

  lemma StepIsReachable<V(!new)>(s: State<V>, t: Tid, a: Action<V>)
    requires Reachable(s) && Enabled(s, t, a)
    ensures Reachable(Act(s, t, a))
  {
    var s0: State<V>, moves :| Init(s0) && Runs(s0, moves) && s == After(s0, moves);
    RunsAppend(s0, moves, Move(t, a));
  }

  /** A producer wins the next position and stops just before writing its value. */
  lemma ReserveIsReachable<V(!new)>(s: State<V>, t: Tid, v: V)
    requires Reachable(s) && |s.slots| > 0 && t in s.threads && s.threads[t].Idle?
    requires At(s, s.enq).sequence == s.enq
    ensures Reachable(Goto(s, t, PushWrite(v, s.enq)).(enq := s.enq + 1, reserved := s.reserved + [(t, v)]))
  {
    hide Reachable;
    StepIsReachable(s, t, BeginPush(v));
    var s1 := Goto(s, t, PushLoad(v));
    StepIsReachable(s1, t, Advance(false));
    var s2 := Goto(s, t, PushSeq(v, s.enq));
    assert Act(s1, t, Advance(false)) == s2;
    StepIsReachable(s2, t, Advance(false));
    var s3 := Goto(s, t, PushCas(v, s.enq));
    assert Act(s2, t, Advance(false)) == s3;
    StepIsReachable(s3, t, Advance(false));
    assert Act(s3, t, Advance(false))
        == Goto(s, t, PushWrite(v, s.enq)).(enq := s.enq + 1, reserved := s.reserved + [(t, v)]);
  }

  /** A producer that won a position writes its value, publishes it and returns. */
  lemma FinishIsReachable<V(!new)>(s: State<V>, t: Tid)
    requires Reachable(s) && |s.slots| > 0 && t in s.threads && s.threads[t].PushWrite?
    requires At(s, s.threads[t].pos).sequence == s.threads[t].pos
    ensures var pos := s.threads[t].pos;
            Reachable(SetSlot(Goto(s, t, Idle(Pushed)), pos, Slot(pos + 1, Some(s.threads[t].v)))
                      .(completed := s.completed + [pos]))
  {
    hide Reachable;
    var pos, v := s.threads[t].pos, s.threads[t].v;
    StepIsReachable(s, t, Advance(false));
    var s1 := Act(s, t, Advance(false));
    assert s1 == SetSlot(Goto(s, t, PushStore(v, pos)), pos, Slot(pos, Some(v)));
    StepIsReachable(s1, t, Advance(false));
    assert Act(s1, t, Advance(false)).slots
        == SetSlot(s, pos, Slot(pos + 1, Some(v))).slots;
    assert Act(s1, t, Advance(false))
        == SetSlot(Goto(s, t, Idle(Pushed)), pos, Slot(pos + 1, Some(v))).(completed := s.completed + [pos]);
  }

  /** Two producers and a consumer on an empty ring of eight slots. */
  function Start(): State<int> {
    State(0, 0, seq(8, (i: nat) => Slot(i, None)),
          map[0 := Idle(NoCall), 1 := Idle(NoCall), 2 := Idle(NoCall)], [], [], [], [])
  }

  /** Producer 0 wins position 0 and stalls; producer 1 wins position 1 and finishes its push first.
    * Meanwhile a consumer finds the ring empty although position 1 is published. */
  lemma HeadStalls() returns (s: State<int>)
    ensures Reachable(s) && s.enq == 2 && s.deq == 0 && |s.slots| == 8 && s.completed == [1]
    ensures s.threads.Keys == {0, 1, 2} && s.threads[0] == PushWrite(100, 0) && s.threads[2].Idle?
    ensures At(s, 0) == Slot(0, None) && At(s, 1) == Slot(2, Some(101)) && Published(s, 1)
    ensures s.reserved == [(0, 100), (1, 101)] && s.claimed == [] && s.delivered == []
    ensures PopAlone(s, 2).threads[2] == Idle(Empty)
  {
    hide Reachable;
    InitIsReachable(Start());
    ReserveIsReachable(Start(), 0, 100);
    var s1 := Goto(Start(), 0, PushWrite(100, 0)).(enq := 1, reserved := [(0, 100)]);
    assert Start().reserved + [(0, 100)] == s1.reserved;
    assert At(s1, 1) == Slot(1, None);
    ReserveIsReachable(s1, 1, 101);
    var s2 := Goto(s1, 1, PushWrite(101, 1)).(enq := 2, reserved := s1.reserved + [(1, 101)]);
    FinishIsReachable(s2, 1);
    s := SetSlot(Goto(s2, 1, Idle(Pushed)), 1, Slot(2, Some(101))).(completed := s2.completed + [1]);
    PopAloneIsEmpty(s, 2);
  }
}
