/** When the order in which pushes return is the order in which their items are delivered. */
module MpmcOrder {
  import opened Wrappers
  import opened MpmcProtocol
  import opened MpmcTheorems

  // ---- what the logs keep ----

  /** A published position is in the log of returned pushes. */
  ghost predicate PublishedIsCompleted<V>(s: State<V>)
    requires |s.slots| > 0
  {
    forall p: nat | p < s.enq && Published(s, p) :: p in s.completed
  }

  lemma SlotStepKeepsCompleted<V>(s: State<V>, s': State<V>, pos: nat)
    requires Sequences(s) && PublishedIsCompleted(s) && pos < s.enq == s'.enq
    requires |s'.slots| == |s.slots| && s.completed <= s'.completed && pos in s'.completed
    requires At(s, pos).sequence >= pos && s'.slots == s.slots[Index(|s.slots|, pos) := s'.slots[Index(|s.slots|, pos)]]
    requires At(s', pos).sequence <= pos + |s.slots| && (At(s, pos).sequence == pos ==> s.deq <= pos)
    ensures PublishedIsCompleted(s')
  {
    hide Index;
    var w := SetSlot(s, pos, At(s', pos));
    OtherSlots(s, pos, At(s', pos));
    assert w.slots == s'.slots && forall p: nat :: At(w, p) == At(s', p);
    forall p: nat | p < s'.enq && Published(s', p)
      ensures p in s'.completed
    {
      if p != pos {
        assert Published(s, p);
        assert s.completed == s'.completed[..|s.completed|];
      }
    }
  }

  lemma StepKeepsCompleted<V>(s: State<V>, t: Tid, a: Action<V>)
    requires Inv(s) && PublishedIsCompleted(s) && Enabled(s, t, a)
    ensures |Act(s, t, a).slots| > 0 && PublishedIsCompleted(Act(s, t, a))
  {
    hide Index, Cells, Deliveries;
    var s' := Act(s, t, a);
    assert ThreadOk(s, t, s.threads[t]);
    match s.threads[t] {
      case PushWrite(_, pos) =>
        PublishedStays(s, s', pos);
      case PushStore(_, pos) =>
        SlotStepKeepsCompleted(s, s', pos);
      case PopRead(pos) =>
        PublishedStays(s, s', pos);
      case PopStore(pos, _) =>
        assert Published(s, pos);
        SlotStepKeepsCompleted(s, s', pos);
      case _ =>
        assert forall p: nat :: At(s', p) == At(s, p);
    }
  }

  /** Steps that touch a value leave every sequence number alone. */
  lemma PublishedStays<V>(s: State<V>, s': State<V>, pos: nat)
    requires |s.slots| > 0 && PublishedIsCompleted(s) && s'.enq == s.enq && s'.completed == s.completed
    requires exists v :: s'.slots == SetSlot(s, pos, At(s, pos).(value := v)).slots
    ensures PublishedIsCompleted(s')
  {
    hide Index;
    var v :| s'.slots == SetSlot(s, pos, At(s, pos).(value := v)).slots;
    OtherSlots(s, pos, At(s, pos).(value := v));
    assert forall p: nat :: At(s', p) == At(SetSlot(s, pos, At(s, pos).(value := v)), p);
    assert forall p: nat :: At(s', p).sequence == At(s, p).sequence;
  }

  /** Steps only append to the log of reservations and to that of returned pushes. */
  lemma StepExtends<V>(s: State<V>, t: Tid, a: Action<V>)
    requires Enabled(s, t, a)
    ensures var s' := Act(s, t, a);
            && s.reserved <= s'.reserved && s.completed <= s'.completed
            && |s'.completed| <= |s.completed| + 1 && |s'.slots| == |s.slots|
  {
    hide Index;
  }

  lemma {:induction false} RunExtends<V>(s: State<V>, moves: seq<Move<V>>)
    requires Runs(s, moves)
    ensures s.reserved <= After(s, moves).reserved && s.completed <= After(s, moves).completed
    ensures |After(s, moves).slots| == |s.slots|
    decreases |moves|
  {
    hide Act, Enabled;
    if moves != [] {
      StepExtends(s, moves[0].t, moves[0].a);
      RunExtends(Act(s, moves[0].t, moves[0].a), moves[1..]);
    }
  }

  lemma {:induction false} RunKeepsCompleted<V>(s: State<V>, moves: seq<Move<V>>)
    requires Inv(s) && PublishedIsCompleted(s) && Runs(s, moves)
    ensures Inv(After(s, moves)) && PublishedIsCompleted(After(s, moves))
    decreases |moves|
  {
    hide Act, Enabled, Published;
    if moves != [] {
      StepKeepsCompleted(s, moves[0].t, moves[0].a);
      ActKeepsInv(s, moves[0].t, moves[0].a);
      RunKeepsCompleted(Act(s, moves[0].t, moves[0].a), moves[1..]);
    }
  }

  lemma {:induction false} RunSplits<V>(s: State<V>, moves: seq<Move<V>>, n: nat)
    requires Runs(s, moves) && n <= |moves|
    ensures Runs(s, moves[..n]) && Runs(After(s, moves[..n]), moves[n..])
    ensures After(After(s, moves[..n]), moves[n..]) == After(s, moves)
    decreases |moves|
  {
    hide Act, Enabled;
    if n > 0 {
      var s1 := Act(s, moves[0].t, moves[0].a);
      RunSplits(s1, moves[1..], n - 1);
      assert moves[..n][0] == moves[0] && moves[..n][1..] == moves[1..][..n - 1];
      assert moves[1..][n - 1..] == moves[n..];
    }
  }

  /** The moment of a run at which the first n pushes had returned. */
  lemma {:induction false} WhenReturned<V>(s: State<V>, moves: seq<Move<V>>, n: nat) returns (k: nat)
    requires Runs(s, moves) && |s.completed| <= n <= |After(s, moves).completed|
    ensures k <= |moves| && Runs(s, moves[..k]) && |After(s, moves[..k]).completed| == n
    decreases |moves|
  {
    hide Act, Enabled;
    if |s.completed| == n {
      return 0;
    }
    StepExtends(s, moves[0].t, moves[0].a);
    k := WhenReturned(Act(s, moves[0].t, moves[0].a), moves[1..], n);
    assert moves[..k + 1][0] == moves[0] && moves[..k + 1][1..] == moves[1..][..k];
    k := k + 1;
  }

  lemma StartIsCompleted<V>(s: State<V>)
    requires Init(s)
    ensures Inv(s) && PublishedIsCompleted(s)
  {
    InitInv(s);
  }

  // ---- real time ----

  /** A push that has returned by the n-th step is ahead of every push that wins its position later:
    * with one consumer its item is delivered, and delivered first, whenever the later one is. */
  lemma RealTimeOrder<V>(s0: State<V>, moves: seq<Move<V>>, n: nat, c: Tid, i: nat, q: nat)
    requires Init(s0) && Runs(s0, moves) && n <= |moves| && Runs(s0, moves[..n])
    requires i < |After(s0, moves[..n]).completed|
    requires |After(s0, moves[..n]).reserved| <= q < |After(s0, moves).reserved|
    ensures After(s0, moves[..n]).completed[i] < q
    ensures var s, p := After(s0, moves), After(s0, moves[..n]).completed[i];
            OnlyConsumer(moves, c) && q < |s.delivered| ==>
              p < |s.reserved| && s.delivered[p] == (p, s.reserved[p].1) && s.delivered[q] == (q, s.reserved[q].1)
  {
    hide Act, Enabled, Published;
    InitInv(s0);
    RunKeepsInv(s0, moves[..n]);
    LogIsPublished(After(s0, moves[..n]));
    if OnlyConsumer(moves, c) {
      FifoInReservationOrder(s0, moves, c);
    }
  }

  // ---- when two pushes return against their positions ----

  /** At some moment of the run the later position is published while the winner of the earlier one is
    * still between its compare-exchange and its sequence store. */
  ghost predicate Overtaken<V>(s: State<V>, moves: seq<Move<V>>, p: nat, q: nat)
    requires Runs(s, moves)
  {
    exists n: nat :: n <= |moves| && Runs(s, moves[..n]) && OvertakenNow(After(s, moves[..n]), p, q)
  }

  ghost predicate OvertakenNow<V>(s: State<V>, p: nat, q: nat) {
    |s.slots| > 0 && p < |s.reserved| && q < s.enq && Published(s, q) && BeingWritten(s, p)
  }

  lemma LogIsDistinct<V>(s: State<V>)
    requires Inv(s)
    ensures forall i, j | 0 <= i < |s.completed| && 0 <= j < |s.completed| && s.completed[i] == s.completed[j] :: i == j
  {
    hide Index, Cells, Threads;
  }

  lemma LogIsPublished<V>(s: State<V>)
    requires Inv(s)
    ensures |s.reserved| == s.enq && |s.slots| > 0
    ensures forall k | 0 <= k < |s.completed| :: s.completed[k] < s.enq && Published(s, s.completed[k])
    ensures PublishedIsCompleted(s) ==> forall p: nat :: p < s.enq && Published(s, p) ==> p in s.completed
  {
  }

  lemma NotReturnedIsBeingWritten<V>(s: State<V>, p: nat)
    requires Inv(s) && p < s.enq
    ensures p in s.completed ==> !BeingWritten(s, p)
    ensures PublishedIsCompleted(s) && p !in s.completed ==> BeingWritten(s, p)
  {
    BeingWrittenIffUnpublished(s, p);
  }

  /** Two pushes return against the order of their positions if and only if the later one is published
    * while the earlier one is still being written. */
  lemma ReturnsAgainstPositionsIff<V>(s0: State<V>, moves: seq<Move<V>>, i: nat, j: nat)
    requires Init(s0) && Runs(s0, moves)
    requires i < |After(s0, moves).completed| && j < |After(s0, moves).completed|
    requires After(s0, moves).completed[j] < After(s0, moves).completed[i]
    ensures i < j <==> Overtaken(s0, moves, After(s0, moves).completed[j], After(s0, moves).completed[i])
  {
    hide Act, Enabled, Inv, PublishedIsCompleted, Published, BeingWritten;
    var s := After(s0, moves);
    var p, q := s.completed[j], s.completed[i];
    StartIsCompleted(s0);
    RunKeepsCompleted(s0, moves);
    if i < j {
      var n := WhenReturned(s0, moves, i + 1);
      OvertakenAt(s0, moves, i, j, n);
    }
    if Overtaken(s0, moves, p, q) {
      var n: nat :| n <= |moves| && Runs(s0, moves[..n]) && OvertakenNow(After(s0, moves[..n]), p, q);
      ReturnedByThen(s0, moves, i, j, n);
    }
  }

  lemma OvertakenAt<V>(s0: State<V>, moves: seq<Move<V>>, i: nat, j: nat, n: nat)
    requires Init(s0) && Runs(s0, moves) && Inv(After(s0, moves)) && i < j < |After(s0, moves).completed|
    requires After(s0, moves).completed[j] < After(s0, moves).completed[i]
    requires n <= |moves| && Runs(s0, moves[..n]) && |After(s0, moves[..n]).completed| == i + 1
    ensures OvertakenNow(After(s0, moves[..n]), After(s0, moves).completed[j], After(s0, moves).completed[i])
  {
    hide Act, Enabled, Index, Inv, PublishedIsCompleted, Published, BeingWritten;
    var s, now := After(s0, moves), After(s0, moves[..n]);
    StartIsCompleted(s0);
    RunKeepsCompleted(s0, moves[..n]);
    RunSplits(s0, moves, n);
    RunExtends(now, moves[n..]);
    assert now.completed[i] == s.completed[i];
    LogIsDistinct(s);
    LogIsPublished(now);
    assert forall k | 0 <= k < |now.completed| :: now.completed[k] == s.completed[k];
    NotReturnedIsBeingWritten(now, s.completed[j]);
  }

  lemma ReturnedByThen<V>(s0: State<V>, moves: seq<Move<V>>, i: nat, j: nat, n: nat)
    requires Init(s0) && Runs(s0, moves) && Inv(After(s0, moves))
    requires i < |After(s0, moves).completed| && j < |After(s0, moves).completed|
    requires n <= |moves| && Runs(s0, moves[..n])
    requires OvertakenNow(After(s0, moves[..n]), After(s0, moves).completed[j], After(s0, moves).completed[i])
    ensures i < j
  {
    hide Act, Enabled, Index, Inv, PublishedIsCompleted, Published, BeingWritten;
    var s, now := After(s0, moves), After(s0, moves[..n]);
    StartIsCompleted(s0);
    RunKeepsCompleted(s0, moves[..n]);
    RunSplits(s0, moves, n);
    RunExtends(now, moves[n..]);
    LogIsPublished(now);
    NotReturnedIsBeingWritten(now, s.completed[j]);
    var k :| 0 <= k < |now.completed| && now.completed[k] == s.completed[i];
    assert forall m | 0 <= m < |now.completed| :: now.completed[m] == s.completed[m];
    LogIsDistinct(s);
  }

  // ---- one push at a time ----

  predicate InPush<V>(pc: Pc<V>) {
    pc.PushLoad? || pc.PushSeq? || pc.PushCas? || pc.PushWrite? || pc.PushStore?
  }

  predicate Unpublished<V>(pc: Pc<V>) {
    pc.PushWrite? || pc.PushStore?
  }

  /** No push of the run begins while another one is in flight. */
  ghost predicate OneAtATime<V>(s: State<V>, moves: seq<Move<V>>)
    requires Runs(s, moves)
    decreases |moves|
  {
    moves == [] ||
    ((moves[0].a.BeginPush? ==> forall t | t in s.threads :: !InPush(s.threads[t]))
     && OneAtATime(Act(s, moves[0].t, moves[0].a), moves[1..]))
  }

  /** At most one push is in flight, and all others returned in the order of their positions. */
  ghost predicate Serial<V>(s: State<V>) {
    && (forall t, u | t in s.threads && u in s.threads && InPush(s.threads[t]) && InPush(s.threads[u]) :: t == u)
    && (forall k | 0 <= k < |s.completed| :: s.completed[k] == k)
    && |s.completed| <= s.enq
    && (forall t | t in s.threads && Unpublished(s.threads[t]) ::
          |s.completed| == s.threads[t].pos && s.enq == s.threads[t].pos + 1)
    && (|s.completed| < s.enq ==> exists t :: t in s.threads && Unpublished(s.threads[t]))
  }

  /** Any step but winning a position and publishing it. */
  lemma SerialMoves<V>(s: State<V>, s': State<V>, t: Tid)
    requires Serial(s) && t in s.threads && t in s'.threads && s'.threads == s.threads[t := s'.threads[t]]
    requires s'.completed == s.completed && s'.enq == s.enq
    requires InPush(s'.threads[t]) && !InPush(s.threads[t]) ==> forall u | u in s.threads :: !InPush(s.threads[u])
    requires Unpublished(s'.threads[t]) <==> Unpublished(s.threads[t])
    requires Unpublished(s.threads[t]) ==> s'.threads[t].pos == s.threads[t].pos
    ensures Serial(s')
  {
    assert forall u | u in s.threads && u != t :: s'.threads[u] == s.threads[u];
    if |s.completed| < s.enq {
      var u :| u in s.threads && Unpublished(s.threads[u]);
      assert u in s'.threads && Unpublished(s'.threads[u]);
    }
  }

  lemma SerialReserve<V>(s: State<V>, t: Tid, v: V)
    requires Serial(s) && t in s.threads && s.threads[t].PushCas?
    ensures Serial(Reserve(s, t, v))
  {
    var s' := Reserve(s, t, v);
    assert forall u | u in s.threads && u != t :: s'.threads[u] == s.threads[u] && !InPush(s.threads[u]);
    assert t in s'.threads && Unpublished(s'.threads[t]);
  }

  lemma SerialPublish<V>(s: State<V>, t: Tid, pos: nat)
    requires Serial(s) && |s.slots| > 0 && t in s.threads && s.threads[t].PushStore? && s.threads[t].pos == pos
    ensures Serial(Publish(s, t, pos))
  {
    hide Index;
    var s' := Publish(s, t, pos);
    assert forall u | u in s.threads && u != t :: s'.threads[u] == s.threads[u] && !InPush(s.threads[u]);
  }

  lemma SerialStep<V>(s: State<V>, t: Tid, a: Action<V>)
    requires Serial(s) && Enabled(s, t, a)
    requires a.BeginPush? ==> forall u | u in s.threads :: !InPush(s.threads[u])
    ensures Serial(Act(s, t, a))
  {
    hide Index, Serial;
    var s' := Act(s, t, a);
    if s.threads[t].PushStore? {
      SerialPublish(s, t, s.threads[t].pos);
    } else if s'.enq != s.enq {
      SerialReserve(s, t, s.threads[t].v);
    } else {
      SerialMoves(s, s', t);
    }
  }

  lemma {:induction false} SerialRun<V>(s: State<V>, moves: seq<Move<V>>)
    requires Serial(s) && Runs(s, moves) && OneAtATime(s, moves)
    ensures Serial(After(s, moves))
    decreases |moves|
  {
    hide Act, Enabled, Serial;
    if moves != [] {
      SerialStep(s, moves[0].t, moves[0].a);
      SerialRun(Act(s, moves[0].t, moves[0].a), moves[1..]);
    }
  }

  /** When no push begins while another is in flight, pushes return in the order of their positions, and
    * a single consumer delivers the items in the order in which their pushes returned. */
  lemma SerialPushesKeepOrder<V>(s0: State<V>, moves: seq<Move<V>>, c: Tid)
    requires Init(s0) && Runs(s0, moves) && OneAtATime(s0, moves)
    ensures var s := After(s0, moves);
            && (forall k | 0 <= k < |s.completed| :: s.completed[k] == k)
            && |s.reserved| - 1 <= |s.completed| <= |s.reserved|
    ensures var s := After(s0, moves);
            OnlyConsumer(moves, c) ==>
              |s.delivered| <= |s.completed| <= |s.reserved|
              && forall k | 0 <= k < |s.delivered| :: s.delivered[k] == (s.completed[k], s.reserved[k].1)
  {
    hide Act, Enabled;
    SerialRun(s0, moves);
    StartIsCompleted(s0);
    RunKeepsCompleted(s0, moves);
    var s := After(s0, moves);
    if OnlyConsumer(moves, c) {
      FifoInReservationOrder(s0, moves, c);
      DeliveredIsReturned(s);
    }
  }

  lemma DeliveredIsReturned<V>(s: State<V>)
    requires Inv(s) && PublishedIsCompleted(s)
    ensures forall k | 0 <= k < |s.delivered| :: s.delivered[k].0 in s.completed
  {
    forall k | 0 <= k < |s.delivered|
      ensures s.delivered[k].0 in s.completed
    {
      assert Published(s, s.delivered[k].0);
    }
  }

  // ---- a run in which the orders differ ----

  lemma PopIsReachable<V(!new)>(s: State<V>, t: Tid)
    requires Reachable(s) && |s.slots| > 0 && t in s.threads && s.threads[t].Idle?
    ensures Reachable(PopAlone(s, t))
  {
    hide Reachable, Index;
    StepIsReachable(s, t, BeginPop);
    var s1 := Act(s, t, BeginPop);
    StepIsReachable(s1, t, Advance(false));
    var s2 := Act(s1, t, Advance(false));
    StepIsReachable(s2, t, Advance(false));
    var s3 := Act(s2, t, Advance(false));
    if s3.threads[t].PopCas? {
      StepIsReachable(s3, t, Advance(false));
      var s4 := Act(s3, t, Advance(false));
      StepIsReachable(s4, t, Advance(false));
      StepIsReachable(Act(s4, t, Advance(false)), t, Advance(false));
    }
  }

  /** Producer 1 returns before producer 0, and the one consumer receives the item of producer 0 first. */
  lemma CompletionOrderIsNotDeliveryOrder() returns (s: State<int>)
    ensures Reachable(s) && s.completed == [1, 0] && s.delivered == [(0, 100), (1, 101)]
    ensures s.claimed == [2, 2] && s.reserved == [(0, 100), (1, 101)]
  {
    hide Reachable;
    var h := HeadStalls();
    FinishIsReachable(h, 0);
    var s1 := SetSlot(Goto(h, 0, Idle(Pushed)), 0, Slot(1, Some(100))).(completed := h.completed + [0]);
    PopIsReachable(s1, 2);
    PopAloneIs(s1, 2, 100);
    var s2 := Dequeued(s1, 2, 100);
    assert At(s2, 1) == At(s1, 1) == At(h, 1);
    PopIsReachable(s2, 2);
    PopAloneIs(s2, 2, 101);
    s := Dequeued(s2, 2, 101);
  }
}
