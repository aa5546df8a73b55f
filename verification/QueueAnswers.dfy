/** What the callers of the ring see: the answers of `push` and `pop`, and nothing else. */
module MpmcAnswers {
  import opened Wrappers
  import opened MpmcProtocol
  import opened MpmcTheorems
  import opened MpmcOrder

  datatype Call<V> = PushOf(v: V) | PopOf

  /** What an observer of the calls writes down: the call each thread made last, and the answers by
    * their kind, each with the call that it answers. */
  datatype Ledger<V> = Ledger(
    calls: map<Tid, Call<V>>, pushed: seq<(Tid, Call<V>)>, popped: seq<(Tid, Call<V>, V)>,
    full: seq<(Tid, Call<V>)>, empty: seq<(Tid, Call<V>)>)

  function NewLedger<V>(): Ledger<V> {
    Ledger(map[], [], [], [], [])
  }

  /** Thread t answers `last`. */
  function Answered<V>(l: Ledger<V>, t: Tid, last: Outcome<V>): Ledger<V>
    requires t in l.calls
  {
    var call := l.calls[t];
    match last
    case NoCall => l
    case Pushed => l.(pushed := l.pushed + [(t, call)])
    case Popped(v) => l.(popped := l.popped + [(t, call, v)])
    case Full => l.(full := l.full + [(t, call)])
    case Empty => l.(empty := l.empty + [(t, call)])
  }

  /** A step of t, seen from outside: a call begins, or ends with an answer, or goes on. */
  function Seen<V>(l: Ledger<V>, t: Tid, a: Action<V>, after: Pc<V>): Ledger<V>
    requires a.Advance? ==> t in l.calls
  {
    match a
    case BeginPush(v) => l.(calls := l.calls[t := PushOf(v)])
    case BeginPop => l.(calls := l.calls[t := PopOf])
    case Advance(_) => if after.Idle? then Answered(l, t, after.last) else l
  }

  // ---- the ledger agrees with the ring ----

  ghost predicate InCall<V>(pc: Pc<V>, call: Call<V>) {
    match call
    case PushOf(v) => InPush(pc) && pc.v == v
    case PopOf => pc.Popping()
  }

  ghost predicate CallsKnown<V>(s: State<V>, l: Ledger<V>) {
    forall t | t in s.threads && !s.threads[t].Idle? :: t in l.calls && InCall(s.threads[t], l.calls[t])
  }

  /** The pushes that were told Pushed are those that reserved the completed positions, in this order and
    * with the values that they were called with; the values handed out are those of the delivered
    * positions, each given to the thread that claimed it. */
  ghost predicate Agree<V>(s: State<V>, l: Ledger<V>) {
    && |l.pushed| == |s.completed|
    && (forall k | 0 <= k < |l.pushed| ::
          && s.completed[k] < |s.reserved|
          && l.pushed[k] == (s.reserved[s.completed[k]].0, PushOf(s.reserved[s.completed[k]].1)))
    && |l.popped| == |s.delivered|
    && (forall k | 0 <= k < |l.popped| ::
          && s.delivered[k].0 < |s.claimed|
          && l.popped[k] == (s.claimed[s.delivered[k].0], PopOf, s.delivered[k].1))
    && (forall k | 0 <= k < |l.full| :: l.full[k].1.PushOf?)
    && (forall k | 0 <= k < |l.empty| :: l.empty[k].1.PopOf?)
  }

  /** Every step that answers does what it says, and no other step touches the logs of answers: Pushed
    * completes the position that this call reserved, Popped delivers the one that it claimed, Full and
    * Empty leave the ring as it was. */
  lemma StepAnswers<V>(s: State<V>, t: Tid, a: Action<V>, call: Call<V>)
    requires Inv(s) && Enabled(s, t, a) && a.Advance? && InCall(s.threads[t], call)
    ensures t in Act(s, t, a).threads
    ensures var s', pc := Act(s, t, a), Act(s, t, a).threads[t];
            if pc == Idle(Pushed) then
              exists p: nat :: p < |s.reserved| && call.PushOf? && s.reserved[p] == (t, call.v)
                            && s'.completed == s.completed + [p] && s'.delivered == s.delivered
            else if pc.Idle? && pc.last.Popped? then
              exists p: nat :: p < |s.claimed| && p < |s.reserved| && call.PopOf? && s.claimed[p] == t
                            && s.reserved[p].1 == pc.last.v
                            && s'.delivered == s.delivered + [(p, pc.last.v)] && s'.completed == s.completed
            else if pc.Idle? then
              s' == Goto(s, t, pc) && pc == Idle(if call.PushOf? then Full else Empty)
            else
              s'.completed == s.completed && s'.delivered == s.delivered && InCall(pc, call)
  {
    hide Index, Cells, Deliveries, Completions;
    assert ThreadOk(s, t, s.threads[t]);
    var pc := Act(s, t, a).threads[t];
    if s.threads[t].PushStore? {
      assert pc == Idle(Pushed);
    } else if s.threads[t].PopStore? {
      assert pc.last.Popped?;
    }
  }

  /** Whichever step answers Full or None, there was reason to: the position one turn before the newest is
    * not released, or the head position is not published. */
  lemma RefusalsAreJustified<V(!new)>(s: State<V>, t: Tid, spurious: bool)
    requires Reachable(s) && t in s.threads && !s.threads[t].Idle?
    ensures |s.slots| > 0
    ensures var after := Act(s, t, Advance(spurious)).threads[t];
            && (after == Idle(Full) ==> s.enq >= |s.slots| && !Released(s, s.enq - |s.slots|))
            && (after == Idle(Empty) ==> !Published(s, s.deq))
  {
    ReachableInv(s);
    HasSlots(s);
    hide Reachable, Inv, Act, Index;
    RefusesAtSequence(s, t, spurious);
    if s.threads[t].PushSeq? {
      FullIff(s, t, spurious);
    } else if s.threads[t].PopSeq? {
      EmptyIff(s, t, spurious);
    }
  }

  lemma HasSlots<V>(s: State<V>)
    requires Inv(s)
    ensures |s.slots| > 0
  {
  }

  /** Only the look at a sequence number can end a call without success. */
  lemma RefusesAtSequence<V>(s: State<V>, t: Tid, spurious: bool)
    requires Inv(s) && t in s.threads && !s.threads[t].Idle?
    ensures var pc, after := s.threads[t], Act(s, t, Advance(spurious)).threads[t];
            && (after == Idle(Full) ==> pc.PushSeq?) && (after == Idle(Empty) ==> pc.PopSeq?)
  {
    hide Index, Cells, Deliveries, Completions;
    assert ThreadOk(s, t, s.threads[t]);
  }

  lemma StepExtendsLogs<V>(s: State<V>, t: Tid, a: Action<V>)
    requires Enabled(s, t, a)
    ensures s.reserved <= Act(s, t, a).reserved && s.claimed <= Act(s, t, a).claimed
    ensures Act(s, t, a).threads.Keys == s.threads.Keys
    ensures forall u | u in s.threads && u != t :: Act(s, t, a).threads[u] == s.threads[u]
  {
    hide Index;
  }

  lemma StepAgrees<V>(s: State<V>, l: Ledger<V>, t: Tid, a: Action<V>)
    requires Inv(s) && CallsKnown(s, l) && Agree(s, l) && Enabled(s, t, a)
    ensures var s' := Act(s, t, a);
            var l' := Seen(l, t, a, s'.threads[t]);
            CallsKnown(s', l') && Agree(s', l')
  {
    hide Inv, Index;
    StepExtendsLogs(s, t, a);
    if a.Advance? {
      StepAnswers(s, t, a, l.calls[t]);
      hide Act;
    }
  }

  /** What has been seen by the end of a run. */
  function Observed<V>(s: State<V>, l: Ledger<V>, moves: seq<Move<V>>): Ledger<V>
    requires Runs(s, moves)
    requires forall t | t in s.threads && !s.threads[t].Idle? :: t in l.calls
    decreases |moves|
  {
    if moves == [] then l
    else
      hide Act, Index;
      StepExtendsLogs(s, moves[0].t, moves[0].a);
      var s' := Act(s, moves[0].t, moves[0].a);
      Observed(s', Seen(l, moves[0].t, moves[0].a, s'.threads[moves[0].t]), moves[1..])
  }

  lemma {:induction false} RunAgrees<V>(s: State<V>, l: Ledger<V>, moves: seq<Move<V>>)
    requires Inv(s) && CallsKnown(s, l) && Agree(s, l) && Runs(s, moves)
    ensures Agree(After(s, moves), Observed(s, l, moves))
    decreases |moves|
  {
    hide Inv, Act, Agree, Seen, InCall;
    if moves != [] {
      StepExtendsLogs(s, moves[0].t, moves[0].a);
      var s' := Act(s, moves[0].t, moves[0].a);
      StepAgrees(s, l, moves[0].t, moves[0].a);
      ActKeepsInv(s, moves[0].t, moves[0].a);
      RunAgrees(s', Seen(l, moves[0].t, moves[0].a, s'.threads[moves[0].t]), moves[1..]);
    }
  }

  /** Over any run from a new ring the answers that callers were given are those that the positions of the
    * ring account for, one for one. */
  lemma AnswersAreTrue<V>(s0: State<V>, moves: seq<Move<V>>)
    requires Init(s0) && Runs(s0, moves)
    ensures Agree(After(s0, moves), Observed(s0, NewLedger(), moves))
  {
    hide Runs, After, Observed;
    InitInv(s0);
    RunAgrees(s0, NewLedger(), moves);
  }

  // ---- conservation, in the words of the callers ----

  ghost function Values<V>(positions: seq<nat>, reserved: seq<(Tid, V)>): (r: seq<V>)
    requires forall k | 0 <= k < |positions| :: positions[k] < |reserved|
    ensures |r| == |positions|
  {
    seq(|positions|, k requires 0 <= k < |positions| => reserved[positions[k]].1)
  }

  ghost predicate Enumerates(positions: seq<nat>, n: nat) {
    && (forall k | 0 <= k < |positions| :: positions[k] < n)
    && (forall j, k | 0 <= j < k < |positions| :: positions[j] != positions[k])
    && (forall p: nat | p < n :: p in positions)
  }

  ghost function Firsts<V>(reserved: seq<(Tid, V)>, n: nat): (r: seq<V>)
    requires n <= |reserved|
    ensures |r| == n
  {
    seq(n, i requires 0 <= i < n => reserved[i].1)
  }

  lemma Taken<V>(vs: seq<V>, k: nat)
    requires k < |vs|
    ensures multiset(vs) == multiset(vs[..k] + vs[k + 1..]) + multiset{vs[k]}
  {
    assert vs == vs[..k] + [vs[k]] + vs[k + 1..];
  }

  /** The values of the first n positions, in whatever order these are listed. */
  lemma {:induction false} ValuesOfAll<V>(positions: seq<nat>, reserved: seq<(Tid, V)>, n: nat)
    requires Enumerates(positions, n) && n <= |reserved|
    ensures multiset(Values(positions, reserved)) == multiset(Firsts(reserved, n))
    decreases n
  {
    hide Enumerates, Values, Firsts;
    if n == 0 {
      if positions != [] {
        FirstBelow(positions, n);
      }
      assert Values(positions, reserved) == Firsts(reserved, n);
    } else {
      var k := Holding(positions, n);
      var rest := positions[..k] + positions[k + 1..];
      WithoutLast(positions, n, k);
      ValuesOfAll(rest, reserved, n - 1);
      AllBelow(positions, n);
      ValuesWithout(positions, reserved, k);
      Taken(Values(positions, reserved), k);
      Taken(Firsts(reserved, n), n - 1);
      FirstsWithout(reserved, n);
    }
  }

  lemma FirstBelow(positions: seq<nat>, n: nat)
    requires Enumerates(positions, n) && positions != []
    ensures n > 0
  {
    assert positions[0] < n;
  }

  lemma AllBelow(positions: seq<nat>, n: nat)
    requires Enumerates(positions, n)
    ensures forall i | 0 <= i < |positions| :: positions[i] < n
  {
  }

  lemma Holding(positions: seq<nat>, n: nat) returns (k: nat)
    requires Enumerates(positions, n) && n > 0
    ensures k < |positions| && positions[k] == n - 1
  {
    assert n - 1 in positions;
    k :| k < |positions| && positions[k] == n - 1;
  }

  lemma ValuesWithout<V>(positions: seq<nat>, reserved: seq<(Tid, V)>, k: nat)
    requires k < |positions| && (forall i | 0 <= i < |positions| :: positions[i] < |reserved|)
    ensures var rest, vs := positions[..k] + positions[k + 1..], Values(positions, reserved);
            && (forall i | 0 <= i < |rest| :: rest[i] < |reserved|)
            && Values(rest, reserved) == vs[..k] + vs[k + 1..] && vs[k] == reserved[positions[k]].1
  {
  }

  lemma FirstsWithout<V>(reserved: seq<(Tid, V)>, n: nat)
    requires 0 < n <= |reserved|
    ensures var vs := Firsts(reserved, n);
            Firsts(reserved, n - 1) == vs[..n - 1] + vs[n..] && vs[n - 1] == reserved[n - 1].1
  {
  }

  lemma WithoutLast(positions: seq<nat>, n: nat, k: nat)
    requires Enumerates(positions, n) && k < |positions| && positions[k] == n - 1
    ensures Enumerates(positions[..k] + positions[k + 1..], n - 1)
  {
    var rest := positions[..k] + positions[k + 1..];
    forall p: nat | p < n - 1
      ensures p in rest
    {
      assert p in positions;
      var i :| 0 <= i < |positions| && positions[i] == p;
      assert rest[if i < k then i else i - 1] == p;
    }
  }

  /** At rest every reserved position has been completed and every claimed one delivered. */
  lemma AllAccounted<V>(s: State<V>)
    requires Inv(s) && PublishedIsCompleted(s) && Quiescent(s)
    ensures Enumerates(s.completed, s.enq) && Enumerates(Positions(s.delivered), s.deq)
  {
    LogIsDistinct(s);
    LogIsPublished(s);
    forall p: nat | p < s.enq
      ensures p in s.completed
    {
      BeingWrittenIffUnpublished(s, p);
      NotReturnedIsBeingWritten(s, p);
    }
    forall p: nat | p < s.deq
      ensures p in Positions(s.delivered)
    {
      BeingReadIffClaimed(s, p);
      assert Released(s, p);
      assert IsDelivered(s, p);
      var k :| 0 <= k < |s.delivered| && s.delivered[k].0 == p;
      assert Positions(s.delivered)[k] == p;
    }
  }

  function Positions<V>(delivered: seq<(nat, V)>): (r: seq<nat>)
    ensures |r| == |delivered|
  {
    seq(|delivered|, k requires 0 <= k < |delivered| => delivered[k].0)
  }

  function PushedValues<V>(l: Ledger<V>): (r: seq<V>)
    requires forall k | 0 <= k < |l.pushed| :: l.pushed[k].1.PushOf?
    ensures |r| == |l.pushed|
  {
    seq(|l.pushed|, k requires 0 <= k < |l.pushed| => l.pushed[k].1.v)
  }

  function PoppedValues<V>(l: Ledger<V>): (r: seq<V>)
    ensures |r| == |l.popped|
  {
    seq(|l.popped|, k requires 0 <= k < |l.popped| => l.popped[k].2)
  }

  /** Whenever no call is under way, the values whose push was told Pushed are those that pops were given
    * and those that wait in the ring, each as often; a call that was refused left nothing behind. */
  lemma AcceptedIsPoppedOrWaiting<V>(s0: State<V>, moves: seq<Move<V>>)
    requires Init(s0) && Runs(s0, moves) && Quiescent(After(s0, moves))
    ensures var s, l := After(s0, moves), Observed(s0, NewLedger(), moves);
            && s.deq <= |s.reserved| && |Contents(s)| <= |s.slots|
            && (forall k | 0 <= k < |l.pushed| :: l.pushed[k].1.PushOf?)
            && multiset(PushedValues(l)) == multiset(PoppedValues(l)) + multiset(Contents(s))
  {
    hide Inv, PublishedIsCompleted, Runs, After, Observed, Quiescent, Values, Firsts, Contents, Enumerates, Agree,
         PushedValues, PoppedValues;
    var s, l := After(s0, moves), Observed(s0, NewLedger(), moves);
    AnswersAreTrue(s0, moves);
    StartIsCompleted(s0);
    RunKeepsCompleted(s0, moves);
    AllAccounted(s);
    Counts(s);
    ValuesOfAll(s.completed, s.reserved, s.enq);
    ValuesOfAll(Positions(s.delivered), s.reserved, s.deq);
    SameValues(s, l);
    assert multiset(Firsts(s.reserved, s.deq) + Contents(s))
        == multiset(Firsts(s.reserved, s.deq)) + multiset(Contents(s));
  }

  lemma SameValues<V>(s: State<V>, l: Ledger<V>)
    requires Inv(s) && Agree(s, l)
    ensures s.deq <= s.enq == |s.reserved|
    ensures (forall k | 0 <= k < |l.pushed| :: l.pushed[k].1.PushOf?)
            && (forall k | 0 <= k < |s.completed| :: s.completed[k] < |s.reserved|)
            && PushedValues(l) == Values(s.completed, s.reserved)
    ensures (forall k | 0 <= k < |s.delivered| :: Positions(s.delivered)[k] < |s.reserved|)
            && PoppedValues(l) == Values(Positions(s.delivered), s.reserved)
    ensures Firsts(s.reserved, s.enq) == Firsts(s.reserved, s.deq) + Contents(s)
  {
    hide Inv;
    Counts(s);
  }

  lemma Counts<V>(s: State<V>)
    requires Inv(s)
    ensures |s.reserved| == s.enq && s.deq <= s.enq <= s.deq + |s.slots|
    ensures forall k | 0 <= k < |s.delivered| ::
              s.delivered[k].0 < s.enq && s.delivered[k].1 == s.reserved[s.delivered[k].0].1
  {
  }

  // ---- a thread that runs alone finishes ----

  /** At most n steps of t, no other thread moving and no compare-exchange failing for no reason. */
  function Alone<V>(s: State<V>, t: Tid, n: nat): State<V>
    requires |s.slots| > 0 && t in s.threads
    decreases n
  {
    if n == 0 || s.threads[t].Idle? then s
    else
      StepExtendsLogs(s, t, Advance(false));
      StepExtends(s, t, Advance(false));
      Alone(Act(s, t, Advance(false)), t, n - 1)
  }

  /** A bound on the steps that t still needs; more when it holds a position that others have taken. */
  function Left<V>(s: State<V>, t: Tid): nat
    requires t in s.threads
  {
    match s.threads[t]
    case Idle(_) => 0
    case PushLoad(_) => 5
    case PushSeq(_, pos) => if pos == s.enq then 4 else 6
    case PushCas(_, pos) => if pos == s.enq then 3 else 5
    case PushWrite(_, _) => 2
    case PushStore(_, _) => 1
    case PopLoad => 5
    case PopSeq(pos) => if pos == s.deq then 4 else 6
    case PopCas(pos) => if pos == s.deq then 3 else 5
    case PopRead(_) => 2
    case PopStore(_, _) => 1
  }

  lemma StepGetsCloser<V>(s: State<V>, t: Tid)
    requires Inv(s) && t in s.threads && !s.threads[t].Idle?
    ensures t in Act(s, t, Advance(false)).threads && Left(Act(s, t, Advance(false)), t) < Left(s, t)
  {
    hide Index, Cells, Deliveries, Completions;
    assert ThreadOk(s, t, s.threads[t]);
  }

  /** From every reachable state, whatever the others have left undone, a call of t that is left alone
    * answers within six steps. */
  lemma FinishesAlone<V(!new)>(s: State<V>, t: Tid)
    requires Reachable(s) && t in s.threads
    ensures |s.slots| > 0 && t in Alone(s, t, 6).threads && Alone(s, t, 6).threads[t].Idle?
  {
    ReachableInv(s);
    hide Reachable, Act;
    RunsOut(s, t, 6);
  }

  lemma {:induction false} RunsOut<V>(s: State<V>, t: Tid, n: nat)
    requires Inv(s) && |s.slots| > 0 && t in s.threads && Left(s, t) <= n
    ensures t in Alone(s, t, n).threads && Alone(s, t, n).threads[t].Idle?
    decreases n
  {
    hide Inv, Act;
    if n > 0 && !s.threads[t].Idle? {
      StepExtends(s, t, Advance(false));
      StepGetsCloser(s, t);
      ActKeepsInv(s, t, Advance(false));
      RunsOut(Act(s, t, Advance(false)), t, n - 1);
    }
  }
}
