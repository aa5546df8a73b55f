/** The bounded lock-free ring of queue.rs, as a state machine.
  *
  * Every atomic load, compare-exchange and store of `push` and `pop` is one step of one thread, and
  * so is each access to a value cell.  Any number of threads take steps in any order; a
  * compare-exchange may fail for no reason.  Positions are unbounded naturals and `pos & mask` is
  * `pos % capacity`.
  */
module MpmcProtocol {
  import opened Arithmetic
  import opened Wrappers

  type Tid = nat

  datatype Slot<V> = Slot(sequence: nat, value: Option<V>)

  datatype Outcome<V> = NoCall | Pushed | Full | Popped(v: V) | Empty

  /** Where a thread stands inside `push` or `pop`; named after the step it takes next. */
  datatype Pc<V> =
    | Idle(last: Outcome<V>)
    | PushLoad(v: V)
    | PushSeq(v: V, pos: nat)
    | PushCas(v: V, pos: nat)
    | PushWrite(v: V, pos: nat)
    | PushStore(v: V, pos: nat)
    | PopLoad
    | PopSeq(pos: nat)
    | PopCas(pos: nat)
    | PopRead(pos: nat)
    | PopStore(pos: nat, v: V)
  {
    predicate OwnsPush(p: nat) { (PushWrite? || PushStore?) && pos == p }
    predicate OwnsPop(p: nat) { (PopRead? || PopStore?) && pos == p }
    predicate Owning() { PushWrite? || PushStore? || PopRead? || PopStore? }
    predicate Popping() { PopLoad? || PopSeq? || PopCas? || PopRead? || PopStore? }
  }

  /** The shared memory and the threads, plus four history variables that no step reads:
    * who reserved each position and with what value, who claimed it, and the positions in the order
    * in which their `push` and their `pop` returned. */
  datatype State<V> = State(
    enq: nat, deq: nat, slots: seq<Slot<V>>, threads: map<Tid, Pc<V>>,
    reserved: seq<(Tid, V)>, claimed: seq<Tid>, completed: seq<nat>, delivered: seq<(nat, V)>)

  /** The slot of position p in a ring of c slots: p modulo c (IndexIsModulo), by counting down. */
  function Index(c: nat, p: nat): (i: nat)
    requires c > 0
    ensures i < c
    decreases p
  {
    if p < c then p else Index(c, p - c)
  }

  function At<V>(s: State<V>, p: nat): Slot<V>
    requires |s.slots| > 0
  {
    s.slots[Index(|s.slots|, p)]
  }

  /** Position p has been written and announced to consumers. */
  predicate Published<V>(s: State<V>, p: nat)
    requires |s.slots| > 0
  {
    At(s, p).sequence > p
  }

  /** Position p has been read and its slot handed to position p + capacity. */
  predicate Released<V>(s: State<V>, p: nat)
    requires |s.slots| > 0
  {
    At(s, p).sequence >= p + |s.slots|
  }

  // ---- steps ----

  datatype Action<V> = BeginPush(v: V) | BeginPop | Advance(spurious: bool)

  predicate Enabled<V>(s: State<V>, t: Tid, a: Action<V>) {
    && |s.slots| > 0
    && t in s.threads
    && (s.threads[t].Idle? <==> !a.Advance?)
  }

  function Goto<V>(s: State<V>, t: Tid, pc: Pc<V>): State<V> {
    s.(threads := s.threads[t := pc])
  }

  function SetSlot<V>(s: State<V>, p: nat, slot: Slot<V>): State<V>
    requires |s.slots| > 0
  {
    s.(slots := s.slots[Index(|s.slots|, p) := slot])
  }

  /** Thread t wins position enqueue_pos for its push. */
  function Reserve<V>(s: State<V>, t: Tid, v: V): State<V> {
    s.(threads := s.threads[t := PushWrite(v, s.enq)], enq := s.enq + 1, reserved := s.reserved + [(t, v)])
  }

  function Write<V>(s: State<V>, t: Tid, v: V, pos: nat): State<V>
    requires |s.slots| > 0
  {
    SetSlot(Goto(s, t, PushStore(v, pos)), pos, At(s, pos).(value := Some(v)))
  }

  function Publish<V>(s: State<V>, t: Tid, pos: nat): State<V>
    requires |s.slots| > 0
  {
    SetSlot(Goto(s, t, Idle(Pushed)), pos, At(s, pos).(sequence := pos + 1))
    .(completed := s.completed + [pos])
  }

  /** Thread t wins position dequeue_pos for its pop. */
  function Claim<V>(s: State<V>, t: Tid): State<V> {
    s.(threads := s.threads[t := PopRead(s.deq)], deq := s.deq + 1, claimed := s.claimed + [t])
  }

  function Read<V>(s: State<V>, t: Tid, pos: nat, v: V): State<V>
    requires |s.slots| > 0
  {
    SetSlot(Goto(s, t, PopStore(pos, v)), pos, At(s, pos).(value := None))
  }

  function Release<V>(s: State<V>, t: Tid, pos: nat, v: V): State<V>
    requires |s.slots| > 0
  {
    SetSlot(Goto(s, t, Idle(Popped(v))), pos, At(s, pos).(sequence := pos + |s.slots|))
    .(delivered := s.delivered + [(pos, v)])
  }

  function Act<V>(s: State<V>, t: Tid, a: Action<V>): State<V>
    requires Enabled(s, t, a)
  {
    match a
    case BeginPush(v) => Goto(s, t, PushLoad(v))
    case BeginPop => Goto(s, t, PopLoad)
    case Advance(spurious) =>
      match s.threads[t]
      case Idle(_) => s
      case PushLoad(v) => Goto(s, t, PushSeq(v, s.enq))
      case PushSeq(v, pos) =>
        var seen := At(s, pos).sequence;
        if seen == pos then Goto(s, t, PushCas(v, pos))
        else if seen < pos then Goto(s, t, Idle(Full))
        else Goto(s, t, PushLoad(v))
      case PushCas(v, pos) =>
        if !spurious && s.enq == pos
        then Reserve(s, t, v)
        else Goto(s, t, PushSeq(v, s.enq))
      case PushWrite(v, pos) => Write(s, t, v, pos)
      case PushStore(v, pos) => Publish(s, t, pos)
      case PopLoad => Goto(s, t, PopSeq(s.deq))
      case PopSeq(pos) =>
        var seen := At(s, pos).sequence;
        if seen == pos + 1 then Goto(s, t, PopCas(pos))
        else if seen < pos + 1 then Goto(s, t, Idle(Empty))
        else Goto(s, t, PopLoad)
      case PopCas(pos) =>
        if !spurious && s.deq == pos
        then Claim(s, t)
        else Goto(s, t, PopSeq(s.deq))
      case PopRead(pos) =>
        // Reading an empty cell would be undefined behaviour; MpmcTheorems.CellAccessesAreSafe shows it never happens.
        (match At(s, pos).value
         case Some(v) => Read(s, t, pos, v)
         case None => s)
      case PopStore(pos, v) => Release(s, t, pos, v)
  }

  ghost predicate Init<V>(s: State<V>) {
    && |s.slots| >= 8
    && s.enq == 0 && s.deq == 0
    && (forall i | 0 <= i < |s.slots| :: s.slots[i] == Slot(i, None))
    && (forall t | t in s.threads :: s.threads[t] == Idle(NoCall))
    && s.reserved == [] && s.claimed == [] && s.completed == [] && s.delivered == []
  }

  // ---- the inductive invariant ----

  /** A position's sequence number says how far the position has got. */
  ghost predicate Sequences<V>(s: State<V>) {
    && |s.slots| >= 8
    && s.deq <= s.enq <= s.deq + |s.slots|
    && |s.reserved| == s.enq && |s.claimed| == s.deq
    && (forall i | 0 <= i < |s.slots| :: s.slots[i].sequence >= i)
    && (forall p: nat :: p < s.enq ==> At(s, p).sequence >= p)
    && (forall p: nat :: s.enq <= p ==> At(s, p).sequence <= p)
    && (forall p: nat :: p < s.deq ==> At(s, p).sequence > p)
    && (forall p: nat :: s.deq <= p ==> At(s, p).sequence < p + |s.slots|)
    && (forall p: nat :: p <= At(s, p).sequence < p + |s.slots| ==>
          At(s, p).sequence == p || At(s, p).sequence == p + 1)
  }

  /** What a thread may rely on at each program point, whatever the others do. */
  ghost predicate ThreadOk<V>(s: State<V>, t: Tid, pc: Pc<V>)
    requires Sequences(s)
  {
    match pc
    case PushSeq(_, pos) => pos <= s.enq
    case PushCas(_, pos) => pos <= s.enq && At(s, pos).sequence >= pos
    case PushWrite(v, pos) => pos < s.enq && s.reserved[pos] == (t, v) && At(s, pos) == Slot(pos, None)
    case PushStore(v, pos) => pos < s.enq && s.reserved[pos] == (t, v) && At(s, pos) == Slot(pos, Some(v))
    case PopSeq(pos) => pos <= s.deq
    case PopCas(pos) => pos <= s.deq && At(s, pos).sequence >= pos + 1
    case PopRead(pos) =>
      pos < s.deq && s.claimed[pos] == t && At(s, pos) == Slot(pos + 1, Some(s.reserved[pos].1))
    case PopStore(pos, v) =>
      pos < s.deq && s.claimed[pos] == t && At(s, pos) == Slot(pos + 1, None) && v == s.reserved[pos].1
    case _ => true
  }

  ghost predicate Threads<V>(s: State<V>)
    requires Sequences(s)
  {
    forall t | t in s.threads :: ThreadOk(s, t, s.threads[t])
  }

  /** A position between two stores has an owner, and an unclaimed published one holds its value. */
  ghost predicate Cells<V>(s: State<V>)
    requires Sequences(s)
  {
    && (forall p: nat :: p < s.enq && At(s, p).sequence == p ==>
          s.reserved[p].0 in s.threads && s.threads[s.reserved[p].0].OwnsPush(p))
    && (forall p: nat :: p < s.deq && At(s, p).sequence == p + 1 ==>
          s.claimed[p] in s.threads && s.threads[s.claimed[p]].OwnsPop(p))
    && (forall p: nat :: s.deq <= p < s.enq && At(s, p).sequence == p + 1 ==>
          At(s, p).value == Some(s.reserved[p].1))
    && (forall p: nat :: s.enq <= p && At(s, p).sequence == p ==> At(s, p).value == None)
  }

  ghost predicate Deliveries<V>(s: State<V>)
    requires Sequences(s)
  {
    && (forall k | 0 <= k < |s.delivered| ::
          && s.delivered[k].0 < s.deq
          && Released(s, s.delivered[k].0)
          && s.delivered[k].1 == s.reserved[s.delivered[k].0].1)
    && (forall j, k | 0 <= j < k < |s.delivered| :: s.delivered[j].0 != s.delivered[k].0)
    && (forall p: nat :: p < s.deq && Released(s, p) ==> IsDelivered(s, p))
  }

  ghost predicate IsDelivered<V>(s: State<V>, p: nat) {
    exists k :: 0 <= k < |s.delivered| && s.delivered[k].0 == p
  }

  ghost predicate Completions<V>(s: State<V>)
    requires Sequences(s)
  {
    && (forall k | 0 <= k < |s.completed| :: s.completed[k] < s.enq && Published(s, s.completed[k]))
    && (forall j, k | 0 <= j < k < |s.completed| ::
          s.reserved[s.completed[j]].0 == s.reserved[s.completed[k]].0 ==> s.completed[j] < s.completed[k])
    && (forall t, k | t in s.threads && 0 <= k < |s.completed| && s.reserved[s.completed[k]].0 == t
                      && (s.threads[t].PushWrite? || s.threads[t].PushStore?) ::
          s.completed[k] < s.threads[t].pos)
  }

  ghost predicate Inv<V>(s: State<V>) {
    && Sequences(s)
    && Threads(s)
    && Cells(s)
    && Deliveries(s)
    && Completions(s)
  }

  lemma InitInv<V>(s: State<V>)
    requires Init(s)
    ensures Inv(s)
  {
    forall p: nat
      ensures At(s, p) == Slot(Index(|s.slots|, p), None)
      ensures Index(|s.slots|, p) <= p && (p < |s.slots| ==> Index(|s.slots|, p) == p)
    {
      IndexBelow(|s.slots|, p);
    }
  }

  lemma {:induction false} IndexBelow(c: nat, p: nat)
    requires c > 0
    ensures Index(c, p) <= p
  {
    if p >= c {
      IndexBelow(c, p - c);
    }
  }

  lemma {:induction false} IndexIsModulo(c: nat, p: nat)
    requires c > 0
    ensures Index(c, p) == p % c
  {
    if p >= c {
      IndexIsModulo(c, p - c);
      ModuloDropsTurn(c, p);
    }
  }

  lemma ModuloDropsTurn(c: int, p: int)
    requires c > 0 && p >= c
    ensures p % c == (p - c) % c
  {
    var q, r := (p - c) / c, (p - c) % c;
    assert p == q * c + r + c;
    assert q * c + c == (q + 1) * c;
    assert p == (q + 1) * c + r;
    EuclidUnique(p, c, q + 1, r);
  }

  /** Two positions that share a slot are at least a whole turn of the ring apart. */
  lemma {:induction false} SameSlotFarApart(c: nat, a: nat, b: nat)
    requires c > 0 && Index(c, a) == Index(c, b) && a < b
    ensures a + c <= b
  {
    if b >= c {
      IndexBelow(c, b - c);
      if a < b - c {
        SameSlotFarApart(c, a, b - c);
      } else if b - c < a {
        if a >= c {
          SameSlotFarApart(c, a - c, b - c);
        }
      }
    }
  }

  /** What changing the slot of position p does to the slots of all other positions. */
  lemma OtherSlots<V>(s: State<V>, p: nat, slot: Slot<V>)
    requires |s.slots| > 0
    ensures At(SetSlot(s, p, slot), p) == slot
    ensures forall q: nat :: Index(|s.slots|, q) != Index(|s.slots|, p) ==> At(SetSlot(s, p, slot), q) == At(s, q)
    ensures forall q: nat :: Index(|s.slots|, q) == Index(|s.slots|, p) ==>
              At(SetSlot(s, p, slot), q) == slot && At(s, q) == At(s, p)
              && (q == p || q + |s.slots| <= p || p + |s.slots| <= q)
  {
    forall q: nat | Index(|s.slots|, q) == Index(|s.slots|, p)
      ensures q == p || q + |s.slots| <= p || p + |s.slots| <= q
    {
      if q < p {
        SameSlotFarApart(|s.slots|, q, p);
      } else if p < q {
        SameSlotFarApart(|s.slots|, p, q);
      }
    }
  }

  // ---- each kind of step keeps the invariant, one conjunct at a time ----

  ghost predicate Core<V>(s: State<V>) {
    Sequences(s) && Threads(s) && Cells(s)
  }

  ghost predicate Stands<V>(s: State<V>, t: Tid) {
    Core(s) && t in s.threads
  }

  /** A step that only moves the program counter of a thread that owned nothing. */
  lemma GotoKeepsSequences<V>(s: State<V>, t: Tid, pc: Pc<V>)
    requires Sequences(s)
    ensures Sequences(Goto(s, t, pc))
  {
    hide Index;
    assert forall p: nat :: At(Goto(s, t, pc), p) == At(s, p);
  }

  lemma GotoKeepsThreads<V>(s: State<V>, t: Tid, pc: Pc<V>)
    requires Stands(s, t) && ThreadOk(s, t, pc)
    ensures Sequences(Goto(s, t, pc)) && Threads(Goto(s, t, pc))
  {
    hide Index;
    GotoKeepsSequences(s, t, pc);
    var s' := Goto(s, t, pc);
    forall u | u in s'.threads
      ensures ThreadOk(s', u, s'.threads[u])
    {
      assert u != t ==> ThreadOk(s, u, s.threads[u]);
    }
  }

  lemma GotoKeepsCells<V>(s: State<V>, t: Tid, pc: Pc<V>)
    requires Stands(s, t) && !s.threads[t].Owning() && !pc.Owning()
    ensures Sequences(Goto(s, t, pc)) && Cells(Goto(s, t, pc))
  {
    hide Index;
    GotoKeepsSequences(s, t, pc);
    assert forall p: nat :: At(Goto(s, t, pc), p) == At(s, p);
  }

  lemma GotoKeepsCore<V>(s: State<V>, t: Tid, pc: Pc<V>)
    requires Stands(s, t)
    requires !s.threads[t].Owning() && !pc.Owning()
    requires ThreadOk(s, t, pc)
    ensures Core(Goto(s, t, pc))
  {
    hide Index;
    GotoKeepsThreads(s, t, pc);
    GotoKeepsCells(s, t, pc);
  }

  lemma GotoKeepsDeliveries<V>(s: State<V>, t: Tid, pc: Pc<V>)
    requires Stands(s, t) && Deliveries(s)
    requires !s.threads[t].Owning() && !pc.Owning()
    requires Core(Goto(s, t, pc))
    ensures Deliveries(Goto(s, t, pc))
  {
    hide Index;
    var s' := Goto(s, t, pc);
    assert forall p: nat :: At(s', p) == At(s, p);
    assert forall p: nat :: IsDelivered(s, p) ==> IsDelivered(s', p);
  }

  lemma GotoKeepsCompletions<V>(s: State<V>, t: Tid, pc: Pc<V>)
    requires Stands(s, t) && Completions(s)
    requires !s.threads[t].Owning() && !pc.Owning()
    requires Core(Goto(s, t, pc))
    ensures Completions(Goto(s, t, pc))
  {
    hide Index;
    var s' := Goto(s, t, pc);
    assert forall p: nat :: At(s', p) == At(s, p);
  }

  lemma GotoKeepsInv<V>(s: State<V>, t: Tid, pc: Pc<V>)
    requires Inv(s) && t in s.threads
    requires !s.threads[t].Owning() && !pc.Owning()
    requires ThreadOk(s, t, pc)
    ensures Inv(Goto(s, t, pc))
  {
    hide Index;
    GotoKeepsCore(s, t, pc);
    GotoKeepsDeliveries(s, t, pc);
    GotoKeepsCompletions(s, t, pc);
  }

  /** A producer that sees its position free in the ring sees a position the consumers have left. */
  lemma FreePositionIsBehindConsumers<V>(s: State<V>)
    requires Sequences(s) && At(s, s.enq).sequence >= s.enq
    ensures s.enq < s.deq + |s.slots|
  {
    if s.enq >= |s.slots| {
      var q: nat := s.enq - |s.slots|;
      assert At(s, q) == At(s, s.enq);
    }
  }

  lemma ReserveKeepsSequences<V>(s: State<V>, t: Tid, v: V)
    requires Stands(s, t) && s.threads[t] == PushCas(v, s.enq)
    ensures Sequences(Reserve(s, t, v))
  {
    hide Index;
    FreePositionIsBehindConsumers(s);
    assert forall p: nat :: At(Reserve(s, t, v), p) == At(s, p);
  }

  lemma ReserveKeepsCore<V>(s: State<V>, t: Tid, v: V)
    requires Stands(s, t) && s.threads[t] == PushCas(v, s.enq)
    ensures Core(Reserve(s, t, v))
  {
    hide Index;
    ReserveKeepsSequences(s, t, v);
    assert forall p: nat :: At(Reserve(s, t, v), p) == At(s, p);
  }

  lemma ReserveKeepsDeliveries<V>(s: State<V>, t: Tid, v: V)
    requires Stands(s, t) && Deliveries(s) && s.threads[t] == PushCas(v, s.enq)
    requires Core(Reserve(s, t, v))
    ensures Deliveries(Reserve(s, t, v))
  {
    hide Index;
    var s' := Reserve(s, t, v);
    assert forall p: nat :: At(s', p) == At(s, p);
    assert forall p: nat :: IsDelivered(s, p) ==> IsDelivered(s', p);
  }

  lemma ReserveKeepsCompletions<V>(s: State<V>, t: Tid, v: V)
    requires Stands(s, t) && Completions(s) && s.threads[t] == PushCas(v, s.enq)
    requires Core(Reserve(s, t, v))
    ensures Completions(Reserve(s, t, v))
  {
    hide Index;
    var s' := Reserve(s, t, v);
    assert forall p: nat :: At(s', p) == At(s, p);
  }

  lemma ClaimKeepsSequences<V>(s: State<V>, t: Tid)
    requires Stands(s, t) && s.threads[t] == PopCas(s.deq)
    ensures Sequences(Claim(s, t))
  {
    hide Index;
    assert forall p: nat :: At(Claim(s, t), p) == At(s, p);
    assert At(s, s.deq).sequence == s.deq + 1;
  }

  lemma ClaimKeepsCore<V>(s: State<V>, t: Tid)
    requires Stands(s, t) && s.threads[t] == PopCas(s.deq)
    ensures Core(Claim(s, t))
  {
    hide Index;
    ClaimKeepsSequences(s, t);
    assert forall p: nat :: At(Claim(s, t), p) == At(s, p);
    assert At(s, s.deq).sequence == s.deq + 1;
  }

  lemma ClaimKeepsDeliveries<V>(s: State<V>, t: Tid)
    requires Stands(s, t) && Deliveries(s) && s.threads[t] == PopCas(s.deq)
    requires Core(Claim(s, t))
    ensures Deliveries(Claim(s, t))
  {
    hide Index;
    var s' := Claim(s, t);
    assert forall p: nat :: At(s', p) == At(s, p);
    assert forall p: nat :: IsDelivered(s, p) ==> IsDelivered(s', p);
  }

  lemma ClaimKeepsCompletions<V>(s: State<V>, t: Tid)
    requires Stands(s, t) && Completions(s) && s.threads[t] == PopCas(s.deq)
    requires Core(Claim(s, t))
    ensures Completions(Claim(s, t))
  {
    hide Index;
    var s' := Claim(s, t);
    assert forall p: nat :: At(s', p) == At(s, p);
  }

  /** Threads that own positions own different slots: no value cell is ever shared. */
  lemma OwnersHoldDifferentSlots<V>(s: State<V>, t: Tid, u: Tid)
    requires Core(s) && t in s.threads && u in s.threads && t != u
    requires s.threads[t].Owning() && s.threads[u].Owning()
    ensures Index(|s.slots|, s.threads[t].pos) != Index(|s.slots|, s.threads[u].pos)
  {
    hide Index;
    assert ThreadOk(s, t, s.threads[t]) && ThreadOk(s, u, s.threads[u]);
    var p, q := s.threads[t].pos, s.threads[u].pos;
    if Index(|s.slots|, p) == Index(|s.slots|, q) && p < q {
      SameSlotFarApart(|s.slots|, p, q);
    } else if Index(|s.slots|, p) == Index(|s.slots|, q) && q < p {
      SameSlotFarApart(|s.slots|, q, p);
    }
  }

  /** The owner of a position accesses its value cell. */
  ghost predicate TouchesValue<V>(s: State<V>, s': State<V>, t: Tid) {
    && Stands(s, t)
    && match s.threads[t]
       case PushWrite(v, pos) => s' == Write(s, t, v, pos)
       case PopRead(pos) => pos < |s.reserved| && s' == Read(s, t, pos, s.reserved[pos].1)
       case _ => false
  }

  lemma TouchFrame<V>(s: State<V>, s': State<V>, t: Tid)
    requires TouchesValue(s, s', t)
    ensures s'.enq == s.enq && s'.deq == s.deq && s'.reserved == s.reserved && s'.claimed == s.claimed
    ensures |s'.slots| == |s.slots| && |s.slots| >= 8
    ensures forall i | 0 <= i < |s.slots| :: s'.slots[i].sequence == s.slots[i].sequence
    ensures forall p: nat :: At(s', p).sequence == At(s, p).sequence
    ensures forall p: nat :: Index(|s.slots|, p) != Index(|s.slots|, s.threads[t].pos) ==> At(s', p) == At(s, p)
    ensures forall p: nat :: Index(|s.slots|, p) == Index(|s.slots|, s.threads[t].pos) ==>
              At(s', p) == At(s', s.threads[t].pos)
    ensures At(s', s.threads[t].pos).value ==
            if s.threads[t].PushWrite? then Some(s.threads[t].v) else None
  {
    hide Index, Threads, Cells;
  }

  lemma SequencesFrame<V>(s: State<V>, s': State<V>)
    requires Sequences(s) && s'.enq == s.enq && s'.deq == s.deq
    requires |s'.reserved| == |s.reserved| && |s'.claimed| == |s.claimed| && |s'.slots| == |s.slots|
    requires forall i | 0 <= i < |s.slots| :: s'.slots[i].sequence == s.slots[i].sequence
    requires forall p: nat :: At(s', p).sequence == At(s, p).sequence
    ensures Sequences(s')
  {
    hide Index;
  }

  lemma TouchKeepsSequences<V>(s: State<V>, s': State<V>, t: Tid)
    requires TouchesValue(s, s', t)
    ensures Sequences(s')
  {
    TouchFrame(s, s', t);
    SequencesFrame(s, s');
  }

  lemma TouchKeepsThreads<V>(s: State<V>, s': State<V>, t: Tid)
    requires TouchesValue(s, s', t)
    ensures Sequences(s') && Threads(s')
  {
    hide Index;
    TouchFrame(s, s', t);
    TouchKeepsSequences(s, s', t);
    assert ThreadOk(s, t, s.threads[t]);
    forall u | u in s'.threads
      ensures ThreadOk(s', u, s'.threads[u])
    {
      if u != t {
        assert ThreadOk(s, u, s.threads[u]);
        if s.threads[u].Owning() {
          OwnersHoldDifferentSlots(s, t, u);
        }
      }
    }
  }

  lemma TouchKeepsCells<V>(s: State<V>, s': State<V>, t: Tid)
    requires TouchesValue(s, s', t)
    ensures Sequences(s') && Cells(s')
  {
    hide Index;
    TouchFrame(s, s', t);
    TouchKeepsSequences(s, s', t);
    OtherSlots(s, s.threads[t].pos, At(s', s.threads[t].pos));
  }

  lemma DeliveriesFrame<V>(s: State<V>, s': State<V>)
    requires Sequences(s) && Sequences(s') && Deliveries(s)
    requires s'.deq == s.deq && s'.reserved == s.reserved && s'.delivered == s.delivered
    requires |s'.slots| == |s.slots|
    requires forall p: nat :: At(s', p).sequence == At(s, p).sequence
    ensures Deliveries(s')
  {
    hide Index;
    assert forall p: nat :: IsDelivered(s, p) ==> IsDelivered(s', p);
  }

  lemma TouchKeepsDeliveries<V>(s: State<V>, s': State<V>, t: Tid)
    requires TouchesValue(s, s', t) && Deliveries(s)
    requires Core(s')
    ensures Deliveries(s')
  {
    hide Index;
    TouchFrame(s, s', t);
    TouchKeepsSequences(s, s', t);
    DeliveriesFrame(s, s');
  }

  lemma TouchKeepsCompletions<V>(s: State<V>, s': State<V>, t: Tid)
    requires TouchesValue(s, s', t) && Completions(s)
    requires Core(s')
    ensures Completions(s')
  {
    hide Index;
    TouchFrame(s, s', t);
    TouchKeepsSequences(s, s', t);
  }

  lemma PublishKeepsSequences<V>(s: State<V>, t: Tid, v: V, pos: nat)
    requires Stands(s, t) && s.threads[t] == PushStore(v, pos)
    ensures Sequences(Publish(s, t, pos))
  {
    hide Index;
    assert ThreadOk(s, t, s.threads[t]);
    OtherSlots(s, pos, At(s, pos).(sequence := pos + 1));
  }

  lemma PublishKeepsThreads<V>(s: State<V>, t: Tid, v: V, pos: nat)
    requires Stands(s, t) && s.threads[t] == PushStore(v, pos)
    ensures var s' := Publish(s, t, pos); Sequences(s') && Threads(s')
  {
    hide Index;
    var s' := Publish(s, t, pos);
    PublishKeepsSequences(s, t, v, pos);
    OtherSlots(s, pos, At(s, pos).(sequence := pos + 1));
    forall u | u in s'.threads
      ensures ThreadOk(s', u, s'.threads[u])
    {
      assert ThreadOk(s, u, s.threads[u]);
      assert ThreadOk(s, t, s.threads[t]);
    }
  }

  lemma PublishKeepsCells<V>(s: State<V>, t: Tid, v: V, pos: nat)
    requires Stands(s, t) && s.threads[t] == PushStore(v, pos)
    ensures var s' := Publish(s, t, pos); Sequences(s') && Cells(s')
  {
    hide Index;
    assert ThreadOk(s, t, s.threads[t]);
    PublishKeepsSequences(s, t, v, pos);
    OtherSlots(s, pos, At(s, pos).(sequence := pos + 1));
  }

  lemma PublishKeepsDeliveries<V>(s: State<V>, t: Tid, v: V, pos: nat)
    requires Stands(s, t) && Deliveries(s) && s.threads[t] == PushStore(v, pos)
    requires Core(Publish(s, t, pos))
    ensures Deliveries(Publish(s, t, pos))
  {
    hide Index;
    var s' := Publish(s, t, pos);
    assert ThreadOk(s, t, s.threads[t]);
    forall p: nat
      ensures p < s.deq ==> (Released(s', p) <==> Released(s, p))
    {
      OtherSlots(s, pos, At(s, pos).(sequence := pos + 1));
    }
    assert forall p: nat :: IsDelivered(s, p) ==> IsDelivered(s', p);
  }

  lemma PublishKeepsCompletions<V>(s: State<V>, t: Tid, v: V, pos: nat)
    requires Stands(s, t) && Completions(s) && s.threads[t] == PushStore(v, pos)
    requires Core(Publish(s, t, pos))
    ensures Completions(Publish(s, t, pos))
  {
    hide Index;
    var s' := Publish(s, t, pos);
    assert ThreadOk(s, t, s.threads[t]);
    PublishedStaysPublished(s, t, v, pos);
    assert forall k | 0 <= k < |s.completed| :: s'.completed[k] == s.completed[k];
  }

  lemma PublishedStaysPublished<V>(s: State<V>, t: Tid, v: V, pos: nat)
    requires Stands(s, t) && s.threads[t] == PushStore(v, pos)
    ensures forall p: nat :: Published(s, p) || p == pos ==> Published(Publish(s, t, pos), p)
  {
    hide Index;
    assert ThreadOk(s, t, s.threads[t]);
    OtherSlots(s, pos, At(s, pos).(sequence := pos + 1));
  }

  lemma ReleaseKeepsSequences<V>(s: State<V>, t: Tid, pos: nat, v: V)
    requires Stands(s, t) && s.threads[t] == PopStore(pos, v)
    ensures Sequences(Release(s, t, pos, v))
  {
    hide Index;
    assert ThreadOk(s, t, s.threads[t]);
    OtherSlots(s, pos, At(s, pos).(sequence := pos + |s.slots|));
  }

  lemma ReleaseKeepsThreads<V>(s: State<V>, t: Tid, pos: nat, v: V)
    requires Stands(s, t) && s.threads[t] == PopStore(pos, v)
    ensures var s' := Release(s, t, pos, v); Sequences(s') && Threads(s')
  {
    hide Index;
    var s' := Release(s, t, pos, v);
    ReleaseKeepsSequences(s, t, pos, v);
    OtherSlots(s, pos, At(s, pos).(sequence := pos + |s.slots|));
    forall u | u in s'.threads
      ensures ThreadOk(s', u, s'.threads[u])
    {
      assert ThreadOk(s, u, s.threads[u]);
      assert ThreadOk(s, t, s.threads[t]);
    }
  }

  lemma ReleaseKeepsCells<V>(s: State<V>, t: Tid, pos: nat, v: V)
    requires Stands(s, t) && s.threads[t] == PopStore(pos, v)
    ensures var s' := Release(s, t, pos, v); Sequences(s') && Cells(s')
  {
    hide Index;
    assert ThreadOk(s, t, s.threads[t]);
    ReleaseKeepsSequences(s, t, pos, v);
    OtherSlots(s, pos, At(s, pos).(sequence := pos + |s.slots|));
  }

  lemma ReleaseKeepsDeliveries<V>(s: State<V>, t: Tid, pos: nat, v: V)
    requires Stands(s, t) && Deliveries(s) && s.threads[t] == PopStore(pos, v)
    requires Core(Release(s, t, pos, v))
    ensures Deliveries(Release(s, t, pos, v))
  {
    hide Index;
    var s' := Release(s, t, pos, v);
    assert ThreadOk(s, t, s.threads[t]);
    OtherSlots(s, pos, At(s, pos).(sequence := pos + |s.slots|));
    forall p: nat | p < s'.deq && Released(s', p)
      ensures IsDelivered(s', p)
    {
      if p == pos {
        assert s'.delivered[|s.delivered|].0 == p;
      } else {
        assert IsDelivered(s, p);
        var k :| 0 <= k < |s.delivered| && s.delivered[k].0 == p;
        assert s'.delivered[k].0 == p;
      }
    }
  }

  lemma ReleaseKeepsCompletions<V>(s: State<V>, t: Tid, pos: nat, v: V)
    requires Stands(s, t) && Completions(s) && s.threads[t] == PopStore(pos, v)
    requires Core(Release(s, t, pos, v))
    ensures Completions(Release(s, t, pos, v))
  {
    hide Index;
    assert ThreadOk(s, t, s.threads[t]);
    OtherSlots(s, pos, At(s, pos).(sequence := pos + |s.slots|));
  }

  lemma PublishKeepsInv<V>(s: State<V>, t: Tid, v: V, pos: nat)
    requires Inv(s) && t in s.threads && s.threads[t] == PushStore(v, pos)
    ensures Inv(Publish(s, t, pos))
  {
    hide Index;
    PublishKeepsThreads(s, t, v, pos);
    PublishKeepsCells(s, t, v, pos);
    PublishKeepsDeliveries(s, t, v, pos);
    PublishKeepsCompletions(s, t, v, pos);
  }

  lemma ReleaseKeepsInv<V>(s: State<V>, t: Tid, pos: nat, v: V)
    requires Inv(s) && t in s.threads && s.threads[t] == PopStore(pos, v)
    ensures Inv(Release(s, t, pos, v))
  {
    hide Index;
    ReleaseKeepsThreads(s, t, pos, v);
    ReleaseKeepsCells(s, t, pos, v);
    ReleaseKeepsDeliveries(s, t, pos, v);
    ReleaseKeepsCompletions(s, t, pos, v);
  }

  lemma TouchKeepsInv<V>(s: State<V>, s': State<V>, t: Tid)
    requires Inv(s) && TouchesValue(s, s', t)
    ensures Inv(s')
  {
    hide Index;
    TouchKeepsThreads(s, s', t);
    TouchKeepsCells(s, s', t);
    TouchKeepsDeliveries(s, s', t);
    TouchKeepsCompletions(s, s', t);
  }

  lemma ReserveKeepsInv<V>(s: State<V>, t: Tid, v: V)
    requires Inv(s) && t in s.threads && s.threads[t] == PushCas(v, s.enq)
    ensures Inv(Reserve(s, t, v))
  {
    hide Index;
    ReserveKeepsCore(s, t, v);
    ReserveKeepsDeliveries(s, t, v);
    ReserveKeepsCompletions(s, t, v);
  }

  lemma ClaimKeepsInv<V>(s: State<V>, t: Tid)
    requires Inv(s) && t in s.threads && s.threads[t] == PopCas(s.deq)
    ensures Inv(Claim(s, t))
  {
    hide Index;
    ClaimKeepsCore(s, t);
    ClaimKeepsDeliveries(s, t);
    ClaimKeepsCompletions(s, t);
  }

  lemma PushStepKeepsInv<V>(s: State<V>, t: Tid, spurious: bool)
    requires Inv(s) && t in s.threads
    requires var pc := s.threads[t];
             pc.PushLoad? || pc.PushSeq? || pc.PushCas? || pc.PushWrite? || pc.PushStore?
    ensures Inv(Act(s, t, Advance(spurious)))
  {
    hide Cells, Deliveries, Completions, Index;
    assert ThreadOk(s, t, s.threads[t]);
    match s.threads[t] {
      case PushLoad(v) => GotoKeepsInv(s, t, PushSeq(v, s.enq));
      case PushSeq(v, pos) => GotoKeepsInv(s, t, Act(s, t, Advance(spurious)).threads[t]);
      case PushCas(v, pos) =>
        if !spurious && s.enq == pos {
          ReserveKeepsInv(s, t, v);
        } else {
          GotoKeepsInv(s, t, PushSeq(v, s.enq));
        }
      case PushWrite(v, pos) => TouchKeepsInv(s, Write(s, t, v, pos), t);
      case PushStore(v, pos) => PublishKeepsInv(s, t, v, pos);
    }
  }

  lemma PopStepKeepsInv<V>(s: State<V>, t: Tid, spurious: bool)
    requires Inv(s) && t in s.threads && s.threads[t].Popping()
    ensures Inv(Act(s, t, Advance(spurious)))
  {
    hide Cells, Deliveries, Completions, Index;
    assert ThreadOk(s, t, s.threads[t]);
    match s.threads[t] {
      case PopLoad => GotoKeepsInv(s, t, PopSeq(s.deq));
      case PopSeq(pos) => GotoKeepsInv(s, t, Act(s, t, Advance(spurious)).threads[t]);
      case PopCas(pos) =>
        if !spurious && s.deq == pos {
          ClaimKeepsInv(s, t);
        } else {
          GotoKeepsInv(s, t, PopSeq(s.deq));
        }
      case PopRead(pos) => TouchKeepsInv(s, Read(s, t, pos, s.reserved[pos].1), t);
      case PopStore(pos, v) => ReleaseKeepsInv(s, t, pos, v);
    }
  }

  lemma ActKeepsInv<V>(s: State<V>, t: Tid, a: Action<V>)
    requires Inv(s) && Enabled(s, t, a)
    ensures Inv(Act(s, t, a))
  {
    match a
    case BeginPush(v) => GotoKeepsInv(s, t, PushLoad(v));
    case BeginPop => GotoKeepsInv(s, t, PopLoad);
    case Advance(spurious) =>
      if s.threads[t].Popping() {
        PopStepKeepsInv(s, t, spurious);
      } else {
        PushStepKeepsInv(s, t, spurious);
      }
  }
}
