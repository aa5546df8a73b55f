/** `MpmcQueue` and `CommandQueue` of queue.rs as one thread sees them when it is alone: at
  * construction, in `Drop`, and as the reference the step machine of MpmcProtocol is measured by. */
module Queue {
  import opened Wrappers
  import opened MpmcProtocol

  ghost predicate IsPowerOfTwo(n: nat)
    decreases n
  {
    n == 1 || (n > 1 && n % 2 == 0 && IsPowerOfTwo(n / 2))
  }

  /** The least power of two that is not below n. */
  method NextPowerOfTwo(n: nat) returns (p: nat)
    ensures IsPowerOfTwo(p) && n <= p
    ensures p == 1 || p < 2 * n
  {
    p := 1;
    while p < n
      invariant IsPowerOfTwo(p)
      invariant p == 1 || p < 2 * n
      decreases n - p
    {
      p := p * 2;
    }
  }

  datatype QueueError = Full

  class MpmcQueue<T> {
    const sequences: array<nat>
    const values: array<Option<T>>
    var enqueuePos: nat
    var dequeuePos: nat

    ghost const Repr: set<object> := {this, sequences, values}

    function Capacity(): nat {
      sequences.Length
    }

    ghost predicate Valid()
      reads Repr
    {
      && sequences.Length == values.Length
      && sequences.Length >= 8
      && dequeuePos <= enqueuePos <= dequeuePos + sequences.Length
      && (forall p: nat :: dequeuePos <= p < enqueuePos ==>
            sequences[Index(Capacity(), p)] == p + 1 && values[Index(Capacity(), p)].Some?)
      && (forall p: nat :: enqueuePos <= p < dequeuePos + Capacity() ==>
            sequences[Index(Capacity(), p)] == p && values[Index(Capacity(), p)].None?)
    }

    /** The queued items, oldest first. */
    ghost function Contents(): (s: seq<T>)
      reads Repr
      requires Valid()
      ensures |s| == enqueuePos - dequeuePos
    {
      seq(enqueuePos - dequeuePos, i requires 0 <= i < enqueuePos - dequeuePos && Valid() reads Repr =>
        values[Index(Capacity(), dequeuePos + i)].value)
    }

    constructor (capacity: nat)
      ensures Valid() && fresh(Repr) && Contents() == []
      ensures IsPowerOfTwo(Capacity()) && Capacity() >= capacity
      ensures Capacity() == 8 || Capacity() < 2 * capacity
    {
      var cap := NextPowerOfTwo(capacity);
      assert IsPowerOfTwo(8) by {
        assert IsPowerOfTwo(4) && IsPowerOfTwo(2);
      }
      if cap < 8 {
        cap := 8;
      }
      sequences := new nat[cap](i => i);
      values := new Option<T>[cap](_ => None);
      enqueuePos, dequeuePos := 0, 0;
    }

    /** `spurious` counts the times the weak compare-exchange fails for no reason. */
    method Push(v: T, spurious: nat) returns (r: Result<(), QueueError>)
      requires Valid()
      modifies Repr
      ensures Valid()
      ensures r.Ok? <==> |old(Contents())| < Capacity()
      ensures Contents() == if r.Ok? then old(Contents()) + [v] else old(Contents())
    {
      var pos := enqueuePos;
      var failures := spurious;
      while true
        invariant Valid() && pos == enqueuePos == old(enqueuePos)
        invariant dequeuePos == old(dequeuePos) && Contents() == old(Contents())
        decreases failures
      {
        var at := Index(Capacity(), pos);
        var diff: int := sequences[at] as int - pos;
        if diff == 0 {
          if failures == 0 {
            FreeSlot();
            Fill(v);
            return Ok(());
          }
          failures := failures - 1;
          pos := enqueuePos;
        } else {
          FreeSlot();
          return Err(QueueError.Full);
        }
      }
    }

    method Pop(spurious: nat) returns (r: Option<T>)
      requires Valid()
      modifies Repr
      ensures Valid()
      ensures r.Some? <==> old(Contents()) != []
      ensures match r
              case Some(v) => old(Contents()) == [v] + Contents()
              case None => Contents() == old(Contents())
    {
      var pos := dequeuePos;
      var failures := spurious;
      while true
        invariant Valid() && pos == dequeuePos == old(dequeuePos)
        invariant enqueuePos == old(enqueuePos) && Contents() == old(Contents())
        decreases failures
      {
        var at := Index(Capacity(), pos);
        var diff: int := sequences[at] as int - (pos + 1);
        if diff == 0 {
          if failures == 0 {
            HeadSlot();
            var v := Empty();
            return Some(v);
          }
          failures := failures - 1;
          pos := dequeuePos;
        } else {
          HeadSlot();
          return None;
        }
      }
    }

    /** The compare-exchange of `push` succeeded: write the value and publish the position. */
    method Fill(v: T)
      requires Valid() && enqueuePos < dequeuePos + Capacity()
      modifies Repr
      ensures Valid() && Contents() == old(Contents()) + [v]
    {
      var pos := enqueuePos;
      var at := Index(Capacity(), pos);
      OthersKeepTheirSlots(pos);
      enqueuePos := pos + 1;
      values[at] := Some(v);
      sequences[at] := pos + 1;
    }

    /** The compare-exchange of `pop` succeeded: read the value and release the position. */
    method Empty() returns (v: T)
      requires Valid() && dequeuePos < enqueuePos
      modifies Repr
      ensures Valid() && old(Contents()) == [v] + Contents()
    {
      var pos := dequeuePos;
      var at := Index(Capacity(), pos);
      OthersKeepTheirSlots(pos);
      dequeuePos := pos + 1;
      v := values[at].value;
      values[at] := None;
      sequences[at] := pos + Capacity();
    }

    lemma FreeSlot()
      requires Valid()
      ensures sequences[Index(Capacity(), enqueuePos)] == enqueuePos <==> enqueuePos < dequeuePos + Capacity()
      ensures sequences[Index(Capacity(), enqueuePos)] <= enqueuePos
    {
      if enqueuePos == dequeuePos + Capacity() {
        assert Index(Capacity(), enqueuePos) == Index(Capacity(), dequeuePos);
      }
    }

    lemma HeadSlot()
      requires Valid()
      ensures sequences[Index(Capacity(), dequeuePos)] == dequeuePos + 1 <==> dequeuePos < enqueuePos
      ensures sequences[Index(Capacity(), dequeuePos)] <= dequeuePos + 1
    {
    }

    lemma OthersKeepTheirSlots(p: nat)
      requires Valid()
      ensures forall q: nat :: q != p && Index(Capacity(), q) == Index(Capacity(), p) ==>
                q + Capacity() <= p || p + Capacity() <= q
    {
      forall q: nat | q != p && Index(Capacity(), q) == Index(Capacity(), p)
        ensures q + Capacity() <= p || p + Capacity() <= q
      {
        if q < p {
          SameSlotFarApart(Capacity(), q, p);
        } else {
          SameSlotFarApart(Capacity(), p, q);
        }
      }
    }

    /** `Drop`: pops until the queue is empty, so every queued value is dropped exactly once. */
    method DropRemaining() returns (dropped: seq<T>)
      requires Valid()
      modifies Repr
      ensures Valid() && Contents() == [] && dropped == old(Contents())
    {
      hide Valid, Contents;
      dropped := [];
      var next := Pop(0);
      while next.Some?
        invariant Valid()
        invariant old(Contents()) == dropped + (match next case Some(v) => [v] case None => []) + Contents()
        invariant next.None? ==> Contents() == []
        decreases |Contents()|, next.Some?
      {
        dropped := dropped + [next.value];
        next := Pop(0);
      }
    }

    /** `CommandQueue::drain`: executes the queued commands against the world, oldest first. */
    method Drain<W>(exec: (T, W) -> W, world: W) returns (world': W, count: nat)
      requires Valid()
      modifies Repr
      ensures Valid() && Contents() == []
      ensures world' == Execute(exec, old(Contents()), world)
      ensures count == |old(Contents())|
    {
      hide Valid, Contents, Execute;
      NothingExecuted(exec, world);
      world', count := world, 0;
      var next := Pop(0);
      ghost var done: seq<T> := [];
      while next.Some?
        invariant Valid() && count == |done|
        invariant old(Contents()) == done + (match next case Some(v) => [v] case None => []) + Contents()
        invariant next.None? ==> Contents() == []
        invariant world' == Execute(exec, done, world)
        decreases |Contents()|, next.Some?
      {
        ExecuteAppend(exec, done, next.value, world);
        done := done + [next.value];
        world' := exec(next.value, world');
        count := count + 1;
        next := Pop(0);
      }
      assert done == old(Contents());
    }
  }

  /** Running commands in order. */
  function Execute<C, W>(exec: (C, W) -> W, commands: seq<C>, world: W): W {
    if commands == [] then world else Execute(exec, commands[1..], exec(commands[0], world))
  }

  lemma NothingExecuted<C, W>(exec: (C, W) -> W, world: W)
    ensures Execute(exec, [], world) == world
  {
  }

  lemma {:induction false} ExecuteAppend<C, W>(exec: (C, W) -> W, commands: seq<C>, c: C, world: W)
    ensures Execute(exec, commands + [c], world) == exec(c, Execute(exec, commands, world))
  {
    if commands == [] {
      assert commands + [c] == [c];
      assert Execute(exec, [c], world) == Execute(exec, [c][1..], exec(c, world));
    } else {
      assert (commands + [c])[1..] == commands[1..] + [c];
      ExecuteAppend(exec, commands[1..], c, exec(commands[0], world));
    }
  }
}
