/** The ring buffer and the two-stack queue, each against the FIFO it stands for. */
module Containers {
  import opened Option

  // -------------------------------------------------------------- ring buffer

  class CircularBuffer<T(0)> {
    const buffer: array<T>
    var head: nat
    var tail: nat
    var count: nat

    ghost predicate Valid()
      reads this
    {
      && count <= buffer.Length
      && (buffer.Length > 0 ==> head < buffer.Length && tail == Slot(count))
    }

    /** Where the element i places behind the head is kept; i may be one past the last. */
    ghost function Slot(i: nat): nat
      reads this
    {
      if head + i < buffer.Length then head + i else head + i - buffer.Length
    }

    ghost function Contents(): seq<T>
      requires Valid()
      reads this, buffer
    {
      seq(count, i requires 0 <= i < count reads this, buffer requires Valid() => buffer[Slot(i)])
    }

    constructor (n: nat)
      ensures Valid() && fresh(buffer) && buffer.Length == n && Contents() == []
    {
      buffer := new T[n];
      head, tail, count := 0, 0, 0;
    }

    method Push(val: T) returns (ok: bool)
      requires Valid()
      modifies this, buffer
      ensures Valid() && ok == (|old(Contents())| < buffer.Length)
      ensures Contents() == if ok then old(Contents()) + [val] else old(Contents())
    {
      if count == buffer.Length {
        return false;
      }
      ghost var before := Contents();
      buffer[tail] := val;
      ModOnce(tail + 1, buffer.Length);
      tail := (tail + 1) % buffer.Length;
      count := count + 1;
      assert Contents() == before + [val];
      return true;
    }

    method Pop() returns (val: Option<T>)
      requires Valid()
      modifies this
      ensures Valid()
      ensures val == if old(Contents()) == [] then None else Some(old(Contents())[0])
      ensures Contents() == if old(Contents()) == [] then [] else old(Contents())[1..]
    {
      if count == 0 {
        return None;
      }
      ghost var before := Contents();
      val := Some(buffer[head]);
      ModOnce(head + 1, buffer.Length);
      head := (head + 1) % buffer.Length;
      count := count - 1;
      assert Contents() == before[1..];
    }
  }

  lemma ModOnce(x: nat, n: nat)
    requires 0 < n && x <= n
    ensures x % n == if x == n then 0 else x
  {
  }

  // ----------------------------------------------------------- two-stack queue

  ghost function Flip<T>(s: seq<T>): (r: seq<T>)
    ensures |r| == |s| && forall k :: 0 <= k < |s| ==> r[k] == s[|s| - 1 - k]
  {
    seq(|s|, k requires 0 <= k < |s| => s[|s| - 1 - k])
  }

  /** The top of a stack is the last element of its sequence. */
  class Queue {
    var inStack: seq<int>
    var outStack: seq<int>
    ghost var pushes: nat
    ghost var moves: nat

    /** Each element is moved from one stack to the other at most once. */
    ghost predicate Valid()
      reads this
    {
      moves + |inStack| == pushes
    }

    ghost function Contents(): seq<int>
      reads this
    {
      Flip(outStack) + inStack
    }

    constructor ()
      ensures Valid() && Contents() == [] && pushes == moves == 0
    {
      inStack, outStack, pushes, moves := [], [], 0, 0;
    }

    method Push(val: int)
      requires Valid()
      modifies this
      ensures Valid() && Contents() == old(Contents()) + [val]
      ensures pushes == old(pushes) + 1 && moves == old(moves)
    {
      inStack := inStack + [val];
      pushes := pushes + 1;
    }

    /** Popping from an empty queue reads the top of an empty stack in the source. */
    method Pop() returns (val: int)
      requires Valid() && Contents() != []
      modifies this
      ensures Valid() && val == old(Contents())[0] && Contents() == old(Contents())[1..]
      ensures pushes == old(pushes) && old(moves) <= moves <= pushes
    {
      ghost var before := Contents();
      if outStack == [] {
        ghost var all := inStack;
        while inStack != []
          invariant inStack <= all && Flip(outStack) == all[|inStack|..]
          invariant Valid() && pushes == old(pushes) && old(moves) <= moves
          decreases |inStack|
        {
          var top := inStack[|inStack| - 1];
          outStack := outStack + [top];
          inStack := inStack[..|inStack| - 1];
          moves := moves + 1;
          assert Flip(outStack) == [top] + all[|inStack| + 1..];
        }
      }
      assert before == Contents();
      val := outStack[|outStack| - 1];
      outStack := outStack[..|outStack| - 1];
      assert Contents() == before[1..];
    }
  }

  // ------------------------------------------------------- what a FIFO keeps

  datatype Op<T> = Put(val: T) | Get

  /** The contents, with a log of what went in and what came out; None is no bound. */
  datatype Fifo<T> = Fifo(capacity: Option<nat>, contents: seq<T>, accepted: seq<T>, taken: seq<T>)

  function Apply<T>(f: Fifo<T>, op: Op<T>): Fifo<T> {
    match op
    case Put(val) =>
      if f.capacity == Some(|f.contents|) then f
      else f.(contents := f.contents + [val], accepted := f.accepted + [val])
    case Get =>
      if f.contents == [] then f
      else f.(contents := f.contents[1..], taken := f.taken + [f.contents[0]])
  }

  function Run<T>(f: Fifo<T>, ops: seq<Op<T>>): Fifo<T>
    decreases |ops|
  {
    if ops == [] then f else Run(Apply(f, ops[0]), ops[1..])
  }

  predicate Fits<T>(f: Fifo<T>) {
    f.capacity.Some? ==> |f.contents| <= f.capacity.value
  }

  /** For every operation sequence: nothing accepted is lost, duplicated or
      reordered, and no more than the capacity is ever held. */
  lemma {:induction false} InOrderAndBounded<T>(f: Fifo<T>, ops: seq<Op<T>>, start: seq<T>)
    requires start + f.accepted == f.taken + f.contents && Fits(f)
    ensures var r := Run(f, ops); start + r.accepted == r.taken + r.contents && Fits(r)
    decreases |ops|
  {
    if ops != [] {
      var next := Apply(f, ops[0]);
      if ops[0].Put? {
        assert start + (f.accepted + [ops[0].val]) == start + f.accepted + [ops[0].val];
        assert f.taken + (f.contents + [ops[0].val]) == f.taken + f.contents + [ops[0].val];
      } else if f.contents != [] {
        assert [f.contents[0]] + f.contents[1..] == f.contents;
        assert f.taken + [f.contents[0]] + f.contents[1..] == f.taken + f.contents;
      }
      InOrderAndBounded(next, ops[1..], start);
    }
  }

  /** Any use of the ring buffer is a run of the FIFO with its capacity. */
  method UseBuffer<T(0)>(b: CircularBuffer<T>, ops: seq<Op<T>>) returns (accepted: seq<T>, taken: seq<T>)
    requires b.Valid()
    modifies b, b.buffer
    ensures b.Valid()
    ensures var cap := Some(b.buffer.Length);
            Fifo(cap, b.Contents(), accepted, taken) == Run(Fifo(cap, old(b.Contents()), [], []), ops)
    ensures old(b.Contents()) + accepted == taken + b.Contents() && |b.Contents()| <= b.buffer.Length
  {
    accepted, taken := [], [];
    ghost var start := Fifo(Some(b.buffer.Length), b.Contents(), [], []);
    for k := 0 to |ops|
      invariant b.Valid()
      invariant Run(Fifo(Some(b.buffer.Length), b.Contents(), accepted, taken), ops[k..]) == Run(start, ops)
    {
      assert ops[k..][0] == ops[k] && ops[k..][1..] == ops[k + 1..];
      match ops[k]
      case Put(val) =>
        var ok := b.Push(val);
        if ok { accepted := accepted + [val]; }
      case Get =>
        var val := b.Pop();
        if val.Some? { taken := taken + [val.value]; }
    }
    InOrderAndBounded(start, ops, old(b.Contents()));
  }

  /** Any use of the queue that pops only what is there is a run of the unbounded FIFO. */
  method UseQueue(q: Queue, ops: seq<Op<int>>) returns (accepted: seq<int>, taken: seq<int>)
    requires q.Valid()
    modifies q
    ensures q.Valid()
    ensures Fifo(None, q.Contents(), accepted, taken) == Run(Fifo(None, old(q.Contents()), [], []), ops)
    ensures old(q.Contents()) + accepted == taken + q.Contents()
  {
    accepted, taken := [], [];
    ghost var start := Fifo(None, q.Contents(), [], []);
    for k := 0 to |ops|
      invariant q.Valid()
      invariant Run(Fifo(None, q.Contents(), accepted, taken), ops[k..]) == Run(start, ops)
    {
      assert ops[k..][0] == ops[k] && ops[k..][1..] == ops[k + 1..];
      match ops[k]
      case Put(val) =>
        q.Push(val);
        accepted := accepted + [val];
      case Get =>
        if q.inStack != [] || q.outStack != [] {
          var val := q.Pop();
          taken := taken + [val];
        }
    }
    InOrderAndBounded(start, ops, old(q.Contents()));
  }
}
