/** The circular buffer of src/fifo_queue/circular_queue.c: a bounded first-in first-out
    queue, in which `front == -1` tells empty from full. */
module CircularQueues {
  import opened Wrappers

  // ----- the bounded queue, as a sequence

  function Pushed<T>(s: seq<T>, x: T, capacity: nat): (r: seq<T>)
  {
    if |s| < capacity then s + [x] else s
  }

  function Popped<T>(s: seq<T>): (r: seq<T>)
  {
    if s == [] then [] else s[1..]
  }

  datatype Op<T> = Push(x: T) | Pop

  function Apply<T>(s: seq<T>, op: Op<T>, capacity: nat): (r: seq<T>)
  {
    match op
    case Push(x) => Pushed(s, x, capacity)
    case Pop => Popped(s)
  }

  /** The queue, the values popped and the values accepted after a run of operations. */
  function After<T>(s: seq<T>, ops: seq<Op<T>>, capacity: nat): (r: seq<T>)
  {
    if ops == [] then s else Apply(After(s, ops[..|ops| - 1], capacity), ops[|ops| - 1], capacity)
  }

  function Taken<T>(s: seq<T>, ops: seq<Op<T>>, capacity: nat): (r: seq<T>)
  {
    if ops == [] then [] else
      var q := After(s, ops[..|ops| - 1], capacity);
      Taken(s, ops[..|ops| - 1], capacity) + if ops[|ops| - 1].Pop? && q != [] then [q[0]] else []
  }

  function Accepted<T>(s: seq<T>, ops: seq<Op<T>>, capacity: nat): (r: seq<T>)
  {
    if ops == [] then [] else
      var q := After(s, ops[..|ops| - 1], capacity);
      Accepted(s, ops[..|ops| - 1], capacity)
      + if ops[|ops| - 1].Push? && |q| < capacity then [ops[|ops| - 1].x] else []
  }

  /** Every run pops exactly what it accepted, in that order, and holds the rest. */
  lemma {:induction false} FirstInFirstOut<T>(s: seq<T>, ops: seq<Op<T>>, capacity: nat)
    requires |s| <= capacity
    ensures |After(s, ops, capacity)| <= capacity
    ensures Taken(s, ops, capacity) + After(s, ops, capacity) == s + Accepted(s, ops, capacity)
  {
    if ops != [] {
      var before, op := ops[..|ops| - 1], ops[|ops| - 1];
      FirstInFirstOut(s, before, capacity);
      OneOperation(After(s, before, capacity), op, capacity, Taken(s, before, capacity), s,
                   Accepted(s, before, capacity));
    }
  }

  lemma OneOperation<T>(q: seq<T>, op: Op<T>, capacity: nat, taken: seq<T>, s: seq<T>, accepted: seq<T>)
    requires taken + q == s + accepted
    ensures taken + (if op.Pop? && q != [] then [q[0]] else []) + Apply(q, op, capacity)
         == s + (accepted + if op.Push? && |q| < capacity then [op.x] else [])
  {
    assert accepted + [] == accepted && taken + [] == taken;
    match op {
      case Push(x) =>
        assert taken + (q + [x]) == (taken + q) + [x] == s + (accepted + [x]);
      case Pop =>
        assert q != [] ==> taken + [q[0]] + q[1..] == taken + q;
    }
  }

  // ----- the buffer

  predicate Occupied(front: int, rear: int, i: nat)
  {
    front != -1 && if front < rear then front <= i < rear else i < rear || front <= i
  }

  /** The queue held by the slots d, oldest element first. */
  function Held<T>(d: seq<T>, front: int, rear: int): (s: seq<T>)
    requires -1 <= front <= |d| && 0 <= rear <= |d|
    ensures front != -1 && (front < |d| || rear > 0) ==> s != []
  {
    if front == -1 then []
    else if front < rear then d[front..rear]
    else d[front..] + d[..rear]
  }

  /** `(i + 1) % capacity` */
  lemma NextSlot(i: nat, capacity: nat)
    requires i < capacity
    ensures (i + 1) % capacity == if i + 1 == capacity then 0 else i + 1
  {
  }

  lemma PushHeld<T>(d: seq<T>, front: int, rear: nat, x: T)
    requires -1 <= front < |d| && rear < |d| && front != rear && (front == -1 ==> rear == 0)
    ensures var f, r := if front == -1 then 0 else front, if rear + 1 == |d| then 0 else rear + 1;
            Held(d[rear := x], f, r) == Held(d, front, rear) + [x]
  {
    var d' := d[rear := x];
    if front == -1 {
      assert d'[0..1] == [x];
    } else if front < rear {
      assert d'[front..rear + 1] == d[front..rear] + [x];
    } else {
      assert d'[front..] == d[front..] && d'[..rear + 1] == d[..rear] + [x];
    }
  }

  lemma PushOccupies(n: nat, front: int, rear: nat, i: nat)
    requires -1 <= front < n && rear < n && front != rear && (front == -1 ==> rear == 0) && i < n
    ensures var f, r := if front == -1 then 0 else front, if rear + 1 == n then 0 else rear + 1;
            Occupied(f, r, i) <==> Occupied(front, rear, i) || i == rear
  {
  }

  lemma PopHeld<T>(d: seq<T>, front: nat, rear: nat, x: T)
    requires front < |d| && rear < |d|
    ensures var f := if front + 1 == |d| then 0 else front + 1;
            var s := Held(d, front, rear);
            && s[0] == d[front]
            && s[1..] == if f == rear then [] else Held(d[front := x], f, rear)
  {
    var d' := d[front := x];
    if front < rear {
      assert d[front..rear][1..] == d[front + 1..rear] == d'[front + 1..rear];
    } else if front + 1 < |d| {
      assert d[front..][1..] == d[front + 1..] == d'[front + 1..] && d[..rear] == d'[..rear];
      TailOfConcat(d[front..], d[..rear]);
    } else {
      assert d[front..][1..] == [] && d[..rear] == d'[0..rear];
      TailOfConcat(d[front..], d[..rear]);
    }
  }

  lemma TailOfConcat<T>(s: seq<T>, t: seq<T>)
    requires s != []
    ensures (s + t)[1..] == s[1..] + t
  {
  }

  lemma PopVacates(n: nat, front: nat, rear: nat, i: nat)
    requires front < n && rear < n && i < n
    ensures var f := if front + 1 == n then 0 else front + 1;
            (f != rear && Occupied(f, rear, i)) <==> (Occupied(front, rear, i) && i != front)
  {
  }

  class Queue<T> {
    const zero: T               // an element whose bytes are all zero
    const capacity: nat
    const data: array<T>
    var front: int
    var rear: int

    /** front and rear stand where they can, and the slots outside the queue are zeroed. */
    ghost predicate Valid()
      reads this, data
    {
      && 1 <= capacity == data.Length
      && 0 <= rear < capacity
      && -1 <= front < capacity
      && (front == -1 ==> rear == 0)
      && forall i :: 0 <= i < capacity && !Occupied(front, rear, i) ==> data[i] == zero
    }

    /** The queue, oldest element first. */
    ghost function Contents(): (s: seq<T>)
      requires Valid()
      reads this, data
      ensures |s| <= capacity
      ensures s == [] <==> front == -1
      ensures |s| == capacity <==> front == rear
    {
      Held(data[..], front, rear)
    }

    /** cirqueue_create */
    constructor (capacity: nat, zero: T)
      requires 1 <= capacity
      ensures Valid() && Contents() == [] && fresh(data)
      ensures this.capacity == capacity && this.zero == zero
    {
      this.capacity, this.zero := capacity, zero;
      data := new T[capacity](_ => zero);
      front, rear := -1, 0;
    }

    predicate IsFull()
      reads `front, `rear
    {
      front == rear
    }

    predicate IsEmpty()
      reads `front
    {
      front == -1
    }

    /** cirqueue_push: 1 when the queue is full, 0 otherwise. */
    method Push(x: T) returns (r: int)
      requires Valid()
      modifies `front, `rear, data
      ensures Valid() && Contents() == Pushed(old(Contents()), x, capacity)
      ensures r == if |old(Contents())| == capacity then 1 else 0
    {
      hide Held;
      if IsFull() { return 1; }
      PushHeld(data[..], front, rear, x);
      NextSlot(rear, capacity);
      ghost var f, r' := if front == -1 then 0 else front, if rear + 1 == capacity then 0 else rear + 1;
      forall i | 0 <= i < capacity ensures Occupied(f, r', i) <==> Occupied(front, rear, i) || i == rear {
        PushOccupies(capacity, front, rear, i);
      }
      if front == -1 {
        front := 0;
      }
      data[rear] := x;
      assert data[..] == old(data[..])[rear := x];
      rear := (rear + 1) % capacity;
      return 0;
    }

    /** cirqueue_pop: nothing when the queue is empty. */
    method Pop() returns (result: Option<T>)
      requires Valid()
      modifies `front, `rear, data
      ensures Valid() && Contents() == Popped(old(Contents()))
      ensures result == if old(Contents()) == [] then None else Some(old(Contents())[0])
      ensures Contents() == [] ==> front == -1 && rear == 0
    {
      hide Held;
      if IsEmpty() { return None; }
      PopHeld(data[..], front, rear, zero);
      ghost var f := if front + 1 == capacity then 0 else front + 1;
      forall i | 0 <= i < capacity
        ensures f != rear && Occupied(f, rear, i) <==> Occupied(front, rear, i) && i != front
      {
        PopVacates(capacity, front, rear, i);
      }
      NextSlot(front, capacity);
      result := Some(data[front]);
      data[front] := zero;
      assert data[..] == old(data[..])[front := zero];
      front := (front + 1) % capacity;
      if front == rear {
        front, rear := -1, 0;
      }
    }

    /** A run of operations on the queue, with the values that its pops returned. */
    method Run(ops: seq<Op<T>>) returns (popped: seq<T>)
      requires Valid()
      modifies `front, `rear, data
      ensures Valid() && Contents() == After(old(Contents()), ops, capacity)
      ensures popped == Taken(old(Contents()), ops, capacity)
      ensures popped + Contents() == old(Contents()) + Accepted(old(Contents()), ops, capacity)
    {
      ghost var s := Contents();
      popped := [];
      var n := 0;
      while n < |ops|
        invariant 0 <= n <= |ops| && Valid()
        invariant Contents() == After(s, ops[..n], capacity)
        invariant popped == Taken(s, ops[..n], capacity)
      {
        hide Valid, Contents, Pushed, Popped;
        assert ops[..n + 1][..n] == ops[..n];
        match ops[n] {
          case Push(x) =>
            var _ := Push(x);
          case Pop =>
            var x := Pop();
            if x.Some? { popped := popped + [x.value]; }
        }
        n := n + 1;
      }
      assert ops[..n] == ops;
      FirstInFirstOut(s, ops, capacity);
    }
  }
}
