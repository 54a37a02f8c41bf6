/** The doubly linked list of src/list with its bidirectional iterator: it refines a
    sequence of nodes. */
module LinkedLists {
  import opened Sequences
  import opened Wrappers

  datatype Direction = FromHead | FromTail

  class Node<V> {
    const val: V
    var prev: Node?<V>
    var next: Node?<V>

    /** list_node_new */
    constructor (val: V)
      ensures this.val == val && prev == null && next == null
    {
      this.val := val;
      prev, next := null, null;
    }
  }

  function At<V>(s: seq<Node<V>>, i: int): (n: Node?<V>)
  {
    if 0 <= i < |s| then s[i] else null
  }

  ghost predicate Linked<V(!new)>(s: seq<Node<V>>)
    reads s`prev, s`next
  {
    && Distinct(s)
    && (forall i {:trigger s[i].next} :: 0 <= i < |s| ==> s[i].next == At(s, i + 1))
    && (forall i {:trigger s[i].prev} :: 0 <= i < |s| ==> s[i].prev == At(s, i - 1))
  }

  /** The list after the neighbours of node k were linked to each other. */
  lemma WithoutLinked<V(!new)>(s: seq<Node<V>>, k: nat)
    requires Distinct(s) && k < |s|
    requires forall i {:trigger s[i].next} :: 0 <= i < |s| && i != k ==>
        s[i].next == At(s, if i == k - 1 then k + 1 else i + 1)
    requires forall i {:trigger s[i].prev} :: 0 <= i < |s| && i != k ==>
        s[i].prev == At(s, if i == k + 1 then k - 1 else i - 1)
    ensures Linked(Without(s, k))
  {
    hide Distinct, Without;
    var t := Without(s, k);
    WithoutDistinct(s, k);
    forall i | 0 <= i < |t|
      ensures t[i].next == At(t, i + 1) && t[i].prev == At(t, i - 1)
    {
      WithoutIndex(s, k, i);
      if i + 1 < |t| { WithoutIndex(s, k, i + 1); }
      if i > 0 { WithoutIndex(s, k, i - 1); }
    }
  }

  lemma LinkedNone<V(!new)>()
    ensures Linked<V>([])
  {
  }

  lemma LinkedOne<V(!new)>(node: Node<V>)
    requires node.prev == null && node.next == null
    ensures Linked([node])
  {
  }

  /** The links of a new node behind the tail of a list. */
  method LinkLast<V(!new)>(node: Node<V>, tail: Node<V>, ghost s: seq<Node<V>>)
    requires Linked(s) && s != [] && tail == s[|s| - 1] && node !in s
    modifies tail`next, node`prev, node`next
    ensures Linked(s + [node])
  {
    node.prev := tail;
    node.next := null;
    tail.next := node;
  }

  /** The links of a new node before the head of a list. */
  method LinkFirst<V(!new)>(node: Node<V>, head: Node<V>, ghost s: seq<Node<V>>)
    requires Linked(s) && s != [] && head == s[0] && node !in s
    modifies head`prev, node`prev, node`next
    ensures Linked([node] + s)
  {
    node.next := head;
    node.prev := null;
    head.prev := node;
  }

  /** The last node of a list of at least two leaves it; the new tail is returned. */
  method CutLast<V(!new)>(node: Node<V>, ghost s: seq<Node<V>>) returns (tail: Node<V>)
    requires Linked(s) && 2 <= |s| && node == s[|s| - 1]
    modifies s`next
    ensures tail == s[|s| - 2] && Linked(s[..|s| - 1]) && node !in s[..|s| - 1]
  {
    tail := node.prev;
    tail.next := null;
  }

  /** The first node of a list of at least two leaves it; the new head is returned. */
  method CutFirst<V(!new)>(node: Node<V>, ghost s: seq<Node<V>>) returns (head: Node<V>)
    requires Linked(s) && 2 <= |s| && node == s[0]
    modifies s`prev
    ensures head == s[1] && Linked(s[1..]) && node !in s[1..]
  {
    head := node.next;
    head.prev := null;
  }

  function Reversed<T>(s: seq<T>): (r: seq<T>)
    ensures |r| == |s| && forall i :: 0 <= i < |s| ==> r[i] == s[|s| - 1 - i]
  {
    seq(|s|, i requires 0 <= i < |s| => s[|s| - 1 - i])
  }

  /** The order in which an iterator of a direction meets the nodes. */
  function Order<V>(nodes: seq<Node<V>>, direction: Direction): (r: seq<Node<V>>)
    ensures |r| == |nodes|
  {
    if direction == FromHead then nodes else Reversed(nodes)
  }

  lemma OrderAt<V>(nodes: seq<Node<V>>, direction: Direction, k: nat)
    requires k < |nodes|
    ensures At(Order(nodes, direction), k) == At(nodes, if direction == FromHead then k else |nodes| - 1 - k)
  {
  }

  /** list_iterator_t */
  class Iterator<V(!new)> {
    const direction: Direction
    var next: Node?<V>
    ghost const order: seq<Node<V>>
    ghost var pos: nat

    /** The iterator stands before order[pos], and the links lead along order. */
    ghost predicate Valid()
      reads this, order
    {
      && pos <= |order| && next == At(order, pos)
      && forall i {:trigger order[i]} :: 0 <= i < |order| ==>
           (if direction == FromHead then order[i].next else order[i].prev) == At(order, i + 1)
    }

    /** list_iterator_new_from_node: from any node of a list, on to the end it faces. */
    constructor FromNode(node: Node?<V>, direction: Direction, ghost nodes: seq<Node<V>>, ghost k: nat)
      requires Linked(nodes) && k <= |nodes| && node == At(Order(nodes, direction), k)
      ensures Valid() && pos == 0 && order == Order(nodes, direction)[k..] && this.direction == direction
    {
      this.next := node;
      this.direction := direction;
      order := Order(nodes, direction)[k..];
      pos := 0;
    }

    /** list_iterator_next */
    method Next() returns (curr: Node?<V>)
      requires Valid()
      modifies this`next, this`pos
      ensures Valid() && curr == At(order, old(pos))
      ensures pos == if curr == null then old(pos) else old(pos) + 1
    {
      curr := next;
      if curr != null {
        next := if direction == FromHead then curr.next else curr.prev;
        pos := pos + 1;
      }
    }
  }

  /** list_t */
  class List<V(!new, ==)> {
    const frees: bool                       // is a `free` callback set?
    const matcher: Option<(V, V) -> bool>   // the `match` callback, if set
    var head: Node?<V>
    var tail: Node?<V>
    var len: nat
    ghost var nodes: seq<Node<V>>

    ghost predicate Valid()
      reads this, nodes
    {
      && Linked(nodes)
      && head == At(nodes, 0) && tail == At(nodes, |nodes| - 1)
      && len == |nodes|
    }

    /** list_new */
    constructor (frees: bool, matcher: Option<(V, V) -> bool>)
      ensures Valid() && nodes == [] && this.frees == frees && this.matcher == matcher
    {
      this.frees, this.matcher := frees, matcher;
      head, tail, len := null, null, 0;
      nodes := [];
    }

    /** list_rpush */
    method RPush(node: Node?<V>) returns (r: Node?<V>)
      requires Valid() && node !in nodes
      modifies this, tail, node
      ensures Valid() && r == node
      ensures nodes == old(nodes) + if node == null then [] else [node]
    {
      hide Linked;
      LinkedNone<V>();
      if node == null { return null; }
      if len != 0 {
        LinkLast(node, tail, nodes);
        tail := node;
      } else {
        head, tail := node, node;
        node.prev, node.next := null, null;
        LinkedOne(node);
        assert nodes + [node] == [node];
      }
      len := len + 1;
      nodes := nodes + [node];
      return node;
    }

    /** list_lpush */
    method LPush(node: Node?<V>) returns (r: Node?<V>)
      requires Valid() && node !in nodes
      modifies this, head, node
      ensures Valid() && r == node
      ensures nodes == (if node == null then [] else [node]) + old(nodes)
    {
      hide Linked;
      LinkedNone<V>();
      if node == null { return null; }
      if len != 0 {
        LinkFirst(node, head, nodes);
        head := node;
      } else {
        head, tail := node, node;
        node.prev, node.next := null, null;
        LinkedOne(node);
        assert [node] + nodes == [node];
      }
      len := len + 1;
      nodes := [node] + nodes;
      return node;
    }

    /** list_rpop */
    method RPop() returns (node: Node?<V>)
      requires Valid()
      modifies this, nodes
      ensures Valid() && node == At(old(nodes), |old(nodes)| - 1)
      ensures nodes == if old(nodes) == [] then [] else old(nodes)[..|old(nodes)| - 1]
      ensures node != null ==> node.prev == null && node.next == null
    {
      hide Linked;
      LinkedNone<V>();
      if len == 0 { return null; }
      node := tail;
      len := len - 1;
      if len != 0 {
        tail := CutLast(node, nodes);
      } else {
        tail, head := null, null;
      }
      nodes := nodes[..|nodes| - 1];
      node.next, node.prev := null, null;
    }

    /** list_lpop */
    method LPop() returns (node: Node?<V>)
      requires Valid()
      modifies this, nodes
      ensures Valid() && node == At(old(nodes), 0)
      ensures nodes == if old(nodes) == [] then [] else old(nodes)[1..]
      ensures node != null ==> node.prev == null && node.next == null
    {
      hide Linked;
      LinkedNone<V>();
      if len == 0 { return null; }
      node := head;
      len := len - 1;
      if len != 0 {
        head := CutFirst(node, nodes);
      } else {
        tail, head := null, null;
      }
      nodes := nodes[1..];
      node.next, node.prev := null, null;
    }

    /** list_iterator_new */
    method NewIterator(direction: Direction) returns (it: Iterator<V>)
      requires Valid()
      ensures fresh(it) && it.Valid() && it.pos == 0 && it.order == Order(nodes, direction) && it.direction == direction
    {
      it := new Iterator.FromNode(if direction == FromHead then head else tail, direction, nodes, 0);
    }

    predicate Matches(val: V, node: Node<V>)
    {
      if matcher.Some? then matcher.value(val, node.val) else val == node.val
    }

    /** list_find: the first node that the `match` callback accepts when it is given the value
        that is looked for and the node's; without a callback, the first with that value. */
    method Find(val: V) returns (node: Node?<V>)
      requires Valid()
      ensures matcher == None ==>
                if node == null then forall i :: 0 <= i < |nodes| ==> nodes[i].val != val
                else exists k :: 0 <= k < |nodes| && node == nodes[k] && node.val == val
                                 && forall i :: 0 <= i < k ==> nodes[i].val != val
      ensures matcher.Some? ==>
                if node == null then forall i :: 0 <= i < |nodes| ==> !matcher.value(val, nodes[i].val)
                else exists k :: 0 <= k < |nodes| && node == nodes[k] && matcher.value(val, node.val)
                                 && forall i :: 0 <= i < k ==> !matcher.value(val, nodes[i].val)
    {
      var it := NewIterator(FromHead);
      node := it.Next();
      ghost var k := 0;
      while node != null
        invariant it.Valid() && it.order == nodes && k <= |nodes| && node == At(nodes, k)
        invariant it.pos == if node == null then k else k + 1
        invariant forall i :: 0 <= i < k ==> !Matches(val, nodes[i])
        decreases |nodes| - k
      {
        if Matches(val, node) { return; }
        node := it.Next();
        k := k + 1;
      }
    }

    /** list_at: negative indices count from the tail. */
    method Item(index: int) returns (node: Node?<V>)
      requires Valid()
      ensures node == At(nodes, if index < 0 then |nodes| + index else index)
    {
      hide Order, Linked, Iterator.Valid;
      var direction, i := FromHead, index;
      if i < 0 {
        direction := FromTail;
        i := -1 - i;
      }
      if i < len {
        var it := NewIterator(direction);
        ghost var k := 0;
        node := it.Next();
        while i != 0
          invariant 0 <= i && k + i == (if index < 0 then -1 - index else index) < |nodes|
          invariant it.Valid() && it.order == Order(nodes, direction) && it.pos == k + 1
          invariant node == At(Order(nodes, direction), k)
        {
          i := i - 1;
          node := it.Next();
          k := k + 1;
        }
        OrderAt(nodes, direction, k);
        return node;
      }
      return null;
    }

    /** list_remove of a member; returns what was passed to `free`. */
    method Remove(node: Node<V>, ghost k: nat) returns (freed: seq<V>)
      requires Valid() && k < |nodes| && node == nodes[k]
      modifies this, nodes
      ensures Valid() && nodes == Without(old(nodes), k)
      ensures freed == if frees then [node.val] else []
    {
      hide Without, Distinct, Linked;
      WithoutEnds(nodes, k);
      LinkNeighbours(node, k);
      freed := if frees then [node.val] else [];
      nodes := Without(nodes, k);
      len := len - 1;
    }

    /** The part of list_remove that patches the links. */
    method LinkNeighbours(node: Node<V>, ghost k: nat)
      requires Linked(nodes) && k < |nodes| && node == nodes[k]
      modifies `head, `tail, nodes`prev, nodes`next
      ensures Linked(Without(nodes, k))
      ensures head == (if k == 0 then At(nodes, 1) else old(head))
      ensures tail == (if k == |nodes| - 1 then At(nodes, k - 1) else old(tail))
    {
      hide Without;
      if node.prev != null {
        node.prev.next := node.next;
      } else {
        head := node.next;
      }
      if node.next != null {
        node.next.prev := node.prev;
      } else {
        tail := node.prev;
      }
      WithoutLinked(nodes, k);
    }

    /** list_destroy: the nodes in the order in which they are freed. */
    method Destroy() returns (freed: seq<Node<V>>, values: seq<V>)
      requires Valid()
      ensures freed == nodes && Distinct(freed)
      ensures values == if frees then Values(nodes) else []
    {
      var n, curr := len, head;
      freed, values := [], [];
      while n != 0
        invariant 0 <= n <= |nodes| && curr == At(nodes, |nodes| - n)
        invariant freed == nodes[..|nodes| - n]
        invariant values == if frees then Values(freed) else []
      {
        assert curr == nodes[|nodes| - n];
        var next := curr.next;
        if frees { values := values + [curr.val]; }
        freed := freed + [curr];
        curr := next;
        n := n - 1;
      }
    }
  }

  function Values<V>(s: seq<Node<V>>): (r: seq<V>)
  {
    seq(|s|, i requires 0 <= i < |s| => s[i].val)
  }

  /** Walking a list with an iterator: from the head it yields the sequence, from the tail
      its reverse, each node once. */
  method Collect<V(!new, ==)>(list: List<V>, direction: Direction) returns (met: seq<Node<V>>)
    requires list.Valid()
    ensures met == if direction == FromHead then list.nodes else Reversed(list.nodes)
    ensures |met| == list.len && multiset(met) == multiset(list.nodes)
  {
    hide Order, Linked, Reversed, Iterator.Valid;
    var it := list.NewIterator(direction);
    ghost var order := it.order;
    met := [];
    var node := it.Next();
    while node != null
      invariant it.Valid() && it.order == order
      invariant |met| <= |order| && met == order[..|met|] && node == At(order, |met|)
      invariant it.pos == if node == null then |met| else |met| + 1
      decreases |order| - |met|
    {
      met := met + [node];
      node := it.Next();
    }
    assert met == order;
    OrderContents(list.nodes, direction);
  }

  lemma OrderContents<V>(s: seq<Node<V>>, direction: Direction)
    ensures Order(s, direction) == if direction == FromHead then s else Reversed(s)
    ensures multiset(Order(s, direction)) == multiset(s)
  {
    hide Reversed;
    ReversedContents(s);
  }

  lemma {:induction false} ReversedContents<T>(s: seq<T>)
    ensures multiset(Reversed(s)) == multiset(s)
  {
    if s != [] {
      var t := s[..|s| - 1];
      ReversedContents(t);
      assert s == t + [s[|s| - 1]];
      assert Reversed(s) == [s[|s| - 1]] + Reversed(t);
    }
  }
}
