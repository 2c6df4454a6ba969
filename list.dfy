/** The doubly linked list of src/a2x_pack_list.c. A list owns two sentinel nodes,
    `first` and `last`, whose content is NULL; the elements sit in the nodes between
    them. A node's content is modelled as `Some(x)` for an element and `None` for a
    sentinel's NULL. */
module LinkedList {
  import opened Wrappers

  ghost predicate DistinctNodes<T>(s: seq<Node<T>>)
  {
    forall i, j :: 0 <= i < j < |s| ==> s[i] != s[j]
  }

  /** `s` without its element at `k`. */
  function Without<T>(s: seq<T>, k: nat): (t: seq<T>)
    requires k < |s|
    ensures |t| == |s| - 1
    ensures forall i :: 0 <= i < k ==> t[i] == s[i]
    ensures forall i :: k <= i < |t| ==> t[i] == s[i + 1]
  {
    s[..k] + s[k + 1..]
  }

  /** `s` with `x` inserted at `k`. */
  function InsertAt<T>(s: seq<T>, k: nat, x: T): (t: seq<T>)
    requires k <= |s|
    ensures |t| == |s| + 1 && t[k] == x
    ensures forall i :: 0 <= i < k ==> t[i] == s[i]
    ensures forall i :: k < i < |t| ==> t[i] == s[i - 1]
  {
    s[..k] + [x] + s[k..]
  }

  lemma DistinctInsertAt<T>(s: seq<Node<T>>, k: nat, x: Node<T>)
    requires DistinctNodes(s) && k <= |s|
    requires forall i :: 0 <= i < |s| ==> s[i] != x
    ensures DistinctNodes(InsertAt(s, k, x))
  {
    var t := InsertAt(s, k, x);
    forall i, j | 0 <= i < j < |t|
      ensures t[i] != t[j]
    {
      if i != k && j != k {
        var i' := if i < k then i else i - 1;
        var j' := if j < k then j else j - 1;
        assert t[i] == s[i'] && t[j] == s[j'];
      }
    }
  }

  lemma DistinctWithout<T>(s: seq<Node<T>>, k: nat)
    requires DistinctNodes(s) && k < |s|
    ensures DistinctNodes(Without(s, k))
    ensures forall i :: 0 <= i < |s| - 1 ==> Without(s, k)[i] != s[k]
  {
    var t := Without(s, k);
    forall i, j | 0 <= i < j < |t|
      ensures t[i] != t[j]
    {
      var i' := if i < k then i else i + 1;
      var j' := if j < k then j else j + 1;
      assert t[i] == s[i'] && t[j] == s[j'];
    }
  }

  /** `ListNode`. */
  class Node<T> {
    var content: Option<T>
    var next: Node?<T>
    var prev: Node?<T>

    constructor (content: Option<T>, next: Node?<T>, prev: Node?<T>)
      ensures this.content == content && this.next == next && this.prev == prev
    {
      this.content := content;
      this.next := next;
      this.prev := prev;
    }
  }

  /** `List`: the two sentinels and the `items` counter. The ghost `nodes` holds every
      node from `first` to `last` in link order, and `Contents` the elements. */
  class List<T(0, ==)> {
    var first: Node<T>
    var last: Node<T>
    var items: int
    ghost var nodes: seq<Node<T>>
    ghost var Contents: seq<T>
    ghost var Repr: set<object>

    /** Each node links forward to the next one and back to the previous one. */
    ghost predicate Linked()
      reads this, Repr
      requires NodesInRepr()
    {
      && nodes[0].prev == null
      && nodes[|nodes| - 1].next == null
      && forall i :: 0 <= i < |nodes| - 1 ==> nodes[i].next == nodes[i + 1] && nodes[i + 1].prev == nodes[i]
    }

    /** Node `j` links as it does in `nodes` order. */
    ghost predicate Forward(j: nat)
      reads this, Repr
      requires NodesInRepr() && j < |nodes|
    {
      && nodes[j].next == (if j + 1 < |nodes| then nodes[j + 1] else null)
      && nodes[j].prev == (if j > 0 then nodes[j - 1] else null)
    }

    /** Node `j` links as it does in the reverse of `nodes` order. */
    ghost predicate Backward(j: nat)
      reads this, Repr
      requires NodesInRepr() && j < |nodes|
    {
      && nodes[j].next == (if j > 0 then nodes[j - 1] else null)
      && nodes[j].prev == (if j + 1 < |nodes| then nodes[j + 1] else null)
    }

    ghost predicate NodesInRepr()
      reads this
    {
      && 2 <= |nodes|
      && nodes[0] == first && nodes[|nodes| - 1] == last
      && (forall i :: 0 <= i < |nodes| ==> nodes[i] in Repr)
    }

    /** The sentinels hold NULL and node `i + 1` holds element `i`. */
    ghost predicate Stored()
      reads this, Repr
      requires NodesInRepr()
    {
      && |Contents| == |nodes| - 2
      && first.content == None && last.content == None
      && (forall i :: 0 <= i < |Contents| ==> nodes[i + 1].content == Some(Contents[i]))
    }

    ghost predicate Distinct()
      reads this
    {
      DistinctNodes(nodes)
    }

    /** A well-formed list. `items` never undercounts the elements; it can overcount
        them, since `a_list_removeNode` leaves it alone. */
    ghost predicate Valid()
      reads this, Repr
    {
      && this in Repr
      && NodesInRepr()
      && Distinct()
      && Linked()
      && Stored()
      && |Contents| <= items
    }

    /** `a_list_new`: two linked sentinels and no elements. */
    constructor ()
      ensures Valid() && fresh(Repr)
      ensures Contents == [] && items == 0
    {
      var l := new Node<T>(None, null, null);
      var f := new Node<T>(None, l, null);
      l.prev := f;
      first := f;
      last := l;
      items := 0;
      nodes := [f, l];
      Contents := [];
      Repr := {this, f, l};
    }

    /** `a_list_isEmpty`: the first sentinel links straight to the last. */
    method IsEmpty() returns (b: bool)
      requires Valid()
      ensures b <==> Contents == []
    {
      b := first.next == last;
      if |nodes| > 2 {
        assert first.next == nodes[1] && nodes[1] != last;
      }
    }
    /** `a_list_addFirst`: links a new node right after the first sentinel. */
    method AddFirst(x: T) returns (n: Node<T>)
      requires Valid()
      modifies Repr
      ensures Valid() && fresh(n) && Repr == old(Repr) + {n}
      ensures Contents == [x] + old(Contents) && items == old(items) + 1
      ensures first == old(first) && last == old(last)
    {
      var before := first;
      var after := first.next;
      assert after == nodes[1];
      n := new Node<T>(Some(x), after, before);
      before.next := n;
      after.prev := n;
      items := items + 1;
      ghost var old_nodes := nodes;
      DistinctInsertAt(old_nodes, 1, n);
      nodes := InsertAt(old_nodes, 1, n);
      Contents := [x] + Contents;
      Repr := Repr + {n};
      forall i | 2 <= i < |nodes| - 1
        ensures nodes[i].next == nodes[i + 1] && nodes[i + 1].prev == nodes[i]
      {
        assert nodes[i] == old_nodes[i - 1] && nodes[i + 1] == old_nodes[i];
      }
      forall i | 1 <= i < |Contents| ensures nodes[i + 1].content == Some(Contents[i]) {
        assert nodes[i + 1] == old_nodes[i];
      }
    }

    /** `a_list_addLast`: links a new node right before the last sentinel. */
    method AddLast(x: T) returns (n: Node<T>)
      requires Valid()
      modifies Repr
      ensures Valid() && fresh(n) && Repr == old(Repr) + {n}
      ensures Contents == old(Contents) + [x] && items == old(items) + 1
      ensures first == old(first) && last == old(last)
    {
      var after := last;
      var before := last.prev;
      ghost var k := |nodes| - 2;
      assert before == nodes[k];
      n := new Node<T>(Some(x), after, before);
      before.next := n;
      after.prev := n;
      items := items + 1;
      ghost var old_nodes := nodes;
      DistinctInsertAt(old_nodes, k + 1, n);
      nodes := InsertAt(old_nodes, k + 1, n);
      Contents := Contents + [x];
      Repr := Repr + {n};
    }

    /** `a_list_removeNode`: unlinks the node holding element `k`. It does not touch
        `items`, and freeing the node or its content is not modelled. */
    method RemoveNode(node: Node<T>, ghost k: nat)
      requires Valid() && k < |Contents| && node == nodes[k + 1]
      modifies Repr
      ensures Valid() && Repr == old(Repr) - {node}
      ensures Contents == old(Contents)[..k] + old(Contents)[k + 1..] && items == old(items)
      ensures first == old(first) && last == old(last)
    {
      var before := node.prev;
      var after := node.next;
      assert before == nodes[k] && after == nodes[k + 2];
      ghost var old_nodes := nodes;
      DistinctWithout(old_nodes, k + 1);
      before.next := after;
      after.prev := before;
      nodes := Without(old_nodes, k + 1);
      Contents := Without(Contents, k);
      Repr := Repr - {node};
      forall i | 0 <= i < |nodes| - 1
        ensures nodes[i].next == nodes[i + 1] && nodes[i + 1].prev == nodes[i]
      {
        if i < k {
          assert nodes[i] == old_nodes[i] && nodes[i + 1] == old_nodes[i + 1];
        } else if i > k {
          assert nodes[i] == old_nodes[i + 1] && nodes[i + 1] == old_nodes[i + 2];
        }
      }
      forall i | 0 <= i < |Contents| ensures nodes[i + 1].content == Some(Contents[i]) {
        if i < k {
          assert nodes[i + 1] == old_nodes[i + 1];
        } else {
          assert nodes[i + 1] == old_nodes[i + 2];
        }
      }
      assert NodesInRepr();
    }

    /** `a_list_removeFirst`: NULL on an empty list; otherwise unlinks the first element
        and returns it, or NULL when its content is freed. */
    method RemoveFirst(freeContent: bool) returns (v: Option<T>)
      requires Valid()
      modifies Repr
      ensures Valid() && Repr <= old(Repr)
      ensures old(Contents) == [] ==> v == None && Contents == [] && items == old(items)
      ensures old(Contents) != [] ==> Contents == old(Contents)[1..] && items == old(items) - 1
      ensures old(Contents) != [] ==> v == (if freeContent then None else Some(old(Contents)[0]))
      ensures first == old(first) && last == old(last)
    {
      var n := first.next;
      assert n == nodes[1];
      if n == last {
        return None;
      }
      assert n == nodes[1];
      v := n.content;
      RemoveNode(n, 0);
      items := items - 1;
      if freeContent {
        v := None;
      }
    }

    /** `a_list_removeLast`: NULL on an empty list; otherwise unlinks the last element
        and returns it, or NULL when its content is freed. */
    method RemoveLast(freeContent: bool) returns (v: Option<T>)
      requires Valid()
      modifies Repr
      ensures Valid() && Repr <= old(Repr)
      ensures old(Contents) == [] ==> v == None && Contents == [] && items == old(items)
      ensures old(Contents) != [] ==> Contents == old(Contents)[..|old(Contents)| - 1] && items == old(items) - 1
      ensures old(Contents) != [] ==> v == (if freeContent then None else Some(old(Contents)[|old(Contents)| - 1]))
      ensures first == old(first) && last == old(last)
    {
      var n := last.prev;
      assert n == nodes[|nodes| - 2];
      if n == first {
        return None;
      }
      ghost var k := |Contents| - 1;
      assert n == nodes[k + 1];
      v := n.content;
      RemoveNode(n, k);
      items := items - 1;
      if freeContent {
        v := None;
      }
    }

    /** `a_list_remove`: walks the elements and unlinks the first node holding `v`.
        Like `RemoveNode`, it leaves `items` as it was. */
    method Remove(v: T)
      requires Valid()
      modifies Repr
      ensures Valid() && Repr <= old(Repr)
      ensures Contents == WithoutFirst(old(Contents), v) && items == old(items)
      ensures first == old(first) && last == old(last)
    {
      var n := first.next;
      ghost var i := 1;
      while n != last
        invariant 1 <= i < |nodes| && n == nodes[i]
        invariant v !in Contents[..i - 1]
        decreases |nodes| - i
      {
        if n.content == Some(v) {
          break;
        }
        assert Contents[..i] == Contents[..i - 1] + [Contents[i - 1]];
        n := n.next;
        i := i + 1;
      }
      if n != last {
        WithoutFirstAt(Contents, i - 1, v);
        RemoveNode(n, i - 1);
      } else {
        assert Contents[..i - 1] == Contents;
        WithoutFirstAbsent(Contents, v);
      }
    }

    /** `a_list_empty`: relinks the sentinels and zeroes `items`. The walk that frees
        the old nodes is not modelled. */
    method Empty(freeContent: bool)
      requires Valid()
      modifies Repr
      ensures Valid() && Repr <= old(Repr)
      ensures Contents == [] && items == 0
      ensures first == old(first) && last == old(last)
    {
      first.next := last;
      last.prev := first;
      items := 0;
      nodes := [first, last];
      Contents := [];
    }

    /** `a_list_get`: counts from -1 at the first sentinel and returns the content of
        the node where the count meets `index`; NULL when it never does. */
    method Get(index: int) returns (r: Option<T>)
      requires Valid()
      ensures 0 <= index < |Contents| ==> r == Some(Contents[index])
      ensures !(0 <= index < |Contents|) ==> r == None
    {
      var counter := -1;
      var n := first;
      ghost var i := 0;
      while n.next != null
        invariant 0 <= i < |nodes| && n == nodes[i] && counter == i - 1
        invariant i < |nodes| - 1 ==> n.next == nodes[i + 1]
        invariant !(-1 <= index < counter)
        decreases |nodes| - i
      {
        if counter == index {
          return n.content;
        }
        n := n.next;
        counter := counter + 1;
        i := i + 1;
      }
      return None;
    }

    /** `a_list_getArray`: an array of `items` slots filled with the elements in order;
        `Valid` guarantees that the elements fit. */
    method GetArray() returns (a: array<T>)
      requires Valid()
      ensures fresh(a) && a.Length == items
      ensures a[..|Contents|] == Contents
    {
      a := new T[items];
      var i := 0;
      var n := first.next;
      while n != last
        invariant 0 <= i <= |Contents| && n == nodes[i + 1]
        invariant a[..i] == Contents[..i]
        decreases |Contents| - i
      {
        assert n != nodes[|nodes| - 1];
        assert n.content == Some(Contents[i]);
        a[i] := n.content.value;
        assert a[..i + 1] == Contents[..i + 1];
        n := n.next;
        i := i + 1;
      }
    }

    /** The loop of `a_list_reverse`: from the last sentinel, follows the links
        backwards swapping each node's `next` and `prev`. */
    method SwapLinks()
      requires Valid()
      modifies Repr
      ensures unchanged(this) && NodesInRepr() && Stored()
      ensures forall j :: 0 <= j < |nodes| ==> Backward(j)
    {
      var n := last;
      ghost var i := |nodes| - 1;
      while n != null
        invariant -1 <= i < |nodes|
        invariant i >= 0 ==> n == nodes[i]
        invariant i < 0 ==> n == null
        invariant unchanged(this) && NodesInRepr() && Stored()
        invariant forall j :: 0 <= j <= i ==> Forward(j)
        invariant forall j :: i < j < |nodes| ==> Backward(j)
        decreases i + 1
      {
        assert Forward(i);
        label Step:
        var save := n.next;
        n.next := n.prev;
        n.prev := save;
        assert Backward(i);
        forall j | 0 <= j < i
          ensures Forward(j)
        {
          assert old@Step(Forward(j)) && nodes[j] != nodes[i];
        }
        forall j | i < j < |nodes|
          ensures Backward(j)
        {
          assert old@Step(Backward(j)) && nodes[j] != nodes[i];
        }
        n := n.next;
        i := i - 1;
      }
    }

    /** `a_list_reverse`: from the last sentinel, follows the links backwards swapping
        each node's `next` and `prev`, then swaps the sentinels. */
    method Reverse()
      requires Valid()
      modifies Repr
      ensures Valid() && Repr == old(Repr)
      ensures Contents == Reversed(old(Contents)) && items == old(items)
      ensures first == old(last) && last == old(first)
    {
      SwapLinks();
      label Walked:
      var save := first;
      first := last;
      last := save;
      ghost var forward := nodes;
      nodes := Reversed(forward);
      Contents := Reversed(Contents);
      assert old@Walked(Backward(0)) && old@Walked(Backward(|forward| - 1));
      forall k | 0 <= k < |nodes| - 1
        ensures nodes[k].next == nodes[k + 1] && nodes[k + 1].prev == nodes[k]
      {
        var j := |forward| - 1 - k;
        assert nodes[k] == forward[j] && nodes[k + 1] == forward[j - 1];
        assert old@Walked(Backward(j)) && old@Walked(Backward(j - 1));
      }
    }
  }

  /** The sequence in the opposite order. */
  function Reversed<T>(s: seq<T>): (r: seq<T>)
    ensures |r| == |s|
    ensures forall i :: 0 <= i < |s| ==> r[i] == s[|s| - 1 - i]
  {
    if s == [] then [] else Reversed(s[1..]) + [s[0]]
  }

  /** `s` without the first occurrence of `v`; `s` itself when `v` does not occur. */
  function WithoutFirst<T(==)>(s: seq<T>, v: T): seq<T>
  {
    if s == [] then []
    else if s[0] == v then s[1..]
    else [s[0]] + WithoutFirst(s[1..], v)
  }

  lemma {:induction false} WithoutFirstAt<T>(s: seq<T>, k: nat, v: T)
    requires k < |s| && s[k] == v && v !in s[..k]
    ensures WithoutFirst(s, v) == s[..k] + s[k + 1..]
  {
    if k > 0 {
      assert s[1..][..k - 1] == s[..k][1..];
      WithoutFirstAt(s[1..], k - 1, v);
    }
  }

  lemma {:induction false} WithoutFirstAbsent<T>(s: seq<T>, v: T)
    requires v !in s
    ensures WithoutFirst(s, v) == s
  {
    if s != [] {
      WithoutFirstAbsent(s[1..], v);
    }
  }

  /** Removing the first occurrence drops exactly one copy of `v` when there is one,
      and nothing otherwise. */
  lemma {:induction false} WithoutFirstCounts<T>(s: seq<T>, v: T)
    ensures multiset(WithoutFirst(s, v)) == multiset(s) - multiset{v}
    ensures |WithoutFirst(s, v)| == if v in s then |s| - 1 else |s|
  {
    if s != [] {
      assert s == [s[0]] + s[1..];
      if s[0] != v {
        WithoutFirstCounts(s[1..], v);
      }
    }
  }

  /** Reversing twice gives the sequence back. */
  lemma ReversedTwice<T>(s: seq<T>)
    ensures Reversed(Reversed(s)) == s
  {
    assert forall i :: 0 <= i < |s| ==> Reversed(Reversed(s))[i] == s[i];
  }
}
