/**
  The kernel's doubly linked list on the heap.  `nodes` (ghost) lists the nodes in order, and
  validity says that head, tail, size and every link agree with it, so each operation's effect
  is stated on a sequence.
*/
module LinkedLists {
  import opened Lists

  class Node<T> {
    const e: T
    var next: Node?<T>
    var prev: Node?<T>

    constructor (e: T)
      ensures this.e == e && next == null && prev == null
    {
      this.e, next, prev := e, null, null;
    }
  }

  function Elems<T>(s: seq<Node<T>>): (r: seq<T>)
    ensures |r| == |s|
  {
    seq(|s|, i requires 0 <= i < |s| => s[i].e)
  }

  function At<T>(s: seq<Node<T>>, i: int): Node?<T> { if 0 <= i < |s| then s[i] else null }

  /** Every node of the sequence lies in `R` and points to its neighbours in the sequence. */
  ghost predicate Linked<T>(s: seq<Node<T>>, R: set<Node<T>>)
    reads R
  {
    && (forall i :: 0 <= i < |s| ==> s[i] in R)
    && (forall i {:trigger s[i].next} {:trigger s[i].prev} :: 0 <= i < |s| ==> s[i].next == At(s, i + 1) && s[i].prev == At(s, i - 1))
  }

  /** The links determine the list. */
  lemma SameChain<T>(s: seq<Node<T>>, R: set<Node<T>>, r: seq<Node<T>>, Q: set<Node<T>>)
    requires Linked(s, R) && Linked(r, Q) && At(r, 0) == At(s, 0)
    ensures r == s
  {
    var k := 0;
    while k < |s| && k < |r|
      invariant k <= |s| && k <= |r| && At(r, k) == At(s, k) && r[..k] == s[..k]
    {
      assert s[k].next == At(s, k + 1) && r[k].next == At(r, k + 1);
      assert r[..k + 1] == r[..k] + [r[k]] && s[..k + 1] == s[..k] + [s[k]];
      k := k + 1;
    }
    assert r == r[..k] && s == s[..k];
  }

  /** The values are in ascending order of their keys. */
  ghost predicate Ordered<T>(s: seq<Node<T>>, key: T -> int) {
    forall i, j :: 0 <= i < j < |s| ==> key(s[i].e) <= key(s[j].e)
  }

  /** The index of the first value with key `c`. */
  predicate FirstWith<T>(s: seq<Node<T>>, key: T -> int, c: int, k: nat) {
    k < |s| && key(s[k].e) == c && forall i :: 0 <= i < k ==> key(s[i].e) != c
  }

  lemma OrderedInsert<T>(s: seq<Node<T>>, key: T -> int, n: Node<T>, k: nat)
    requires Ordered(s, key) && k <= |s|
    requires (k > 0 ==> key(s[k - 1].e) <= key(n.e)) && (k < |s| ==> key(n.e) <= key(s[k].e))
    ensures Ordered(s[..k] + [n] + s[k..], key)
  {
    var r := s[..k] + [n] + s[k..];
    assert forall i :: 0 <= i < k ==> r[i] == s[i];
    assert forall i :: k < i < |r| ==> r[i] == s[i - 1];
    forall i, j | 0 <= i < j < |r| ensures key(r[i].e) <= key(r[j].e) {
      if i == k && j > k + 1 { assert key(s[k].e) <= key(s[j - 1].e); }
      if j == k && i < k - 1 { assert key(s[i].e) <= key(s[k - 1].e); }
    }
  }

  /** A node linked at place `k` of `len` nodes keeps its own link only at an end, where it must be null. */
  predicate NoStaleLink<T>(n: Node<T>, k: nat, len: nat)
    reads n
  {
    (k == len ==> n.next == null) && (k == 0 ==> n.prev == null)
  }

  ghost function Neighbours<T>(n: Node<T>): set<Node<T>>
    reads n
  {
    (if n.next == null then {} else {n.next}) + (if n.prev == null then {} else {n.prev})
  }

  /** `n` and its neighbours are different nodes. */
  ghost predicate NoLoop<T>(n: Node<T>)
    reads n
  {
    n.next != n && n.prev != n && (n.next == null || n.next != n.prev)
  }

  /** Connects the neighbours of `n` to each other and clears its links. */
  method Bypass<T>(n: Node<T>)
    requires NoLoop(n)
    modifies n, Neighbours(n)
    ensures n.next == null && n.prev == null
    ensures forall x :: x in old(Neighbours(n)) ==> x.next == (if x == old(n.prev) then old(n.next) else old(x.next))
    ensures forall x :: x in old(Neighbours(n)) ==> x.prev == (if x == old(n.next) then old(n.prev) else old(x.prev))
  {
    if n.next != null { n.next.prev := n.prev; }
    if n.prev != null { n.prev.next := n.next; }
    n.next := null;
    n.prev := null;
  }

  class LinkedList<T> {
    var head: Node?<T>
    var tail: Node?<T>
    var size: nat
    ghost var nodes: seq<Node<T>>
    ghost var repr: set<Node<T>>

    /** Head, tail and size say what the sequence says. */
    ghost predicate Ends()
      reads this
    {
      head == At(nodes, 0) && tail == At(nodes, |nodes| - 1) && size == |nodes|
    }

    ghost predicate Valid()
      reads this, repr
    {
      Ends() && Linked(nodes, repr) && Distinct(nodes)
    }

    constructor ()
      ensures Valid() && nodes == [] && repr == {}
    {
      head, tail, size, nodes, repr := null, null, 0, [], {};
    }

    ghost function Last(): set<Node<T>>
      reads this
    {
      if tail == null then {} else {tail}
    }

    /** Links a node at the end.  That makes a longer list exactly when no link is left over from before. */
    method LinkLast(n: Node<T>)
      requires head != null ==> tail != null
      modifies this, Last(), n
      ensures nodes == old(nodes) + [n] && repr == old(repr) + {n} && size == old(size) + 1
      ensures old(Valid()) && n !in old(repr) ==> (Valid() <==> old(NoStaleLink(n, |nodes|, |nodes|)))
    {
      if head == null {
        head, tail := n, n;
      } else {
        tail.next := n;
        n.prev := tail;
        tail := n;
      }
      size := size + 1;
      nodes := nodes + [n];
      repr := repr + {n};
    }

    /** Links a node at the front, under the same condition. */
    method LinkFirst(n: Node<T>)
      requires Valid() && n !in repr
      modifies this, repr, n
      ensures nodes == [n] + old(nodes) && repr == old(repr) + {n}
      ensures Valid() <==> old(NoStaleLink(n, 0, |nodes|))
    {
      if head == null {
        head, tail := n, n;
      } else {
        head.prev := n;
        n.next := head;
        head := n;
      }
      size := size + 1;
      nodes := [n] + nodes;
      repr := repr + {n};
    }

    /** Moves the head to the end. */
    method Rotate() returns (r: int)
      requires Valid()
      modifies this, repr
      ensures Valid() && repr == old(repr) && r == (if old(nodes) == [] then -2 else 0)
      ensures nodes == if |old(nodes)| <= 1 then old(nodes) else old(nodes)[1..] + [old(nodes)[0]]
    {
      if size == 0 { return -2; }
      if size == 1 { return 0; }
      var orig := head;
      head := orig.next;
      head.prev := null;
      orig.next := null;
      orig.prev := tail;
      tail.next := orig;
      tail := orig;
      nodes := nodes[1..] + [nodes[0]];
      return 0;
    }

    /** Links `n` behind the `k`-th node, which is not the last. */
    method LinkAfter(curr: Node<T>, n: Node<T>, ghost k: nat)
      requires Valid() && n !in repr && k + 1 < |nodes| && curr == nodes[k]
      modifies this, repr, n
      ensures Valid() && nodes == old(nodes)[..k + 1] + [n] + old(nodes)[k + 1..] && repr == old(repr) + {n}
    {
      hide Distinct;
      var after := curr.next;
      assert after == nodes[k + 1];
      InsertDistinct(nodes, n, k + 1);
      AtIndices(nodes, k);
      AtIndices(nodes, k + 1);
      after.prev := n;
      n.next := after;
      curr.next := n;
      n.prev := curr;
      size := size + 1;
      ghost var s := nodes;
      nodes := nodes[..k + 1] + [n] + nodes[k + 1..];
      repr := repr + {n};
      SplicedIn(s, old(repr), n, k);
    }

    /** Links `n` where the order of the keys puts it, under the same condition; an ordered list stays ordered. */
    method LinkSorted(n: Node<T>, key: T -> int) returns (ghost k: nat)
      requires Valid() && n !in repr
      modifies this, repr, n
      ensures k == SortedPlace(Elems(old(nodes)), key, key(n.e)) && FitsAt(Elems(old(nodes)), key, key(n.e), k)
      ensures nodes == old(nodes)[..k] + [n] + old(nodes)[k..] && repr == old(repr) + {n}
      ensures Valid() <==> (k == |old(nodes)| ==> old(n.next) == null) && (k == 0 ==> old(n.prev) == null)
      ensures Ordered(old(nodes), key) ==> Ordered(nodes, key)
    {
      hide Distinct, Ordered;
      ghost var s := nodes;
      ghost var es := Elems(s);
      PlaceFits(es, key, key(n.e));
      if head == null {
        LinkLast(n);
        assert nodes == [n] && s[..0] + [n] + s[0..] == nodes;
        OrderedOne(n, key);
        return 0;
      }
      var curr := head;
      if key(n.e) < key(curr.e) {
        LinkFirst(n);
        assert s[..0] + [n] + s[0..] == nodes;
        if Ordered(s, key) { OrderedInsert(s, key, n, 0); }
        return 0;
      }
      k := 0;
      while curr.next != null
        invariant k < |s| && nodes == s && curr == s[k] && key(curr.e) <= key(n.e)
        invariant SortedPlace(es, key, key(n.e)) == PlaceAfter(es, key, key(n.e), k)
        decreases |s| - k
      {
        if key(n.e) >= key(curr.e) && key(n.e) <= key(curr.next.e) { break; }
        curr := curr.next;
        k := k + 1;
      }
      if curr.next == null {
        LinkLast(n);
        assert s[..k + 1] == s && s[..k + 1] + [n] + s[k + 1..] == nodes;
      } else {
        LinkAfter(curr, n, k);
      }
      k := k + 1;
      if Ordered(s, key) { OrderedInsert(s, key, n, k); }
    }

    /** The first node whose value has key `c`, or null if there is none. */
    method FindNode(key: T -> int, c: int) returns (n: Node?<T>, ghost k: nat)
      requires Valid()
      ensures n == null ==> forall i :: 0 <= i < |nodes| ==> key(nodes[i].e) != c
      ensures n != null ==> FirstWith(nodes, key, c, k) && n == nodes[k]
    {
      n, k := head, 0;
      while n != null
        invariant k <= |nodes| && n == At(nodes, k)
        invariant forall i :: 0 <= i < k ==> key(nodes[i].e) != c
        decreases |nodes| - k
      {
        if key(n.e) == c { return n, k; }
        n := n.next;
        k := k + 1;
      }
    }

    /** Takes out the first value with key `c`; without one nothing changes. */
    method Remove(key: T -> int, c: int) returns (n: Node?<T>, ghost k: nat)
      requires Valid()
      modifies this, repr
      ensures Valid()
      ensures n == null ==> nodes == old(nodes) && repr == old(repr) && forall i :: 0 <= i < |nodes| ==> key(nodes[i].e) != c
      ensures n != null ==> FirstWith(old(nodes), key, c, k) && n == old(nodes)[k]
      ensures n != null ==> nodes == old(nodes)[..k] + old(nodes)[k + 1..] && n in old(repr) && repr == old(repr) - {n}
    {
      hide Linked, Distinct, Unlink;
      n, k := FindNode(key, c);
      if n != null {
        OwnNode(n);
        UnlinkAt(nodes, n, k);
        var r := UnlinkNode(n);
      }
    }

    /** Moves head and tail off `n`. */
    method MoveEnds(n: Node<T>)
      modifies this`head, this`tail
      ensures head == if n == old(head) then (if n == old(tail) then null else n.next) else old(head)
      ensures tail == if n == old(tail) then (if n == old(head) then null else n.prev) else old(tail)
    {
      if n == head && n == tail {
        head, tail := null, null;
      } else if n == head {
        head := n.next;
      } else if n == tail {
        tail := n.prev;
      }
    }

    /** The pointer work of unlinking: only the ends, the size, `n` and its neighbours change. */
    method Detach(n: Node<T>)
      requires NoLoop(n) && size > 0
      modifies this`head, this`tail, this`size, n, Neighbours(n)
      ensures size == old(size) - 1 && n.next == null && n.prev == null
      ensures head == if n == old(head) then (if n == old(tail) then null else old(n.next)) else old(head)
      ensures tail == if n == old(tail) then (if n == old(head) then null else old(n.prev)) else old(tail)
      ensures forall x :: x in repr && x != n ==> x.next == if x == old(n.prev) then old(n.next) else old(x.next)
      ensures forall x :: x in repr && x != n ==> x.prev == if x == old(n.next) then old(n.prev) else old(x.prev)
    {
      MoveEnds(n);
      Bypass(n);
      size := size - 1;
    }

    /** Detaching leaves the other nodes of the list linked, whether `n` was one of them or not. */
    method DetachLinked(n: Node<T>)
      requires Valid() && size > 0 && (n !in nodes ==> n !in repr && Neighbours(n) !! repr && NoLoop(n))
      modifies this`head, this`tail, this`size, repr, n, Neighbours(n)
      ensures size == old(size) - 1 && n.next == null && n.prev == null
      ensures n in nodes ==> Linked(Unlink(nodes, n), repr - {n})
      ensures n in nodes ==> head == At(Unlink(nodes, n), 0) && tail == At(Unlink(nodes, n), |nodes| - 2)
      ensures n !in nodes ==> Linked(nodes, repr) && head == old(head) && tail == old(tail)
    {
      hide Linked, Distinct, Unlink;
      if n in nodes { OwnNode(n); }
      Detach(n);
      if n in nodes { TakenOut(n); }
    }

    /**
      Unlinks `n`.  On a node of this list that takes it out.  A node of another list is taken
      out of that one, while this list loses a unit of its size and no node: it is no longer
      a list.  On an empty list nothing happens.
    */
    method UnlinkNode(n: Node<T>) returns (r: int)
      requires Valid() && (n !in nodes ==> n !in repr && Neighbours(n) !! repr && NoLoop(n))
      modifies this, repr, n, Neighbours(n)
      ensures r == if old(nodes) == [] then -1 else 0
      ensures Valid() <==> old(nodes) == [] || n in old(nodes)
      ensures n in old(nodes) ==> nodes == Unlink(old(nodes), n) && repr == old(repr) - {n}
      ensures old(nodes) != [] ==> n.next == null && n.prev == null
      ensures n !in old(nodes) ==> nodes == old(nodes) && repr == old(repr) && Linked(nodes, repr) && head == old(head) && tail == old(tail)
      ensures n !in old(nodes) && old(nodes) != [] ==> size == |nodes| - 1
      ensures old(nodes) == [] ==> unchanged(this) && unchanged(old(repr)) && unchanged(n) && unchanged(old(Neighbours(n)))
    {
      hide Linked, Distinct, Unlink, Neighbours, NoLoop;
      if size == 0 { return -1; }
      UnlinkDistinct(nodes, n);
      ghost var own := n in nodes;
      DetachLinked(n);
      if own {
        nodes := Unlink(nodes, n);
        repr := repr - {n};
      }
      return 0;
    }

    lemma EndsOk()
      requires Valid()
      ensures Ends() && (head != null ==> tail != null) && Last() <= repr
    {
    }

    /** Where `n` sits: what its links are and what the list looks like without it. */
    lemma OwnNode(n: Node<T>)
      requires Valid() && n in nodes
      ensures NoLoop(n) && Neighbours(n) <= repr && n in repr
      ensures Distinct(Unlink(nodes, n)) && |Unlink(nodes, n)| == |nodes| - 1
      ensures At(Unlink(nodes, n), 0) == if n == head then n.next else head
      ensures At(Unlink(nodes, n), |nodes| - 2) == if n == tail then n.prev else tail
      ensures n == head && n == tail ==> n.next == null && n.prev == null
    {
      var k :| 0 <= k < |nodes| && nodes[k] == n;
      UnlinkAt(nodes, n, k);
      UnlinkDistinct(nodes, n);
      assert n.next == At(nodes, k + 1) && n.prev == At(nodes, k - 1);
    }

    /** With its neighbours connected to each other, the list without `n` is linked. */
    twostate lemma TakenOut(n: Node<T>)
      requires old(Linked(nodes, repr) && Distinct(nodes)) && n in old(nodes) && nodes == old(nodes) && repr == old(repr)
      requires forall x :: x in repr && x != n ==> x.next == if x == old(n.prev) then old(n.next) else old(x.next)
      requires forall x :: x in repr && x != n ==> x.prev == if x == old(n.next) then old(n.prev) else old(x.prev)
      ensures Linked(Unlink(nodes, n), repr - {n})
    {
      hide Distinct, Unlink;
      var s := nodes;
      var k :| 0 <= k < |s| && s[k] == n;
      UnlinkAt(s, n, k);
      assert old(n.next) == At(s, k + 1) && old(n.prev) == At(s, k - 1);
      AtIndices(s, k);
      if k > 0 { AtIndices(s, k - 1); }
      if k + 1 < |s| { AtIndices(s, k + 1); }
      SplicedOut(s, repr, k);
    }
  }

  /** With the neighbours of the `k`-th node linked to each other, the list without it is linked. */
  lemma SplicedOut<T>(s: seq<Node<T>>, R: set<Node<T>>, k: nat)
    requires k < |s| && Distinct(s) && forall i :: 0 <= i < |s| ==> s[i] in R
    requires forall i {:trigger s[i].next} :: 0 <= i < |s| && i != k ==> s[i].next == At(s, if i == k - 1 then k + 1 else i + 1)
    requires forall i {:trigger s[i].prev} :: 0 <= i < |s| && i != k ==> s[i].prev == At(s, if i == k + 1 then k - 1 else i - 1)
    ensures Linked(s[..k] + s[k + 1..], R - {s[k]})
  {
    hide Distinct;
    AtIndices(s, k);
    var r := s[..k] + s[k + 1..];
    forall i | 0 <= i < |r| ensures r[i] in R - {s[k]} && r[i].next == At(r, i + 1) && r[i].prev == At(r, i - 1) {
      if i < k {
        assert r[i] == s[i];
      } else {
        assert r[i] == s[i + 1];
      }
    }
  }

  /** With `n` linked between the `k`-th node and the next, the longer list is linked. */
  lemma SplicedIn<T>(s: seq<Node<T>>, R: set<Node<T>>, n: Node<T>, k: nat)
    requires k + 1 < |s| && (forall i :: 0 <= i < |s| ==> s[i] in R) && n.next == s[k + 1] && n.prev == s[k]
    requires forall i {:trigger s[i].next} :: 0 <= i < |s| ==> s[i].next == if i == k then n else At(s, i + 1)
    requires forall i {:trigger s[i].prev} :: 0 <= i < |s| ==> s[i].prev == if i == k + 1 then n else At(s, i - 1)
    ensures Linked(s[..k + 1] + [n] + s[k + 1..], R + {n})
  {
    var r := s[..k + 1] + [n] + s[k + 1..];
    forall i | 0 <= i < |r| ensures r[i] in R + {n} && r[i].next == At(r, i + 1) && r[i].prev == At(r, i - 1) {
      if i <= k {
        assert r[i] == s[i];
      } else if i > k + 1 {
        assert r[i] == s[i - 1];
      }
    }
  }

  lemma InsertDistinct<T>(s: seq<Node<T>>, n: Node<T>, k: nat)
    requires Distinct(s) && n !in s && k <= |s|
    ensures Distinct(s[..k] + [n] + s[k..])
  {
    var r := s[..k] + [n] + s[k..];
    forall x, y | 0 <= x < y < |r| ensures r[x] != r[y] {
      assert x != k ==> r[x] == s[if x < k then x else x - 1];
      assert y != k ==> r[y] == s[if y < k then y else y - 1];
    }
  }

  lemma AtIndices<T>(s: seq<Node<T>>, k: nat)
    requires Distinct(s) && k < |s|
    ensures forall i :: 0 <= i < |s| && i != k ==> s[i] != s[k]
  {
  }

  lemma OrderedOne<T>(n: Node<T>, key: T -> int)
    ensures Ordered([n], key)
  {
  }

  lemma {:induction false} UnlinkAt<T>(s: seq<Node<T>>, n: Node<T>, k: nat)
    requires Distinct(s) && k < |s| && s[k] == n
    ensures Unlink(s, n) == s[..k] + s[k + 1..]
  {
    if k == 0 {
      assert s[..0] + s[1..] == s[1..];
    } else {
      UnlinkAt(s[1..], n, k - 1);
      assert [s[0]] + (s[1..][..k - 1] + s[1..][k..]) == s[..k] + s[k + 1..];
    }
  }
}
