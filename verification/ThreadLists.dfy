/**
  The four pools of the scheduler as linked lists on the heap, and what moving a thread's node
  from one to another does to them, whether or not the first one holds the node.
*/
module ThreadLists {
  import opened Lists
  import opened LinkedLists

  const RUN: nat := 0
  const WAIT: nat := 1
  const SLEEP: nat := 2
  const ZOMBIE: nat := 3

  /** The nodes of each list, in order. */
  type Rows = seq<seq<Node<int>>>

  /** The nodes of the lists are those the thread table has for its threads. */
  ghost predicate Filed(rows: Rows, m: map<int, Node<int>>) {
    && |rows| == 4 && (forall t :: t in m ==> m[t].e == t)
    && (forall i, k :: 0 <= i < 4 && 0 <= k < |rows[i]| ==> rows[i][k].e in m && m[rows[i][k].e] == rows[i][k])
  }

  /** A thread is in a list exactly when the list holds its node. */
  lemma NodeOf(rows: Rows, m: map<int, Node<int>>, i: nat, t: int)
    requires Filed(rows, m) && i < 4
    ensures t in m ==> (t in Elems(rows[i]) <==> m[t] in rows[i])
    ensures t !in m ==> t !in Elems(rows[i])
  {
    if t in Elems(rows[i]) {
      var k :| 0 <= k < |rows[i]| && Elems(rows[i])[k] == t;
      assert rows[i][k].e == t;
    }
    if t in m && m[t] in rows[i] {
      var k :| 0 <= k < |rows[i]| && rows[i][k] == m[t];
      assert Elems(rows[i])[k] == t;
    }
  }

  lemma {:induction false} ElemsUnlink(s: seq<Node<int>>, n: Node<int>)
    requires forall i :: 0 <= i < |s| && s[i].e == n.e ==> s[i] == n
    ensures Elems(Unlink(s, n)) == Unlink(Elems(s), n.e)
  {
    if s != [] {
      assert Elems(s)[0] == s[0].e && Elems(s)[1..] == Elems(s[1..]);
      if s[0] != n {
        ElemsUnlink(s[1..], n);
        assert Elems([s[0]] + Unlink(s[1..], n)) == [s[0].e] + Elems(Unlink(s[1..], n));
      }
    }
  }

  function Rotated(s: seq<Node<int>>): seq<Node<int>> { if |s| <= 1 then s else s[1..] + [s[0]] }

  class PoolLists {
    const arr: seq<LinkedList<int>>

    ghost function Nodes(): set<Node<int>>
      reads arr
    {
      set i, x | 0 <= i < |arr| && x in arr[i].repr :: x
    }

    ghost function Rows(): (rows: Rows)
      reads arr
      ensures |rows| == |arr|
    {
      seq(|arr|, i requires 0 <= i < |arr| reads arr => arr[i].nodes)
    }

    /** Four well-formed, different lists without common nodes. */
    ghost predicate Valid()
      reads this, arr, Nodes()
    {
      && |arr| == 4 && (forall i, j :: 0 <= i < j < 4 ==> arr[i] != arr[j] && arr[i].repr !! arr[j].repr)
      && (forall i :: 0 <= i < 4 ==> arr[i].Valid())
    }

    constructor ()
      ensures Valid() && Rows() == [[], [], [], []] && Nodes() == {} && fresh(arr)
    {
      var lists: seq<LinkedList<int>> := [];
      for i := 0 to 4
        invariant |lists| == i && fresh(lists)
        invariant forall j :: 0 <= j < i ==> lists[j].Valid() && lists[j].nodes == [] && lists[j].repr == {}
        invariant forall j, k :: 0 <= j < k < i ==> lists[j] != lists[k]
      {
        var l := new LinkedList<int>();
        lists := lists + [l];
      }
      arr := lists;
    }

    /** Lists whose nodes nobody touched stay as they were. */
    twostate lemma Kept()
      requires (forall i :: 0 <= i < |arr| ==> unchanged(arr[i])) && forall x :: x in old(Nodes()) ==> unchanged(x)
      ensures (Valid() <==> old(Valid())) && Nodes() == old(Nodes()) && Rows() == old(Rows())
    {
      forall i | 0 <= i < |arr| ensures Rows()[i] == old(Rows())[i] && (arr[i].Valid() <==> old(arr[i].Valid())) {
        assert unchanged(arr[i]) && forall x :: x in old(arr[i].repr) ==> x in old(Nodes());
      }
    }

    /** Changing one list, with nodes of its own or of none, keeps the lists apart and the others as they were. */
    twostate lemma OneChanged(idx: nat)
      requires old(Valid()) && idx < 4 && arr[idx].Valid()
      requires forall i :: 0 <= i < 4 && i != idx ==> unchanged(arr[i]) && unchanged(arr[i].repr)
      requires forall x :: x in arr[idx].repr ==> x in old(arr[idx].repr) || x !in old(Nodes())
      ensures Valid() && Rows() == old(Rows())[idx := arr[idx].nodes]
      ensures Nodes() == old(Nodes() - arr[idx].repr) + arr[idx].repr
    {
      hide LinkedList.Valid;
      forall i, j | 0 <= i < j < 4 ensures arr[i] != arr[j] && arr[i].repr !! arr[j].repr {
        assert old(arr[i] != arr[j] && arr[i].repr !! arr[j].repr);
        if i == idx {
          forall x | x in arr[i].repr ensures x !in arr[j].repr { assert x in old(arr[j].repr) ==> x in old(Nodes()); }
        } else if j == idx {
          forall x | x in arr[j].repr ensures x !in arr[i].repr { assert x in old(arr[i].repr) ==> x in old(Nodes()); }
        }
      }
      forall i | 0 <= i < 4 ensures arr[i].Valid() {
        if i != idx { assert old(arr[i].Valid()); }
      }
      NodesAfter(idx);
    }

    twostate lemma NodesAfter(idx: nat)
      requires old(Valid()) && idx < 4
      requires forall i :: 0 <= i < 4 && i != idx ==> unchanged(arr[i])
      ensures Nodes() == old(Nodes() - arr[idx].repr) + arr[idx].repr
    {
      hide LinkedList.Valid;
      forall x: Node<int> ensures x in Nodes() <==> x in old(Nodes() - arr[idx].repr) + arr[idx].repr {
        if x in Nodes() && x !in arr[idx].repr {
          var i :| 0 <= i < 4 && x in arr[i].repr;
          assert x in old(arr[i].repr);
        }
        if x in old(Nodes() - arr[idx].repr) {
          var i :| 0 <= i < 4 && x in old(arr[i].repr);
          assert x in arr[i].repr;
        }
      }
    }

    /** The node sits in list `i`, so its links lead to nodes of that list only. */
    lemma Within(i: nat, n: Node<int>)
      requires Valid() && i < 4 && n in arr[i].nodes
      ensures NoLoop(n) && {n} + Neighbours(n) <= arr[i].repr <= Nodes()
      ensures forall j :: 0 <= j < 4 && j != i ==> arr[j].repr !! arr[i].repr && n !in arr[j].nodes
    {
      hide NoLoop;
      assert arr[i].Valid();
      arr[i].OwnNode(n);
      forall j | 0 <= j < 4 && j != i ensures n !in arr[j].nodes && arr[j].repr !! arr[i].repr {
        assert arr[j].Valid();
        assert if i < j then arr[i].repr !! arr[j].repr else arr[j].repr !! arr[i].repr;
      }
    }

    /** Appends an unlinked node to list `j`. */
    method PutLast(j: nat, n: Node<int>)
      requires Valid() && j < 4 && n !in Nodes() && n.next == null && n.prev == null
      modifies arr, Nodes(), n
      ensures Valid() && Rows() == old(Rows())[j := old(Rows()[j]) + [n]] && Nodes() == old(Nodes()) + {n}
    {
      hide LinkedList.Valid;
      assert arr[j].Valid() && n !in arr[j].repr;
      arr[j].EndsOk();
      arr[j].LinkLast(n);
      OneChanged(j);
    }

    /** Inserts an unlinked node into list `j` where the order of the keys puts it. */
    method PutSorted(j: nat, n: Node<int>, key: int -> int) returns (ghost k: nat)
      requires Valid() && j < 4 && n !in Nodes() && n.next == null && n.prev == null
      modifies arr, Nodes(), n
      ensures k == SortedPlace(Elems(old(Rows()[j])), key, key(n.e))
      ensures Valid() && Rows() == old(Rows())[j := old(Rows()[j])[..k] + [n] + old(Rows()[j])[k..]] && Nodes() == old(Nodes()) + {n}
    {
      hide LinkedList.Valid, SortedPlace, Elems;
      assert arr[j].Valid() && n !in arr[j].repr;
      k := arr[j].LinkSorted(n, key);
      OneChanged(j);
    }

    /** Moves the first node of list `j` to its end. */
    method RotateList(j: nat) returns (r: int)
      requires Valid() && j < 4
      modifies arr, Nodes()
      ensures r == (if old(Rows()[j]) == [] then -2 else 0)
      ensures Valid() && Rows() == old(Rows())[j := Rotated(old(Rows()[j]))] && Nodes() == old(Nodes())
    {
      hide LinkedList.Valid;
      assert arr[j].Valid();
      r := arr[j].Rotate();
      OneChanged(j);
    }

    /** Whether list `j` holds a node of thread `t`. */
    method Holding(j: nat, t: int) returns (found: bool)
      requires Valid() && j < 4
      ensures found <==> t in Elems(Rows()[j])
    {
      assert arr[j].Valid();
      ghost var k;
      var n;
      n, k := arr[j].FindNode(x => x, t);
      found := n != null;
      assert n != null ==> Elems(Rows()[j])[k] == t;
    }

    /** The first node of list `j`, if any. */
    method First(j: nat) returns (n: Node?<int>)
      requires Valid() && j < 4
      ensures n == At(Rows()[j], 0)
    {
      assert arr[j].Valid();
      n := arr[j].head;
    }

    /**
      Moves a node to the end of list `to`, after unlinking it from list `from`, as the kernel
      does when it trusts a thread's status.  The lists stay well formed exactly when `from`
      holds the node, or is empty and nothing happens.  Otherwise `from` keeps its nodes, linked
      as before, but counts one less.
    */
    method Move(from: nat, to: nat, n: Node<int>) returns (r: int)
      requires Valid() && from < 4 && to < 4 && from != to && exists i :: 0 <= i < 4 && n in Rows()[i]
      modifies arr, Nodes()
      ensures r == if old(Rows()[from]) == [] then -1 else 0
      ensures Valid() <==> r < 0 || n in old(Rows()[from])
      ensures r < 0 ==> Rows() == old(Rows()) && Nodes() == old(Nodes())
      ensures Valid() && r == 0 ==> Rows() == old(Rows())[from := Unlink(old(Rows()[from]), n)][to := old(Rows()[to]) + [n]]
      ensures Valid() ==> Nodes() == old(Nodes())
      ensures !Valid() ==> Miscounted(from, old(Rows()[from]))
    {
      hide Valid, LinkedList.Valid, Unlink, Miscounted;
      Holds(from, to, n);
      r := Unhook(from, n);
      if r == 0 { HookOn(to, n, from, old(arr[from].nodes)); }
    }

    /** The second half of a move. */
    method HookOn(to: nat, n: Node<int>, ghost from: nat, ghost s: seq<Node<int>>)
      requires |arr| == 4 && from < 4 && to < 4 && arr[from] != arr[to] && (arr[to].head != null ==> arr[to].tail != null)
      requires n.next == null && n.prev == null
      requires Valid() ==> n !in Nodes()
      requires !Valid() ==> Miscounted(from, s) && n !in arr[from].repr && arr[to].Last() !! arr[from].repr
      modifies arr[to], arr[to].Last(), n
      ensures old(Valid()) ==> Valid() && Rows() == old(Rows())[to := old(Rows()[to]) + [n]] && Nodes() == old(Nodes()) + {n}
      ensures !old(Valid()) ==> Miscounted(from, s) && !Valid()
    {
      hide LinkedList.Valid;
      if Valid() {
        assert arr[to].Valid() && n !in arr[to].repr;
        arr[to].EndsOk();
      }
      ghost var R := arr[from].repr;
      assert !Valid() ==> Linked(s, R) && R !! arr[to].Last() + {n};
      arr[to].LinkLast(n);
      if old(Valid()) {
        OneChanged(to);
      } else {
        assert Linked(s, R);
        CannotBeValid(from, s);
      }
    }

    lemma Holds(from: nat, to: nat, n: Node<int>)
      requires Valid() && from < 4 && to < 4 && from != to && exists i :: 0 <= i < 4 && n in Rows()[i]
      ensures |arr| == 4 && n in Nodes() && arr[to].Last() <= Nodes() && arr[to].Last() !! arr[from].repr
      ensures arr[from] != arr[to] && (arr[to].head != null ==> arr[to].tail != null)
    {
      hide LinkedList.Valid;
      assert arr[to].Valid();
      arr[to].EndsOk();
      var i :| 0 <= i < 4 && n in Rows()[i];
      Within(i, n);
      assert if from < to then arr[from].repr !! arr[to].repr else arr[to].repr !! arr[from].repr;
    }

    /** No list of nodes fits a miscounted one: following the links visits more nodes than its size says. */
    lemma NoListFits(i: nat, s: seq<Node<int>>, r: seq<Node<int>>, R: set<Node<int>>)
      requires i < |arr| && Miscounted(i, s) && Linked(r, R) && At(r, 0) == arr[i].head
      ensures |r| != arr[i].size
    {
      SameChain(s, arr[i].repr, r, R);
    }

    lemma CannotBeValid(i: nat, s: seq<Node<int>>)
      requires i < |arr| && Miscounted(i, s)
      ensures !Valid()
    {
    }

    /** The first half of a move. */
    method Unhook(from: nat, n: Node<int>) returns (r: int)
      requires Valid() && from < 4 && exists i :: 0 <= i < 4 && n in Rows()[i]
      modifies arr[from], Nodes()
      ensures r == if old(Rows()[from]) == [] then -1 else 0
      ensures Valid() <==> r < 0 || n in old(Rows()[from])
      ensures r < 0 ==> Rows() == old(Rows()) && Nodes() == old(Nodes())
      ensures Valid() && r == 0 ==> Rows() == old(Rows())[from := Unlink(old(Rows()[from]), n)] && Nodes() == old(Nodes()) - {n}
      ensures !Valid() ==> Miscounted(from, old(Rows()[from])) && n !in arr[from].repr
      ensures arr[from].repr <= old(arr[from].repr) && (r == 0 ==> n.next == null && n.prev == null)
    {
      hide Valid, LinkedList.Valid, Unlink, Neighbours, NoLoop, Linked;
      ListValid(from);
      ghost var i :| 0 <= i < 4 && n in Rows()[i];
      Within(i, n);
      r := arr[from].UnlinkNode(n);
      if r < 0 {
        Kept();
      } else if n in old(Rows()[from]) {
        OneChanged(from);
      } else {
        CannotBeValid(from, old(Rows()[from]));
      }
    }

    lemma ListValid(i: nat)
      requires Valid() && i < 4
      ensures |arr| == 4 && arr[i].Valid() && arr[i].Ends() && forall j :: 0 <= j < 4 && j != i ==> arr[j] != arr[i]
    {
      hide LinkedList.Valid;
      assert arr[i].Valid();
      arr[i].EndsOk();
      forall j | 0 <= j < 4 && j != i ensures arr[j] != arr[i] {
        assert if j < i then arr[j] != arr[i] else arr[i] != arr[j];
      }
    }

    /** List `i` still links the nodes `s`, but its size says one less. */
    ghost predicate Miscounted(i: nat, s: seq<Node<int>>)
      requires i < |arr|
      reads arr, Nodes()
    {
      && arr[i].nodes == s && arr[i].size == |s| - 1 && arr[i].head == At(s, 0) && arr[i].tail == At(s, |s| - 1)
      && Linked(s, arr[i].repr)
    }
  }
}
