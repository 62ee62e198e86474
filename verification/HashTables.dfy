/**
  The kernel's hash table: an array of chains on the heap.  It refines a finite map: `m`
  (ghost) is what the chains together hold.
*/
module HashTables {
  import opened Machine
  import opened LinkedLists

  datatype Entry<V> = Entry(key: int, val: V)

  /** An `int` hash, possibly negative, taken modulo an unsigned number of buckets. */
  function Slot(h: int, n: nat): (i: nat)
    requires n > 0
    ensures i < n
  {
    Wrap(h) % n
  }

  function KeyOf<V>(): Entry<V> -> int { (e: Entry<V>) => e.key }

  /** Bucket `i` holds each key of the map that hashes to it once, with its value, and no other. */
  ghost predicate BucketOk<V>(b: seq<Entry<V>>, hash: int -> int, n: nat, i: nat, m: map<int, V>)
    requires n > 0
  {
    && (forall k :: 0 <= k < |b| ==> b[k].key in m && m[b[k].key] == b[k].val && Slot(hash(b[k].key), n) == i)
    && (forall j, k :: 0 <= j < k < |b| ==> b[j].key != b[k].key)
    && (forall key :: key in m && Slot(hash(key), n) == i ==> InBucket(b, key))
  }

  predicate InBucket<V>(b: seq<Entry<V>>, key: int) { exists k :: 0 <= k < |b| && b[k].key == key }

  lemma BucketPut<V>(b: seq<Entry<V>>, hash: int -> int, n: nat, m: map<int, V>, e: Entry<V>)
    requires n > 0 && e.key !in m && BucketOk(b, hash, n, Slot(hash(e.key), n), m)
    ensures BucketOk(b + [e], hash, n, Slot(hash(e.key), n), m[e.key := e.val])
  {
    hide Slot;
    var r, m' := b + [e], m[e.key := e.val];
    forall key | key in m' && Slot(hash(key), n) == Slot(hash(e.key), n) ensures InBucket(r, key) {
      if key == e.key {
        assert r[|b|].key == key;
      } else {
        assert InBucket(b, key);
        var k :| 0 <= k < |b| && b[k].key == key;
        assert r[k] == b[k];
      }
    }
  }

  lemma BucketDrop<V>(b: seq<Entry<V>>, hash: int -> int, n: nat, m: map<int, V>, k: nat)
    requires n > 0 && k < |b| && BucketOk(b, hash, n, Slot(hash(b[k].key), n), m)
    ensures BucketOk(b[..k] + b[k + 1..], hash, n, Slot(hash(b[k].key), n), m - {b[k].key})
  {
    hide Slot;
    var r, m' := b[..k] + b[k + 1..], m - {b[k].key};
    assert forall i :: 0 <= i < |r| ==> r[i] == b[if i < k then i else i + 1];
    forall key | key in m' && Slot(hash(key), n) == Slot(hash(b[k].key), n) ensures InBucket(r, key) {
      assert InBucket(b, key);
      var j :| 0 <= j < |b| && b[j].key == key;
      assert r[if j < k then j else j - 1] == b[j];
    }
  }

  lemma BucketOther<V>(b: seq<Entry<V>>, hash: int -> int, n: nat, i: nat, m: map<int, V>, key: int, v: V)
    requires n > 0 && BucketOk(b, hash, n, i, m) && Slot(hash(key), n) != i
    ensures BucketOk(b, hash, n, i, m[key := v]) && BucketOk(b, hash, n, i, m - {key})
  {
    hide Slot, InBucket;
  }

  /** What finding or not finding a node by its key says about the entries. */
  lemma DataWithout<V>(s: seq<Node<Entry<V>>>, key: int, k: nat)
    ensures FirstWith(s, KeyOf(), key, k) ==> Elems(s[..k] + s[k + 1..]) == Elems(s)[..k] + Elems(s)[k + 1..] && Elems(s)[k] == s[k].e && s[k].e.key == key
    ensures (forall i :: 0 <= i < |s| ==> KeyOf()(s[i].e) != key) ==> !InBucket(Elems(s), key)
  {
  }

  /** The buckets together hold the map. */
  ghost predicate TableOk<V>(bs: seq<seq<Entry<V>>>, hash: int -> int, m: map<int, V>) {
    |bs| > 0 && forall i :: 0 <= i < |bs| ==> BucketOk(bs[i], hash, |bs|, i, m)
  }

  lemma TablePut<V>(bs: seq<seq<Entry<V>>>, hash: int -> int, m: map<int, V>, e: Entry<V>)
    requires TableOk(bs, hash, m) && e.key !in m
    ensures var i := Slot(hash(e.key), |bs|); TableOk(bs[i := bs[i] + [e]], hash, m[e.key := e.val])
    ensures |m[e.key := e.val]| == |m| + 1
  {
    var i := Slot(hash(e.key), |bs|);
    BucketPut(bs[i], hash, |bs|, m, e);
    forall j | 0 <= j < |bs| && j != i ensures BucketOk(bs[j], hash, |bs|, j, m[e.key := e.val]) {
      BucketOther(bs[j], hash, |bs|, j, m, e.key, e.val);
    }
  }

  lemma TableDrop<V>(bs: seq<seq<Entry<V>>>, hash: int -> int, m: map<int, V>, i: nat, k: nat)
    requires TableOk(bs, hash, m) && i < |bs| && k < |bs[i]|
    ensures bs[i][k].key in m && m[bs[i][k].key] == bs[i][k].val && |m - {bs[i][k].key}| == |m| - 1
    ensures TableOk(bs[i := bs[i][..k] + bs[i][k + 1..]], hash, m - {bs[i][k].key})
  {
    var e := bs[i][k];
    assert BucketOk(bs[i], hash, |bs|, i, m);
    BucketDrop(bs[i], hash, |bs|, m, k);
    forall j | 0 <= j < |bs| && j != i ensures BucketOk(bs[j], hash, |bs|, j, m - {e.key}) {
      BucketOther(bs[j], hash, |bs|, j, m, e.key, e.val);
    }
    assert (m - {e.key}).Keys == m.Keys - {e.key};
  }

  /** A key is in the map exactly when its own bucket holds it. */
  lemma TableFind<V>(bs: seq<seq<Entry<V>>>, hash: int -> int, m: map<int, V>, key: int)
    requires TableOk(bs, hash, m)
    ensures key in m <==> InBucket(bs[Slot(hash(key), |bs|)], key)
  {
    var i := Slot(hash(key), |bs|);
    assert BucketOk(bs[i], hash, |bs|, i, m);
  }

  class HashTable<V> {
    const arr: seq<LinkedList<Entry<V>>>
    const hash: int -> int
    var size: nat
    ghost var m: map<int, V>

    /** The bucket of a key. */
    function Idx(key: int): (i: nat)
      requires |arr| > 0
      ensures i < |arr|
    {
      Slot(hash(key), |arr|)
    }

    ghost function Nodes(): set<Node<Entry<V>>>
      reads arr
    {
      set i, x | 0 <= i < |arr| && x in arr[i].repr :: x
    }

    ghost function Buckets(): (bs: seq<seq<Entry<V>>>)
      reads arr
      ensures |bs| == |arr|
    {
      seq(|arr|, i requires 0 <= i < |arr| reads arr => Elems(arr[i].nodes))
    }

    /** The chains are well-formed, different lists without common nodes. */
    ghost predicate Chains()
      reads arr, Nodes()
    {
      && (forall i, j :: 0 <= i < j < |arr| ==> arr[i] != arr[j] && arr[i].repr !! arr[j].repr)
      && (forall i :: 0 <= i < |arr| ==> arr[i].Valid())
    }

    ghost predicate Valid()
      reads this, arr, Nodes()
    {
      |arr| > 0 && Chains() && TableOk(Buckets(), hash, m) && size == |m|
    }

    /** A table whose chains and nodes nobody touched stays as it was. */
    twostate lemma Kept()
      requires unchanged(this) && (forall i :: 0 <= i < |arr| ==> unchanged(arr[i])) && forall x :: x in old(Nodes()) ==> unchanged(x)
      ensures (Valid() <==> old(Valid())) && Nodes() == old(Nodes())
    {
    }

    /** Changing one chain, with new nodes only, keeps the chains apart and the others as they were. */
    twostate lemma OneChanged(idx: nat)
      requires old(Chains()) && idx < |arr| && arr[idx].Valid()
      requires forall i :: 0 <= i < |arr| && i != idx ==> unchanged(arr[i]) && unchanged(arr[i].repr)
      requires forall x :: x in arr[idx].repr ==> x in old(arr[idx].repr) || x !in old(Nodes())
      ensures Chains() && Buckets() == old(Buckets())[idx := Elems(arr[idx].nodes)]
      ensures Nodes() == old(Nodes() - arr[idx].repr) + arr[idx].repr
    {
      hide LinkedList.Valid, Elems;
      forall i, j | 0 <= i < j < |arr| ensures arr[i] != arr[j] && arr[i].repr !! arr[j].repr {
        assert old(arr[i] != arr[j] && arr[i].repr !! arr[j].repr);
        if i == idx {
          forall x | x in arr[i].repr ensures x !in arr[j].repr { assert x in old(arr[j].repr) ==> x in old(Nodes()); }
        } else if j == idx {
          forall x | x in arr[j].repr ensures x !in arr[i].repr { assert x in old(arr[i].repr) ==> x in old(Nodes()); }
        }
      }
      forall i | 0 <= i < |arr| ensures arr[i].Valid() {
        if i != idx { assert old(arr[i].Valid()); }
      }
      NodesAfter(idx);
    }

    twostate lemma NodesAfter(idx: nat)
      requires old(Chains()) && idx < |arr|
      requires forall i :: 0 <= i < |arr| && i != idx ==> unchanged(arr[i])
      ensures Nodes() == old(Nodes() - arr[idx].repr) + arr[idx].repr
    {
      hide LinkedList.Valid;
      forall x: Node<Entry<V>> ensures x in Nodes() <==> x in old(Nodes() - arr[idx].repr) + arr[idx].repr {
        if x in Nodes() && x !in arr[idx].repr {
          var i :| 0 <= i < |arr| && x in arr[i].repr;
          assert x in old(arr[i].repr);
        }
        if x in old(Nodes() - arr[idx].repr) {
          var i :| 0 <= i < |arr| && x in old(arr[i].repr);
          assert x in arr[i].repr;
        }
      }
    }

    /** An empty table with `n` buckets. */
    constructor (n: nat, hash: int -> int)
      requires n > 0
      ensures Valid() && m == map[] && |arr| == n && this.hash == hash && fresh(Nodes()) && fresh(arr)
    {
      var lists: seq<LinkedList<Entry<V>>> := [];
      for i := 0 to n
        invariant |lists| == i && fresh(lists)
        invariant forall j :: 0 <= j < i ==> lists[j].Valid() && lists[j].nodes == [] && lists[j].repr == {}
        invariant forall j, k :: 0 <= j < k < i ==> lists[j] != lists[k]
      {
        var l := new LinkedList<Entry<V>>();
        lists := lists + [l];
      }
      arr, this.hash, size, m := lists, hash, 0, map[];
    }

    /** Looks up a key: reports the node that holds it. */
    method Get(key: int) returns (r: int, n: Node?<Entry<V>>)
      requires Valid()
      ensures r == (if key in m then 0 else -2) && (key in m <==> n != null)
      ensures n != null ==> n.e == Entry(key, m[key])
    {
      var idx := Idx(key);
      ghost var k;
      n, k := arr[idx].FindNode(KeyOf(), key);
      ghost var b := Buckets()[idx];
      TableFind(Buckets(), hash, m, key);
      assert BucketOk(b, hash, |arr|, idx, m);
      if n == null {
        assert !InBucket(b, key);
        return -2, null;
      }
      assert b[k] == n.e;
      return 0, n;
    }

    /** The node keeps no stale link at the end of its chain. */
    ghost predicate Clean(idx: nat, node: Node<Entry<V>>)
      requires idx < |arr|
      reads arr, node
    {
      NoStaleLink(node, |arr[idx].nodes|, |arr[idx].nodes|)
    }

    /** Appends a node to one chain. */
    method Append(idx: nat, node: Node<Entry<V>>)
      requires Chains() && idx < |arr| && node !in Nodes()
      modifies arr[idx], arr[idx].repr, node
      ensures Chains() <==> old(Clean(idx, node))
      ensures Chains() ==> Nodes() == old(Nodes()) + {node} && Buckets() == old(Buckets())[idx := old(Buckets()[idx]) + [node.e]]
    {
      hide LinkedList.Valid;
      assert arr[idx].Valid() && node !in arr[idx].repr;
      ghost var b := Buckets()[idx];
      arr[idx].EndsOk();
      arr[idx].LinkLast(node);
      assert Elems(arr[idx].nodes) == b + [node.e];
      if arr[idx].Valid() { OneChanged(idx); }
    }

    /** Files an entry whose key is not taken. */
    method PutNew(entry: Entry<V>, node: Node<Entry<V>>)
      requires Valid() && entry.key !in m && node.e == entry && node !in Nodes()
      modifies this, arr[Idx(entry.key)], arr[Idx(entry.key)].repr, node
      ensures Valid() <==> old(Clean(Idx(entry.key), node))
      ensures Valid() ==> m == old(m)[entry.key := entry.val] && Nodes() == old(Nodes()) + {node}
    {
      hide TableOk, Buckets, Clean, LinkedList.Valid;
      var idx := Idx(entry.key);
      TablePut(Buckets(), hash, m, entry);
      Append(idx, node);
      size := size + 1;
      m := m[entry.key := entry.val];
    }

    /**
      Files an entry, in the node given for it, unless its key is taken.  The table stays a
      table exactly when the node has no stale link where it is linked.
    */
    method PutEntry(entry: Entry<V>, node: Node<Entry<V>>) returns (r: int)
      requires Valid() && node.e == entry && node !in Nodes()
      modifies this, arr[Idx(entry.key)], arr[Idx(entry.key)].repr, node
      ensures r == if entry.key in old(m) then -4 else 0
      ensures Valid() <==> r < 0 || old(Clean(Idx(entry.key), node))
      ensures r < 0 ==> m == old(m) && Nodes() == old(Nodes())
      ensures Valid() && r == 0 ==> m == old(m)[entry.key := entry.val] && Nodes() == old(Nodes()) + {node}
    {
      hide TableOk, LinkedList.Valid, Clean;
      var code, e := Get(entry.key);
      if code != -2 { return -4; }
      PutNew(entry, node);
      return 0;
    }

    /** Files a key and a value, unless the key is taken. */
    method Put(key: int, val: V) returns (r: int)
      requires Valid()
      modifies this, arr[Idx(key)], arr[Idx(key)].repr
      ensures Valid() && fresh(Nodes() - old(Nodes()))
      ensures if key in old(m) then r == -4 && m == old(m) else r == 0 && m == old(m)[key := val]
    {
      hide TableOk;
      var node := new Node(Entry(key, val));
      r := PutEntry(Entry(key, val), node);
    }

    /** Takes the first entry with the key out of one chain. */
    method Take(idx: nat, key: int) returns (n: Node?<Entry<V>>, ghost k: nat)
      requires Chains() && idx < |arr|
      modifies arr[idx], arr[idx].repr
      ensures Chains()
      ensures n == null ==> Nodes() == old(Nodes()) && Buckets() == old(Buckets()) && !InBucket(Buckets()[idx], key)
      ensures n != null ==> k < |old(Buckets()[idx])| && n.e == old(Buckets()[idx])[k] && n.e.key == key && Nodes() == old(Nodes()) - {n}
      ensures n != null ==> Buckets() == old(Buckets())[idx := old(Buckets()[idx])[..k] + old(Buckets()[idx])[k + 1..]]
    {
      hide LinkedList.Valid, InBucket;
      assert arr[idx].Valid();
      ghost var s := arr[idx].nodes;
      n, k := arr[idx].Remove(KeyOf(), key);
      OneChanged(idx);
      DataWithout(s, key, k);
      assert n == null ==> arr[idx].nodes == s;
    }

    /** Takes out a key and reports the node that held it. */
    method Remove(key: int) returns (r: int, n: Node?<Entry<V>>)
      requires Valid()
      modifies this, arr[Idx(key)], arr[Idx(key)].repr
      ensures Valid() && r == (if key in old(m) then 0 else -2) && m == old(m) - {key}
      ensures key in old(m) ==> n != null && n.e == Entry(key, old(m)[key]) && Nodes() == old(Nodes()) - {n}
      ensures key !in old(m) ==> Nodes() == old(Nodes())
    {
      hide TableOk, Chains, Nodes, Buckets;
      var idx := Idx(key);
      ghost var k;
      ghost var bs := Buckets();
      TableFind(bs, hash, m, key);
      n, k := Take(idx, key);
      if n == null {
        assert m - {key} == m;
        return -2, null;
      }
      assert bs[idx][k].key == key;
      TableDrop(bs, hash, m, idx, k);
      size := size - 1;
      m := m - {key};
      return 0, n;
    }
  }
}
