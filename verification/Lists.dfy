/** Lists without repetition, as the kernel's pools use them. */
module Lists {

  ghost predicate Distinct<T>(s: seq<T>) {
    forall x, y :: 0 <= x < y < |s| ==> s[x] != s[y]
  }

  /** The list after unlinking the node that holds `x`. */
  function Unlink<T(==)>(s: seq<T>, x: T): seq<T> {
    if s == [] then [] else if s[0] == x then s[1..] else [s[0]] + Unlink(s[1..], x)
  }

  lemma {:induction false} UnlinkMember<T>(s: seq<T>, x: T, y: T)
    requires Distinct(s)
    ensures y in Unlink(s, x) <==> y in s && y != x
  {
    if s != [] {
      assert s == [s[0]] + s[1..];
      if s[0] != x { UnlinkMember(s[1..], x, y); }
    }
  }

  lemma {:induction false} UnlinkWithin<T>(s: seq<T>, x: T)
    ensures forall y :: y in Unlink(s, x) ==> y in s
  {
    if s != [] && s[0] != x {
      UnlinkWithin(s[1..], x);
      assert s == [s[0]] + s[1..];
    }
  }

  lemma {:induction false} UnlinkDistinct<T>(s: seq<T>, x: T)
    requires Distinct(s)
    ensures Distinct(Unlink(s, x))
    ensures |Unlink(s, x)| == if x in s then |s| - 1 else |s|
  {
    if s != [] && s[0] != x {
      UnlinkDistinct(s[1..], x);
      UnlinkMember(s[1..], x, s[0]);
      assert Unlink(s, x) == [s[0]] + Unlink(s[1..], x);
    }
  }

  lemma AppendDistinct<T>(s: seq<T>, x: T)
    requires Distinct(s) && x !in s
    ensures Distinct(s + [x])
  {
  }

  lemma HeadTail<T>(s: seq<T>)
    requires s != [] && Distinct(s)
    ensures Distinct(s[1..]) && s[0] !in s[1..] && forall x :: x in s <==> x in s[1..] || x == s[0]
  {
    assert s == [s[0]] + s[1..];
  }

  // ---- Sorted insertion ----------------------------------------------------

  /** Where the walk of a sorted insertion, having reached place `i`, inserts key `w`. */
  function PlaceAfter<T>(s: seq<T>, key: T -> int, w: int, i: nat): (k: nat)
    requires i < |s|
    ensures i < k <= |s|
    decreases |s| - i
  {
    if i + 1 == |s| then i + 1
    else if key(s[i]) <= w <= key(s[i + 1]) then i + 1
    else PlaceAfter(s, key, w, i + 1)
  }

  /** Before a larger head, else in the first gap that fits. */
  function SortedPlace<T>(s: seq<T>, key: T -> int, w: int): (k: nat)
    ensures k <= |s|
  {
    if s == [] || w < key(s[0]) then 0 else PlaceAfter(s, key, w, 0)
  }

  predicate FitsAt<T>(s: seq<T>, key: T -> int, w: int, k: nat) {
    k <= |s| && (k > 0 ==> key(s[k - 1]) <= w) && (k < |s| ==> w <= key(s[k]))
  }

  lemma {:induction false} PlaceAfterFits<T>(s: seq<T>, key: T -> int, w: int, i: nat)
    requires i < |s| && key(s[i]) <= w
    ensures FitsAt(s, key, w, PlaceAfter(s, key, w, i))
    decreases |s| - i
  {
    if i + 1 < |s| && w > key(s[i + 1]) { PlaceAfterFits(s, key, w, i + 1); }
  }

  /** The place found lies between a key that is not larger and one that is not smaller. */
  lemma PlaceFits<T>(s: seq<T>, key: T -> int, w: int)
    ensures FitsAt(s, key, w, SortedPlace(s, key, w))
  {
    if s != [] && w >= key(s[0]) { PlaceAfterFits(s, key, w, 0); }
  }

  lemma {:induction false} SamePlaceAfter<T>(s: seq<T>, key: T -> int, key': T -> int, w: int, i: nat)
    requires i < |s| && forall x :: x in s ==> key(x) == key'(x)
    ensures PlaceAfter(s, key, w, i) == PlaceAfter(s, key', w, i)
    decreases |s| - i
  {
    if i + 1 < |s| { SamePlaceAfter(s, key, key', w, i + 1); }
  }

  lemma SamePlace<T>(s: seq<T>, key: T -> int, key': T -> int, w: int)
    requires forall x :: x in s ==> key(x) == key'(x)
    ensures SortedPlace(s, key, w) == SortedPlace(s, key', w)
  {
    if s != [] { SamePlaceAfter(s, key, key', w, 0); }
  }
}
