/**
  Memory sections as the loader describes them: the range of pages they span, and which section
  decides the flags of a page.
*/
module Sections {
  import opened Machine
  import opened Paging

  /** First address and length in bytes, and the flags asked for in the two levels. */
  datatype Section = Section(start: nat, len: nat, pdeFlags: nat, pteFlags: nat)

  /** The last byte, computed on 32-bit words. */
  function Last(s: Section): nat { Wrap(s.start + Wrap(s.len - 1)) }

  /** The section is not empty and ends within the address space. */
  predicate Proper(s: Section) { s.len > 0 && s.start + s.len <= WORD }

  // ---- Bounds --------------------------------------------------------------

  /** The sections that are not empty lie between the bounds, and reach both. */
  ghost predicate Bounds(secs: seq<Section>, low: nat, high: nat) {
    && (forall k :: 0 <= k < |secs| && secs[k].len > 0 ==> low <= secs[k].start && Last(secs[k]) <= high)
    && (exists k :: 0 <= k < |secs| && secs[k].len > 0 && secs[k].start == low)
    && (exists k :: 0 <= k < |secs| && secs[k].len > 0 && Last(secs[k]) == high)
  }

  /** The least and the greatest address of the sections that are not empty; fails when all are. */
  method GetBounds(secs: seq<Section>) returns (code: int, low: nat, high: nat)
    requires forall i :: 0 <= i < |secs| ==> secs[i].len == 0 || Proper(secs[i])
    ensures code == if exists k :: 0 <= k < |secs| && secs[k].len > 0 then 0 else -1
    ensures code == 0 ==> Bounds(secs, low, high) && low <= high < WORD
  {
    low, high := 0xFFFF_FFFF, 0;
    ghost var some, first, last := false, 0, 0;
    for i := 0 to |secs|
      invariant !some ==> low == 0xFFFF_FFFF && high == 0
      invariant forall k :: 0 <= k < i && secs[k].len > 0 ==> some && low <= secs[k].start && Last(secs[k]) <= high
      invariant some ==> 0 <= first < i && secs[first].len > 0 && secs[first].start == low
      invariant some ==> 0 <= last < i && secs[last].len > 0 && Last(secs[last]) == high && low <= high < WORD
    {
      if secs[i].len == 0 { continue; }
      var cLow, cHigh := secs[i].start, Last(secs[i]);
      assert Proper(secs[i]) && cLow <= cHigh < WORD;
      if cLow < low || !some { first := i; }
      if cHigh > high || !some { last := i; }
      if cLow < low { low := cLow; }
      if cHigh > high { high := cHigh; }
      some := true;
    }
    if low > high { return -1, low, high; }
    return 0, low, high;
  }

  // ---- The section of a page -----------------------------------------------

  /** What the search asks of a section: that it contains one of the two ends of the range. */
  predicate Touches(s: Section, low: nat, high: nat) {
    (s.start <= low <= Last(s)) || (s.start <= high <= Last(s))
  }

  /** The first section that contains an end of the range; 1 tells that there is none. */
  method FindSection(secs: seq<Section>, low: nat, high: nat) returns (code: int, k: nat)
    requires low <= high
    ensures code == 0 || code == 1
    ensures code == 0 ==> k < |secs| && Touches(secs[k], low, high) && forall j :: 0 <= j < k ==> !Touches(secs[j], low, high)
    ensures code == 1 ==> forall j :: 0 <= j < |secs| ==> !Touches(secs[j], low, high)
  {
    for i := 0 to |secs|
      invariant forall j :: 0 <= j < i ==> !Touches(secs[j], low, high)
    {
      if Touches(secs[i], low, high) { return 0, i; }
    }
    return 1, 0;
  }

  /** The section has a byte in the range. */
  predicate Overlaps(s: Section, low: nat, high: nat) { s.start <= high && low < s.start + s.len }

  /** A section with bytes in the range is overlooked exactly when it lies between its ends. */
  lemma OverlooksExactly(s: Section, low: nat, high: nat)
    requires Proper(s) && low <= high < WORD && Overlaps(s, low, high)
    ensures !Touches(s, low, high) <==> low < s.start && s.start + s.len <= high
  {
  }

  /** An empty section claims a range exactly when it starts at address 0, and then every range. */
  lemma EmptyClaims(s: Section, low: nat, high: nat)
    requires s.len == 0 && s.start < WORD && low <= high < WORD
    ensures Touches(s, low, high) <==> s.start == 0
  {
    if s.start > 0 { assert Last(s) == s.start - 1; }
  }

  // ---- The pages of the sections -------------------------------------------

  function AlignDown(a: nat): nat { PAGE_SIZE * (a / PAGE_SIZE) }
  function AlignUp(a: nat): nat { Wrap(PAGE_SIZE * (Wrap(a + PAGE_SIZE - 1) / PAGE_SIZE)) }

  /** How many pages the loader maps for the bounds, computed on 32-bit words. */
  function PageCount(low: nat, high: nat): nat {
    Wrap(Wrap(AlignUp(high) - 1 - AlignDown(low)) + 1) / PAGE_SIZE
  }

  /** The loader maps every page from the first to the last, except a last page of which only the first byte counts. */
  lemma PageSpan(low: nat, high: nat)
    requires PAGE_SIZE <= low <= high < WORD
    ensures PageCount(low, high) == high / PAGE_SIZE - low / PAGE_SIZE + if high % PAGE_SIZE == 0 then 0 else 1
    ensures low / PAGE_SIZE + PageCount(low, high) <= NUM_PAGES
  {
    var p, q, r := low / 4096, high / 4096, high % 4096;
    var x := q + if r == 0 then 0 else 1;
    assert (high + 4095) / 4096 == x;
    assert high == 4096 * q + r && q < NUM_PAGES && 1 <= p <= q <= x <= NUM_PAGES;
    if x < NUM_PAGES {
      assert AlignUp(high) == 4096 * x by { assert r == 0 || high + 4095 < WORD; }
    } else {
      assert AlignUp(high) == 0;
    }
    assert Wrap(Wrap(AlignUp(high) - 1 - 4096 * p) + 1) == 4096 * (x - p) by { SpanBytes(AlignUp(high), x, p); }
  }

  lemma SpanBytes(up: nat, x: nat, p: nat)
    requires 1 <= p <= x <= NUM_PAGES && up == if x < NUM_PAGES then 4096 * x else 0
    ensures Wrap(Wrap(up - 1 - 4096 * p) + 1) == 4096 * (x - p)
  {
    if x == p {
      assert Wrap(up - 1 - 4096 * p) == WORD - 1;
    } else {
      assert Wrap(up - 1 - 4096 * p) == 4096 * (x - p) - 1;
    }
  }

  /** All pages between the bounds are mapped exactly when the last byte is not the first of its page. */
  lemma AllMapped(low: nat, high: nat)
    requires PAGE_SIZE <= low <= high < WORD
    ensures (forall a :: low <= a <= high ==> low / PAGE_SIZE <= a / PAGE_SIZE < low / PAGE_SIZE + PageCount(low, high)) <==> high % PAGE_SIZE != 0
  {
    PageSpan(low, high);
    hide PageCount;
    assert low <= high <= high;
    forall a | low <= a <= high ensures low / PAGE_SIZE <= a / PAGE_SIZE <= high / PAGE_SIZE {}
  }
}
