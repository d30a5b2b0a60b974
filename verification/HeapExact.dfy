/** When giving back is exact: freeing over free addresses, and aligned blocks given back with the size asked for. */
module HeapExact {
  import opened Words
  import opened Intervals
  import opened FreeLists
  import opened HeapRuns
  import L = LinkedList

  // ----- merging lists with overlaps -----

  /** Proper blocks in ascending order of their starts; they may overlap. */
  predicate Ascending(s: seq<Interval>) {
    && (forall i :: 0 <= i < |s| ==> s[i].Proper())
    && (forall i :: 0 < i < |s| ==> s[i - 1].start <= s[i].start)
  }

  /** Two neighbours share an address. */
  predicate Overlaps(s: seq<Interval>) {
    exists i :: 0 < i < |s| && s[i].start <= s[i - 1].end
  }

  predicate EndsCovered(s: seq<Interval>) {
    Covers(s, 0) && Covers(s, TOP)
  }

  lemma CoversHead(s: seq<Interval>, a: int)
    requires s != []
    ensures Covers(s, a) <==> s[0].Contains(a) || Covers(s[1..], a)
  {
    CoversSplit(s, 1, a);
    assert s[..1] == [s[0]];
    CoversOne(s[0], a);
  }

  /** Merging never uncovers an address. */
  lemma {:induction false} MergedCoversMore(s: seq<Interval>, a: int)
    requires Covers(s, a)
    ensures Covers(Merged(s), a)
    decreases |s|
  {
    hide L.Coalesced, Covers;
    MergedStep(s);
    if |s| >= 2 {
      CoversHead(s, a);
      CoversHead(s[1..], a);
      assert s[1..][1..] == s[2..];
      if s[0].CanMergeWith(s[1]) {
        var t := [s[0].MergeWith(s[1])] + s[2..];
        CoversHead(t, a);
        assert t[1..] == s[2..];
        MergedCoversMore(t, a);
      } else {
        var r := [s[0]] + Merged(s[1..]);
        CoversHead(r, a);
        assert r[1..] == Merged(s[1..]);
        if Covers(s[1..], a) {
          MergedCoversMore(s[1..], a);
        }
      }
    }
  }

  /** In an ascending list that does not cover both ends, only blocks that touch are merged. */
  lemma OnlyTouching(s: seq<Interval>)
    requires Ascending(s) && |s| >= 2 && !EndsCovered(s)
    ensures s[0].CanMergeWith(s[1]) ==> s[0].end + 1 == s[1].start && s[0].MergeWith(s[1]) == Interval(s[0].start, s[1].end)
  {
    assert s[0].Contains(s[0].start) && s[1].Contains(s[1].end) && s[1].Contains(s[1].start) && s[0].Contains(s[0].end);
    assert s[1 - 1].start <= s[1].start;
  }

  /** An overlap stays. */
  lemma {:induction false} OverlapStays(s: seq<Interval>)
    requires Ascending(s) && !EndsCovered(s)
    ensures s != [] ==> Merged(s) != [] && Merged(s)[0].start == s[0].start
    ensures Overlaps(s) ==> Overlaps(Merged(s))
    decreases |s|
  {
    hide L.Coalesced, Covers;
    MergedStep(s);
    if |s| >= 2 {
      OnlyTouching(s);
      CoversHead(s, 0);
      CoversHead(s, TOP);
      CoversHead(s[1..], 0);
      CoversHead(s[1..], TOP);
      assert s[1..][1..] == s[2..];
      if s[0].CanMergeWith(s[1]) {
        var t := [s[0].MergeWith(s[1])] + s[2..];
        CoversHead(t, 0);
        CoversHead(t, TOP);
        assert t[1..] == s[2..];
        assert forall i :: 1 <= i < |t| ==> t[i] == s[i + 1];
        OverlapShifts(s, t);
        OverlapStays(t);
      } else {
        var u := s[1..];
        assert forall i :: 0 <= i < |u| ==> u[i] == s[i + 1];
        assert forall i :: 0 < i < |u| ==> s[i].start <= s[i + 1].start;
        OverlapStays(u);
        OverlapBehind(s[0], u, Merged(u));
        assert [s[0]] + u == s;
      }
    }
  }

  lemma OverlapShifts(s: seq<Interval>, t: seq<Interval>)
    requires |s| >= 2 && |t| == |s| - 1 && s[0].end + 1 == s[1].start && t[0] == Interval(s[0].start, s[1].end)
    requires forall i :: 1 <= i < |t| ==> t[i] == s[i + 1]
    requires Ascending(s)
    ensures Ascending(t) && (Overlaps(s) ==> Overlaps(t))
  {
    forall i | 0 < i < |t|
      ensures t[i - 1].start <= t[i].start
    {
      assert s[i].start <= s[i + 1].start;
      assert s[1 - 1].start <= s[1].start;
    }
    if Overlaps(s) {
      var i :| 0 < i < |s| && s[i].start <= s[i - 1].end;
      assert i > 1;
      assert t[i - 1] == s[i] && t[i - 2].end == s[i - 1].end;
    }
  }

  lemma OverlapBehind(x: Interval, u: seq<Interval>, r: seq<Interval>)
    requires u != [] && r != [] && r[0].start == u[0].start && (Overlaps(u) ==> Overlaps(r))
    ensures Overlaps([x] + u) ==> Overlaps([x] + r)
  {
    var s, t := [x] + u, [x] + r;
    if Overlaps(s) {
      var i :| 0 < i < |s| && s[i].start <= s[i - 1].end;
      if i == 1 {
        assert t[1].start <= t[0].end;
      } else {
        assert u[i - 1] == s[i] && u[i - 2] == s[i - 1];
        var j :| 0 < j < |r| && r[j].start <= r[j - 1].end;
        assert t[j + 1] == r[j] && t[j] == r[j - 1];
      }
    }
  }

  /** A block added over free addresses overlaps a neighbour. */
  lemma AddedOverlaps(f: FreeLists, x: Interval, a: int)
    requires Valid(f) && x.Proper() && x.Contains(a) && Free?(f, a)
    ensures Ascending(Added(f, x).byAddress) && Overlaps(Added(f, x).byAddress)
  {
    hide Indexed, Recorded, Forgotten;
    var s := f.byAddress;
    var k := L.SortedPlace(s, x, Precedes);
    L.PlaceSplits(s, x, Precedes);
    InsertedOverlaps(s, k, x, a);
  }

  /** Inserted where no start is larger before and none smaller behind, the starts stay ascending. */
  lemma InsertedAscends(s: seq<Interval>, k: nat, x: Interval)
    requires Apart(s) && x.Proper() && k <= |s|
    requires forall i :: 0 <= i < k ==> !Precedes(x, s[i])
    requires k < |s| ==> !Precedes(s[k], x)
    ensures Ascending(L.InsertAt(s, k, x))
  {
    var r := L.InsertAt(s, k, x);
    L.Inserted(s, k, x);
    hide L.InsertAt;
    forall i | 0 < i < |r|
      ensures r[i - 1].start <= r[i].start
    {
      if i < k {
        assert r[i] == s[i] && r[i - 1] == s[i - 1];
      } else if i == k {
        assert r[i - 1] == s[k - 1] && !Precedes(x, s[k - 1]);
      } else if i == k + 1 {
        assert r[i] == s[k] && r[i - 1] == x;
      } else {
        assert r[i] == s[i - 1] && r[i - 1] == s[i - 2];
      }
    }
  }

  lemma InsertedOverlaps(s: seq<Interval>, k: nat, x: Interval, a: int)
    requires Apart(s) && x.Proper() && k <= |s| && x.Contains(a) && Covers(s, a)
    requires forall i :: 0 <= i < k ==> !Precedes(x, s[i])
    requires k < |s| ==> !Precedes(s[k], x)
    ensures Ascending(L.InsertAt(s, k, x)) && Overlaps(L.InsertAt(s, k, x))
  {
    hide Ascending, L.InsertAt;
    InsertedAscends(s, k, x);
    var r := L.InsertAt(s, k, x);
    L.Inserted(s, k, x);
    var j :| 0 <= j < |s| && s[j].Contains(a);
    if j < k {
      assert r[k - 1] == s[k - 1] && s[k - 1].end >= s[j].end;
      assert r[k].start <= r[k - 1].end;
    } else {
      assert s[k].start <= s[j].start;
      assert r[k + 1] == s[k] && r[k + 1].start <= r[k + 1 - 1].end;
    }
  }

  lemma OverlapsIsNotApart(s: seq<Interval>)
    requires Overlaps(s)
    ensures !Apart(s)
  {
    var i :| 0 < i < |s| && s[i].start <= s[i - 1].end;
  }

  // ----- freeing -----

  /** The block that freeing adds. */
  function FreedBlock(alignment: Word, address: Word, size: Word): Interval
    requires alignment > 0
  {
    Interval(address, Wrap(address + RoundUp(size, alignment) - 1))
  }

  /** Freeing keeps the lists in order if and only if none of the addresses freed is free already. */
  lemma FreeIsExact(f: FreeLists, alignment: Word, address: Word, size: Word)
    requires Valid(f) && alignment > 0 && RoundingFits(size, alignment)
    requires Free(f, alignment, address, size).1
    requires !((address == 0 || Free?(f, 0)) && (address + RoundUp(size, alignment) == TWO64 || Free?(f, TOP)))
    ensures Valid(Free(f, alignment, address, size).0)
            <==> forall a :: address <= a < address + RoundUp(size, alignment) ==> !Free?(f, a)
  {
    hide Indexed, Added, Apart, RoundUp, Gapped, WrapsRound, Index, Merged;
    var rounded, x := RoundUp(size, alignment), FreedBlock(alignment, address, size);
    assert x.end == address + rounded - 1 && x.Proper();
    if forall a :: address <= a < address + rounded ==> !Free?(f, a) {
      FreeGives(f, alignment, address, size);
    } else {
      var a :| address <= a < address + rounded && Free?(f, a);
      AddedOverlaps(f, x, a);
      var s := Added(f, x).byAddress;
      EndsAdded(f, x);
      OverlapStays(s);
      OverlapsIsNotApart(Merged(s));
    }
  }

  lemma EndsAdded(f: FreeLists, x: Interval)
    ensures forall a :: Covers(Added(f, x).byAddress, a) <==> Free?(f, a) || x.Contains(a)
  {
    var s, k := f.byAddress, L.SortedPlace(f.byAddress, x, Precedes);
    L.Inserted(s, k, x);
    forall a
      ensures Covers(Added(f, x).byAddress, a) <==> Free?(f, a) || x.Contains(a)
    {
      CoversMembers(s, a);
      CoversMembers(Added(f, x).byAddress, a);
    }
  }

  /** Whatever freeing adds is free afterwards. */
  lemma FreedIsFree(f: FreeLists, alignment: Word, address: Word, size: Word, a: int)
    requires alignment > 0 && Free(f, alignment, address, size).1 && FreedBlock(alignment, address, size).Contains(a)
    ensures Free?(Free(f, alignment, address, size).0, a)
  {
    hide Merged, RoundUp, Index, Added;
    var x := FreedBlock(alignment, address, size);
    EndsAdded(f, x);
    MergedCoversMore(Added(f, x).byAddress, a);
  }

  // ----- aligned blocks given back -----

  function Larger(a: Word, b: Word): Word {
    if a > b then a else b
  }

  /** The lists are in order and the same addresses are free. */
  ghost predicate SameFree(f: FreeLists, g: FreeLists) {
    Valid(g) && forall a :: Free?(g, a) <==> Free?(f, a)
  }

  /** The last address that freeing adds beyond an aligned block, when rounding adds one. */
  lemma RoundedTail(size: Word, alignment: Word)
    requires alignment > 0 && size > 0 && RoundingFits(size, alignment)
    ensures size <= RoundUp(size, alignment)
    ensures RoundUp(size, alignment) == size <==> size % alignment == 0
  {
    SizeRounded(size, alignment);
  }

  /** A size that needs no rounding comes back. */
  lemma EvenComesBack(f: FreeLists, g: FreeLists, alignment: Word, start: Word, size: Word)
    requires Valid(f) && EndsKept(f) && Valid(g) && alignment > 0 && size > 0 && RoundingFits(size, alignment)
    requires start + size <= TWO64 && (forall a :: start <= a < start + size ==> Free?(f, a))
    requires forall a :: Free?(g, a) <==> Free?(f, a) && !(start <= a < start + size)
    requires size % alignment == 0
    ensures Free(g, alignment, start, size).1 && SameFree(f, Free(g, alignment, start, size).0)
  {
    hide Valid, Free?, RoundUp, Free;
    RoundedTail(size, alignment);
    assert start == 0 ==> Free?(f, 0);
    assert start + size == TWO64 ==> Free?(f, TOP);
    FreeGives(g, alignment, start, size);
  }

  lemma FreeAnswers(g: FreeLists, alignment: Word, start: Word, size: Word)
    requires alignment > 0 && size > 0 && size <= RoundUp(size, alignment)
    ensures var (h, ok) := Free(g, alignment, start, size);
            var rounded := RoundUp(size, alignment);
            && (ok <==> start + rounded <= TWO64) && (!ok ==> h == g)
            && (ok ==> FreedBlock(alignment, start, size) == Interval(start, start + rounded - 1))
  {
    hide RoundUp, Coalesced, Added;
  }

  /** A size that needs rounding does not: a free tail is freed twice, and a tail in use is freed although it belongs to another block. */
  lemma OddDoesNotComeBack(f: FreeLists, g: FreeLists, alignment: Word, start: Word, size: Word)
    requires Valid(f) && EndsKept(f) && Valid(g) && alignment > 0 && size > 0 && RoundingFits(size, alignment)
    requires start + size <= TWO64 && (forall a :: start <= a < start + size ==> Free?(f, a))
    requires forall a :: Free?(g, a) <==> Free?(f, a) && !(start <= a < start + size)
    requires size % alignment != 0
    ensures var (h, ok) := Free(g, alignment, start, size);
            var rounded := RoundUp(size, alignment);
            && size < rounded && (ok <==> start + rounded <= TWO64)
            && (!ok ==> h == g)
            && (ok && (exists a :: start + size <= a < start + rounded && !Free?(f, a))
                ==> exists a :: start + size <= a < start + rounded && !Free?(f, a) && Free?(h, a))
            && (ok && (forall a :: start + size <= a < start + rounded ==> Free?(f, a)) ==> !Valid(h))
            && !SameFree(f, h)
  {
    hide Valid, Free?, RoundUp, Free, FreedBlock;
    RoundedTail(size, alignment);
    FreeAnswers(g, alignment, start, size);
    var (h, ok) := Free(g, alignment, start, size);
    var rounded := RoundUp(size, alignment);
    if !ok {
      assert Free?(f, start) && !Free?(g, start);
    } else {
      if a :| start + size <= a < start + rounded && !Free?(f, a) {
        FreedIsFree(g, alignment, start, size, a);
      } else {
        assert Free?(f, start + size) && Free?(g, start + size);
        assert start == 0 ==> Free?(f, 0);
        assert start + rounded == TWO64 ==> Free?(f, TOP);
        FreeIsExact(g, alignment, start, size);
      }
    }
  }

  /** A block taken by aligned allocation and given back with the size asked for restores the free lists if and only if that size is a multiple of the alignment. */
  lemma AlignedComesBack(f: FreeLists, alignment: Word, size: Word, specific: Word)
    requires Valid(f) && EndsKept(f) && alignment > 0 && size > 0 && RoundingFits(size, Larger(alignment, specific))
    requires AllocateAligned(f, alignment, size, specific).1.Given?
    ensures var (g, r) := AllocateAligned(f, alignment, size, specific);
            SameFree(f, Free(g, alignment, r.address, size).0) <==> size % alignment == 0
  {
    hide Valid, Free?, AllocateAligned, Free, RoundUp;
    AlignedTakes(f, alignment, size, specific);
    var (g, r) := AllocateAligned(f, alignment, size, specific);
    if size % alignment == 0 {
      EvenComesBack(f, g, alignment, r.address, size);
    } else {
      OddDoesNotComeBack(f, g, alignment, r.address, size);
    }
  }

  /** The condition on aligned sizes in legal requests is needed: without it one block taken and given back leaves the heap's addresses wrongly shared out. */
  lemma LegalSizesNeeded(h: Heap, lo: Word, hi: Word, alignment: Word, size: Word, specific: Word)
    requires Shared(h, lo, hi) && !(lo == 0 && hi == TOP) && alignment > 0 && size > 0
    requires RoundingFits(size, Larger(alignment, specific)) && size % alignment != 0
    requires AllocateAligned(h.lists, alignment, size, specific).1.Given?
    ensures var (g, r) := AllocateAligned(h.lists, alignment, size, specific);
            !Shared(Heap(Free(g, alignment, r.address, size).0, h.live), lo, hi)
  {
    hide AllocateAligned, Free;
    EndsOfHeap(h, lo, hi);
    AlignedComesBack(h.lists, alignment, size, specific);
    var (g, r) := AllocateAligned(h.lists, alignment, size, specific);
    var back := Heap(Free(g, alignment, r.address, size).0, h.live);
    SharedSame(h, back, lo, hi);
  }

  lemma SharedSame(h: Heap, k: Heap, lo: Word, hi: Word)
    requires Shared(h, lo, hi) && k.live == h.live
    ensures Shared(k, lo, hi) ==> SameFree(h.lists, k.lists)
  {
    hide Valid, Free?, Gapped, Holders;
    if Shared(k, lo, hi) {
      assert Valid(k.lists);
      forall a
        ensures Free?(k.lists, a) <==> Free?(h.lists, a)
      {
        assert (if Free?(h.lists, a) then 1 else 0) + Holders(h.live, a) == if lo <= a <= hi then 1 else 0;
        assert (if Free?(k.lists, a) then 1 else 0) + Holders(k.live, a) == if lo <= a <= hi then 1 else 0;
      }
    }
  }
}
