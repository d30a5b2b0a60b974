/** Blocks of free heap addresses and the merging of neighbours. */
module Intervals {
  import opened Words
  import L = LinkedList

  const TOP: Word := TWO64 - 1

  /** A block of addresses, both ends included. */
  datatype Interval = Interval(start: Word, end: Word) {
    /** The size is a machine word: the block of all addresses has size 0. */
    function Size(): Word {
      Wrap(end - start + 1)
    }

    predicate Proper() {
      start <= end
    }

    predicate Contains(address: int) {
      start <= address <= end
    }

    /** The first addresses of the block, and the remainder if there is one. */
    function Split(size: Word): (Interval, bool, Interval) {
      var taken := Interval(start, Wrap(start + size - 1));
      if size >= Size() then (taken, false, Interval(0, 0))
      else (taken, true, Interval(Wrap(start + size), end))
    }

    /** One block ends just before the other starts; the sums are machine words. */
    predicate CanMergeWith(other: Interval) {
      Wrap(end + 1) == other.start || Wrap(other.end + 1) == start
    }

    function MergeWith(other: Interval): Interval {
      Interval(if start < other.start then start else other.start, if end > other.end then end else other.end)
    }
  }

  predicate Covers(s: seq<Interval>, address: int) {
    exists i :: 0 <= i < |s| && s[i].Contains(address)
  }

  /** Proper blocks in ascending order, no two sharing an address. */
  predicate Apart(s: seq<Interval>) {
    && (forall i :: 0 <= i < |s| ==> s[i].Proper())
    && (forall i, j :: 0 <= i < j < |s| ==> s[i].end < s[j].start)
  }

  /** Between neighbours there is at least one address. */
  predicate Gapped(s: seq<Interval>) {
    forall i, j | 0 <= i < |s| && 0 <= j < |s| :: j == i + 1 ==> s[i].end + 1 < s[j].start
  }

  predicate Touch(a: Interval, b: Interval) {
    a.CanMergeWith(b)
  }

  function Joined(a: Interval, b: Interval): Interval {
    a.MergeWith(b)
  }

  function Merged(s: seq<Interval>): seq<Interval> {
    L.Coalesced(s, Touch, Joined)
  }

  lemma MergedStep(s: seq<Interval>)
    ensures Merged(s) == if |s| < 2 then s
                         else if s[0].CanMergeWith(s[1]) then Merged([s[0].MergeWith(s[1])] + s[2..])
                         else [s[0]] + Merged(s[1..])
  {
  }

  /** The list covers both ends of the address space, and its one gap is before the last block. */
  predicate WrapsRound(s: seq<Interval>) {
    && |s| >= 2 && s[0].start == 0 && s[|s| - 1].end == TOP
    && (forall i :: 0 < i < |s| - 1 ==> s[i - 1].end + 1 == s[i].start)
    && s[|s| - 2].end + 1 != s[|s| - 1].start
  }

  /** Splitting a block that is large enough shares its addresses out. */
  lemma SplitShares(block: Interval, size: Word, address: int)
    requires block.Proper() && 0 < size <= block.Size()
    ensures var (taken, remains, rest) := block.Split(size);
            && taken.Proper() && taken.Size() == size && (remains ==> rest.Proper() && taken.end < rest.start)
            && (block.Contains(address) <==> taken.Contains(address) || (remains && rest.Contains(address)))
            && (remains <==> size < block.Size())
  {
    assert block.end - block.start + 1 == TWO64 ==> block.Size() == 0;
  }

  /** Merging the first two blocks of an ordered list, when they touch. */
  lemma TouchingMerge(s: seq<Interval>)
    requires Apart(s) && |s| >= 2 && s[0].end + 1 == s[1].start
    ensures var t := [s[0].MergeWith(s[1])] + s[2..];
            && s[0].CanMergeWith(s[1]) && Apart(t) && (WrapsRound(t) <==> WrapsRound(s))
            && t[0].start == s[0].start && (forall a :: Covers(t, a) <==> Covers(s, a))
  {
    var t := [s[0].MergeWith(s[1])] + s[2..];
    assert t[0] == Interval(s[0].start, s[1].end);
    assert forall i :: 1 <= i < |t| ==> t[i] == s[i + 1];
    TouchingRound(s, t);
    forall a {
      TouchingCovers(s, t, a);
    }
  }

  lemma TouchingRound(s: seq<Interval>, t: seq<Interval>)
    requires |s| >= 2 && s[0].end + 1 == s[1].start && |t| == |s| - 1 && t[0] == Interval(s[0].start, s[1].end)
    requires forall i :: 1 <= i < |t| ==> t[i] == s[i + 1]
    ensures WrapsRound(t) <==> WrapsRound(s)
  {
    if WrapsRound(t) {
      forall i | 0 < i < |s| - 1
        ensures s[i - 1].end + 1 == s[i].start
      {
        assert i > 1 ==> t[i - 1].start == s[i].start && t[i - 2].end == s[i - 1].end;
      }
    }
    if WrapsRound(s) {
      forall i | 0 < i < |t| - 1
        ensures t[i - 1].end + 1 == t[i].start
      {
        assert t[i].start == s[i + 1].start && t[i - 1].end == s[i].end;
      }
    }
  }

  lemma TouchingCovers(s: seq<Interval>, t: seq<Interval>, a: int)
    requires Apart(s) && |s| >= 2 && s[0].end + 1 == s[1].start && t == [Interval(s[0].start, s[1].end)] + s[2..]
    ensures Covers(t, a) <==> Covers(s, a)
  {
    CoversSplit(s, 1, a);
    CoversSplit(s[1..], 1, a);
    CoversSplit(t, 1, a);
    assert s[1..][1..] == s[2..] && t[1..] == s[2..];
    assert s[..1] == [s[0]] && s[1..][..1] == [s[1]] && t[..1] == [t[0]];
    CoversOne(s[0], a);
    CoversOne(s[1], a);
    CoversOne(t[0], a);
  }

  lemma CoversOne(x: Interval, a: int)
    ensures Covers([x], a) <==> x.Contains(a)
  {
    if x.Contains(a) {
      assert [x][0].Contains(a);
    }
  }

  lemma CoversSplit(s: seq<Interval>, k: nat, a: int)
    requires k <= |s|
    ensures Covers(s, a) <==> Covers(s[..k], a) || Covers(s[k..], a)
  {
    if Covers(s, a) {
      var i :| 0 <= i < |s| && s[i].Contains(a);
      if i < k {
        assert s[..k][i].Contains(a);
      } else {
        assert s[k..][i - k].Contains(a);
      }
    }
  }

  /** Merging neighbours keeps the covered addresses, order and distance, and leaves no two blocks touching, unless the list wraps round. */
  lemma {:induction false} MergedKeeps(s: seq<Interval>)
    requires Apart(s) && !WrapsRound(s)
    ensures Apart(Merged(s)) && Gapped(Merged(s))
    ensures forall a :: Covers(Merged(s), a) <==> Covers(s, a)
    ensures |Merged(s)| <= |s| && (s != [] ==> Merged(s) != [] && Merged(s)[0].start == s[0].start)
    decreases |s|
  {
    hide L.Coalesced;
    MergedStep(s);
    if |s| < 2 {
    } else if s[0].end + 1 == s[1].start {
      TouchingMerge(s);
      MergedKeeps([s[0].MergeWith(s[1])] + s[2..]);
    } else {
      assert !s[0].CanMergeWith(s[1]) by { DistantNeighbours(s); }
      MergedKeeps(s[1..]);
      var r := Merged(s[1..]);
      forall a
        ensures Covers([s[0]] + r, a) <==> Covers(s, a)
      {
        CoversSplit(s, 1, a);
        CoversSplit([s[0]] + r, 1, a);
        assert s[..1] == [s[0]] && ([s[0]] + r)[..1] == [s[0]] && ([s[0]] + r)[1..] == r;
      }
      assert Apart([s[0]] + r);
    }
  }

  lemma DistantNeighbours(s: seq<Interval>)
    requires Apart(s) && |s| >= 2 && s[0].end + 1 != s[1].start
    ensures s[0].CanMergeWith(s[1]) <==> WrapsRound(s)
    ensures !WrapsRound(s[1..])
    ensures WrapsRound(s) ==> |s| == 2
  {
    assert s[0].end < s[1].start && s[0].Proper() && s[1].Proper();
    assert s[0].CanMergeWith(s[1]) <==> s[0].start == 0 && s[1].end == TOP;
    if |s| > 2 {
      assert s[1].end < s[2].start <= TOP;
      assert s[1 - 1].end + 1 != s[1].start;
    }
  }

  /** A list that wraps round is merged into the block of all addresses, although its gap was not free. */
  lemma {:induction false} WrapsRoundMerged(s: seq<Interval>)
    requires Apart(s) && WrapsRound(s)
    ensures Merged(s) == [Interval(0, TOP)]
    ensures !Covers(s, s[|s| - 1].start - 1)
    decreases |s|
  {
    MergedStep(s);
    var gap := s[|s| - 1].start - 1;
    forall i | 0 <= i < |s|
      ensures !s[i].Contains(gap)
    {
      if i < |s| - 1 {
        assert s[i].end <= s[|s| - 2].end;
        assert s[|s| - 2].end < s[|s| - 1].start;
      }
    }
    if s[0].end + 1 == s[1].start {
      TouchingMerge(s);
      WrapsRoundMerged([s[0].MergeWith(s[1])] + s[2..]);
    } else {
      DistantNeighbours(s);
      var t := [s[0].MergeWith(s[1])] + s[2..];
      assert t == [Interval(0, TOP)];
      MergedStep(t);
    }
  }

  /** Coalescing keeps the set of free addresses exactly when the list does not wrap round. */
  lemma CoalescingIsExact(s: seq<Interval>)
    requires Apart(s)
    ensures (forall a :: Covers(Merged(s), a) <==> Covers(s, a)) <==> !WrapsRound(s)
  {
    if WrapsRound(s) {
      WrapsRoundMerged(s);
      var gap := s[|s| - 1].start - 1;
      assert s[0].end < s[|s| - 1].start;
      CoversOne(Interval(0, TOP), gap);
      assert Covers(Merged(s), gap) && !Covers(s, gap);
    } else {
      MergedKeeps(s);
    }
  }
}
