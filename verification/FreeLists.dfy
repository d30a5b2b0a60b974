/** The two indices of the free blocks, and what allocation and freeing make of them. */
module FreeLists {
  import opened Words
  import opened Intervals
  import L = LinkedList

  /** Blocks by size, with bounds of the sizes. */
  datatype SizeIndex = SizeIndex(lists: map<Word, seq<Interval>>, min: Word, max: Word)

  datatype FreeLists = FreeLists(byAddress: seq<Interval>, bySize: SizeIndex)

  datatype Fit = NoBlock | Block(block: Interval)

  datatype Outcome = Failed | Given(address: Word)

  const NO_SIZES := SizeIndex(map[], TOP, 0)

  predicate Precedes(a: Interval, b: Interval) {
    a.start < b.start
  }

  /** The first index whose element satisfies the predicate, the length if none does. */
  function FirstWhere<T>(s: seq<T>, p: T -> bool): (k: nat)
    ensures k <= |s| && (k < |s| ==> p(s[k]))
    ensures forall i :: 0 <= i < k ==> !p(s[i])
  {
    if s == [] || p(s[0]) then 0 else 1 + FirstWhere(s[1..], p)
  }

  // ----- the index by size -----

  function Recorded(index: SizeIndex, x: Interval): SizeIndex {
    var size := x.Size();
    var list := if size in index.lists then index.lists[size] else [];
    SizeIndex(index.lists[size := list + [x]],
              if size < index.min then size else index.min, if size > index.max then size else index.max)
  }

  /** Takes the first block that starts where x starts out of the list of x's size. */
  function Forgotten(index: SizeIndex, x: Interval): SizeIndex {
    var size := x.Size();
    if size !in index.lists then index
    else
      var list := index.lists[size];
      var k := FirstWhere(list, (b: Interval) => b.start == x.start);
      var rest := if k < |list| then L.RemoveAt(list, k) else list;
      index.(lists := if rest == [] then index.lists - {size} else index.lists[size := rest])
  }

  function Index(s: seq<Interval>): SizeIndex {
    if s == [] then NO_SIZES else Recorded(Index(s[..|s| - 1]), s[|s| - 1])
  }

  /** A block of the smallest size that is at least the required one. */
  function FitFrom(index: SizeIndex, size: nat): Fit
    decreases index.max + 1 - size
  {
    if size > index.max then NoBlock
    else if size in index.lists && index.lists[size] != [] then Block(index.lists[size][0])
    else FitFrom(index, size + 1)
  }

  // ----- both indices -----

  function Added(f: FreeLists, x: Interval): FreeLists {
    FreeLists(L.InsertAt(f.byAddress, L.SortedPlace(f.byAddress, x, Precedes), x), Recorded(f.bySize, x))
  }

  function Removed(f: FreeLists, x: Interval): FreeLists {
    var k := FirstWhere(f.byAddress, (b: Interval) => b == x);
    FreeLists(if k < |f.byAddress| then L.RemoveAt(f.byAddress, k) else f.byAddress, Forgotten(f.bySize, x))
  }

  function Coalesced(f: FreeLists): FreeLists {
    var s := Merged(f.byAddress);
    FreeLists(s, Index(s))
  }

  // ----- allocation and freeing -----

  /** The sum is a machine word. */
  function RoundUp(n: Word, alignment: Word): (r: Word)
    requires alignment > 0
    ensures r <= Wrap(n + alignment - 1) && r % alignment == 0
    ensures n + alignment <= TWO64 ==> n <= r < n + alignment
    ensures n + alignment > TWO64 ==> r == 0
  {
    var m := Wrap(n + alignment - 1);
    QuotientRemainder(m, alignment);
    m / alignment * alignment
  }

  lemma QuotientRemainder(m: nat, d: nat)
    requires d > 0
    ensures m / d * d == m - m % d && m / d * d % d == 0 && 0 <= m % d < d
    ensures m < d ==> m / d == 0
  {
    var q := m / d;
    assert m == d * q + m % d;
    ProductGap(d, 0, q);
    RemainderUnique(q * d, d, q, 0);
  }

  /** The lists after the first addresses of a block are taken. */
  function FrontOff(f: FreeLists, x: Interval, size: Word): FreeLists {
    var (_, remains, rest) := x.Split(size);
    var g := Removed(f, x);
    if remains then Added(g, rest) else g
  }

  function Allocate(f: FreeLists, alignment: Word, size: Word): (FreeLists, Outcome)
    requires alignment > 0
  {
    if size == 0 then (f, Failed)
    else
      var rounded := RoundUp(size, alignment);
      match FitFrom(f.bySize, rounded)
      case NoBlock => (f, Failed)
      case Block(block) => (FrontOff(f, block, rounded), Given(block.start))
  }

  predicate FitsAligned(block: Interval, size: Word, alignment: Word)
    requires alignment > 0
  {
    var start := RoundUp(block.start, alignment);
    Wrap(start + size - 1) <= block.end && block.Size() >= Wrap(start - block.start + size)
  }

  /** What is left of a block in front of and behind the addresses taken from it. */
  function Carved(f: FreeLists, block: Interval, start: Word, size: Word): FreeLists {
    var g := Removed(f, block);
    var front := if start > block.start then Added(g, Interval(block.start, start - 1)) else g;
    if Wrap(start + size - 1) < block.end then Added(front, Interval(Wrap(start + size), block.end)) else front
  }

  function AllocateAligned(f: FreeLists, alignment: Word, size: Word, specific: Word): (FreeLists, Outcome)
    requires alignment > 0
  {
    if size == 0 then (f, Failed)
    else
      var actual := if alignment > specific then alignment else specific;
      var k := FirstWhere(f.byAddress, (b: Interval) => FitsAligned(b, size, actual));
      if k == |f.byAddress| then (f, Failed)
      else
        var start := RoundUp(f.byAddress[k].start, actual);
        (Coalesced(Carved(f, f.byAddress[k], start, size)), Given(start))
  }

  function Free(f: FreeLists, alignment: Word, address: Word, size: Word): (FreeLists, bool)
    requires alignment > 0
  {
    var end := Wrap(address + RoundUp(size, alignment) - 1);
    if size == 0 || end < address then (f, false)
    else (Coalesced(Added(f, Interval(address, end))), true)
  }

  // ----- what the indices keep -----

  predicate StartsDiffer(s: seq<Interval>) {
    forall i, j :: 0 <= i < j < |s| ==> s[i].start != s[j].start
  }

  /** The lists by size hold exactly the blocks of the list by address. */
  ghost predicate Indexed(index: SizeIndex, s: seq<Interval>) {
    && (forall n :: n in index.lists ==> index.lists[n] != [] && StartsDiffer(index.lists[n]))
    && (forall n, x :: n in index.lists && x in index.lists[n] ==> x in s && x.Size() == n)
    && (forall x :: x in s ==> x.Size() in index.lists && x in index.lists[x.Size()])
    && (forall x :: x in s ==> index.min <= x.Size() <= index.max)
  }

  ghost predicate Valid(f: FreeLists) {
    Apart(f.byAddress) && Indexed(f.bySize, f.byAddress)
  }

  predicate Free?(f: FreeLists, address: int) {
    Covers(f.byAddress, address)
  }

  lemma RecordKeeps(index: SizeIndex, s: seq<Interval>, x: Interval, t: seq<Interval>)
    requires Indexed(index, s) && (forall y :: y in t <==> y in s || y == x)
    requires forall y :: y in s ==> y.start != x.start
    ensures Indexed(Recorded(index, x), t)
  {
  }

  lemma ForgetKeeps(index: SizeIndex, s: seq<Interval>, x: Interval, t: seq<Interval>)
    requires Indexed(index, s) && x in s && (forall y :: y in t <==> y in s && y != x)
    requires forall y :: y in s && y.start == x.start ==> y == x
    ensures Indexed(Forgotten(index, x), t)
  {
    var list := index.lists[x.Size()];
    var k := FirstWhere(list, (b: Interval) => b.start == x.start);
    var rest := L.RemoveAt(list, k);
    L.Removed(list, k);
    assert list[k] == x;
    forall i | 0 <= i < |rest|
      ensures rest[i] != x
    {
    }
    assert forall y :: y in rest <==> y in list && y != x;
  }

  lemma {:induction false} IndexHolds(s: seq<Interval>)
    requires StartsDiffer(s)
    ensures Indexed(Index(s), s)
  {
    if s == [] {
    } else {
      var init, x := s[..|s| - 1], s[|s| - 1];
      assert s == init + [x];
      IndexHolds(init);
      RecordKeeps(Index(init), init, x, s);
    }
  }

  lemma CoversMembers(s: seq<Interval>, a: int)
    ensures Covers(s, a) <==> exists x :: x in s && x.Contains(a)
  {
    if x :| x in s && x.Contains(a) {
      var i :| 0 <= i < |s| && s[i] == x;
      assert s[i].Contains(a);
    }
  }

  /** Adding a block of addresses that are not free keeps both indices in step, and frees exactly these addresses. */
  lemma AddKeeps(f: FreeLists, x: Interval)
    requires Valid(f) && x.Proper() && (forall a :: x.Contains(a) ==> !Free?(f, a))
    ensures var g := Added(f, x);
            Valid(g) && (forall y :: y in g.byAddress <==> y in f.byAddress || y == x)
            && (forall a :: Free?(g, a) <==> Free?(f, a) || x.Contains(a))
  {
    hide Indexed, Recorded;
    var s, g := f.byAddress, Added(f, x);
    var k := L.SortedPlace(s, x, Precedes);
    L.PlaceSplits(s, x, Precedes);
    L.Inserted(s, k, x);
    assert Apart(g.byAddress) by {
      hide L.InsertAt;
      InsertApart(s, k, x);
    }
    forall y | y in s
      ensures y.start != x.start
    {
      assert x.Contains(x.start) && y.Contains(y.start);
      CoversMembers(s, x.start);
    }
    RecordKeeps(f.bySize, s, x, g.byAddress);
    forall a
      ensures Free?(g, a) <==> Free?(f, a) || x.Contains(a)
    {
      CoversMembers(s, a);
      CoversMembers(g.byAddress, a);
    }
  }

  /** Adding a block keeps the lists in order exactly when none of its addresses is free already. */
  lemma AddIsExact(f: FreeLists, x: Interval)
    requires Valid(f) && x.Proper()
    ensures Valid(Added(f, x)) <==> forall a :: x.Contains(a) ==> !Free?(f, a)
  {
    hide Indexed, Recorded;
    if forall a :: x.Contains(a) ==> !Free?(f, a) {
      AddKeeps(f, x);
    } else {
      var a :| x.Contains(a) && Free?(f, a);
      var s, k := f.byAddress, L.SortedPlace(f.byAddress, x, Precedes);
      var i :| 0 <= i < |s| && s[i].Contains(a);
      L.Inserted(s, k, x);
      var r := Added(f, x).byAddress;
      assert r[k] == x && r[if i < k then i else i + 1] == s[i];
    }
  }

  lemma InsertApart(s: seq<Interval>, k: nat, x: Interval)
    requires Apart(s) && x.Proper() && k <= |s| && (forall a :: x.Contains(a) ==> !Covers(s, a))
    requires forall i :: 0 <= i < k ==> s[i].start <= x.start
    requires k < |s| ==> x.start <= s[k].start
    ensures Apart(L.InsertAt(s, k, x))
  {
    var r := L.InsertAt(s, k, x);
    L.Inserted(s, k, x);
    assert x.Contains(x.start);
    forall i | 0 <= i < k
      ensures s[i].end < x.start
    {
      assert !s[i].Contains(x.start);
    }
    if k < |s| {
      assert s[k].Contains(s[k].start) && !x.Contains(s[k].start);
      assert forall j :: k < j < |s| ==> s[k].end < s[j].start;
    }
    hide L.InsertAt;
    forall i, j | 0 <= i < j < |r|
      ensures r[i].end < r[j].start
    {
    }
  }

  /** Removing a block keeps both indices in step, and takes exactly its addresses. */
  lemma RemoveKeeps(f: FreeLists, x: Interval)
    requires Valid(f) && x in f.byAddress
    ensures var g := Removed(f, x);
            Valid(g) && (forall y :: y in g.byAddress <==> y in f.byAddress && y != x)
            && (forall a :: Free?(g, a) <==> Free?(f, a) && !x.Contains(a))
  {
    hide Indexed, Forgotten;
    var s, g := f.byAddress, Removed(f, x);
    var k := FirstWhere(s, (b: Interval) => b == x);
    assert k < |s| && s[k] == x;
    L.Removed(s, k);
    RemoveApart(s, k);
    ForgetKeeps(f.bySize, s, x, g.byAddress);
    forall a
      ensures Free?(g, a) <==> Free?(f, a) && !x.Contains(a)
    {
      CoversMembers(s, a);
      CoversMembers(g.byAddress, a);
      OneHolder(s, a);
    }
  }

  lemma RemoveApart(s: seq<Interval>, k: nat)
    requires Apart(s) && k < |s|
    ensures var r := L.RemoveAt(s, k);
            Apart(r) && (forall y :: y in r <==> y in s && y != s[k])
    ensures forall y :: y in s && y.start == s[k].start ==> y == s[k]
  {
    L.Removed(s, k);
    hide L.RemoveAt;
    var r := L.RemoveAt(s, k);
    forall i | 0 <= i < |r|
      ensures r[i] != s[k]
    {
      assert r[i] == s[i] || r[i] == s[i + 1];
    }
  }

  /** No two blocks share an address. */
  lemma OneHolder(s: seq<Interval>, a: int)
    requires Apart(s)
    ensures forall x, y :: x in s && y in s && x.Contains(a) && y.Contains(a) ==> x == y
  {
  }

  /** The block found is the smallest that is large enough; without one, every block is too small. */
  lemma {:induction false} FitIsBest(index: SizeIndex, s: seq<Interval>, size: nat)
    requires Indexed(index, s)
    ensures match FitFrom(index, size)
            case NoBlock => forall x :: x in s ==> x.Size() < size
            case Block(b) => b in s && b.Size() >= size && (forall x :: x in s && x.Size() >= size ==> b.Size() <= x.Size())
    decreases index.max + 1 - size
  {
    if size > index.max {
    } else if size in index.lists && index.lists[size] != [] {
      assert index.lists[size][0] in index.lists[size];
    } else {
      FitIsBest(index, s, size + 1);
    }
  }

  /** Coalescing keeps both indices in step and the free addresses the same, and leaves a gap between neighbours. */
  lemma CoalesceKeeps(f: FreeLists)
    requires Apart(f.byAddress) && !WrapsRound(f.byAddress)
    ensures var g := Coalesced(f);
            Valid(g) && Gapped(g.byAddress) && (forall a :: Free?(g, a) <==> Free?(f, a))
  {
    MergedKeeps(f.byAddress);
    IndexHolds(Merged(f.byAddress));
  }
}
