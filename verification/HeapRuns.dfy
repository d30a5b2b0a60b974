/** Allocation and freeing over whole runs of the heap. */
module HeapRuns {
  import opened Words
  import opened Intervals
  import opened FreeLists
  import L = LinkedList

  /** Rounding the size up to the alignment stays a machine word. */
  predicate RoundingFits(size: Word, alignment: Word) {
    size + alignment <= TWO64
  }

  /** The first and the last address of all are not both free, so that no block looks contiguous round the end. */
  predicate EndsKept(f: FreeLists) {
    !(Free?(f, 0) && Free?(f, TOP))
  }

  /** Allocation takes the first addresses of the smallest block that is large enough, and nothing else; it fails only when there is none. */
  lemma AllocateTakes(f: FreeLists, alignment: Word, size: Word)
    requires Valid(f) && alignment > 0 && size > 0 && RoundingFits(size, alignment)
    ensures var (g, r) := Allocate(f, alignment, size);
            var rounded := RoundUp(size, alignment);
            Valid(g) && (Gapped(f.byAddress) ==> Gapped(g.byAddress))
            && match r
               case Failed => g == f && (forall x :: x in f.byAddress ==> x.Size() < rounded)
               case Given(start) =>
                 && start + rounded <= TWO64
                 && (forall a :: start <= a < start + rounded ==> Free?(f, a))
                 && (forall a :: Free?(g, a) <==> Free?(f, a) && !(start <= a < start + rounded))
                 && (exists x :: x in f.byAddress && x.start == start && x.Size() >= rounded
                                 && (forall y :: y in f.byAddress && y.Size() >= rounded ==> x.Size() <= y.Size()))
  {
    hide Valid, Added, Removed, Covers, Apart, Gapped, RoundUp, Indexed;
    var rounded := RoundUp(size, alignment);
    UnfoldValid(f);
    FitIsBest(f.bySize, f.byAddress, rounded);
    match FitFrom(f.bySize, rounded)
    case NoBlock =>
    case Block(x) =>
      FrontTaken(f, x, rounded);
      MemberProper(f.byAddress, x);
      SizeOf(x);
  }

  lemma UnfoldValid(f: FreeLists)
    requires Valid(f)
    ensures Apart(f.byAddress) && Indexed(f.bySize, f.byAddress)
  {
  }

  lemma SizeOf(x: Interval)
    requires x.Proper()
    ensures x.Size() > 0 ==> x.Size() == x.end - x.start + 1
  {
  }

  lemma FrontTaken(f: FreeLists, x: Interval, size: Word)
    requires Valid(f) && x in f.byAddress && 0 < size <= x.Size()
    ensures var g := FrontOff(f, x, size);
            && Valid(g) && (Gapped(f.byAddress) ==> Gapped(g.byAddress))
            && (forall a :: x.start <= a < x.start + size ==> Free?(f, a))
            && (forall a :: Free?(g, a) <==> Free?(f, a) && !(x.start <= a < x.start + size))
  {
    hide Indexed, Added, Removed, Covers, Apart, Gapped;
    MemberProper(f.byAddress, x);
    RemoveKeeps(f, x);
    SizeOf(x);
    forall a
      ensures x.Contains(a) ==> Free?(f, a)
    {
      CoversMembers(f.byAddress, a);
    }
    var (_, remains, rest) := x.Split(size);
    SplitShares(x, size, x.end);
    if remains {
      assert rest == Interval(x.start + size, x.end);
      AddKeeps(Removed(f, x), rest);
    }
    if Gapped(f.byAddress) {
      RestGapped(f, x, remains, rest, FrontOff(f, x, size));
    }
  }

  /** What is left of a block keeps its distance from the block behind. */
  lemma RestGapped(f: FreeLists, x: Interval, remains: bool, rest: Interval, g: FreeLists)
    requires Valid(f) && Valid(g) && Gapped(f.byAddress) && x in f.byAddress && (remains ==> rest.end == x.end)
    requires forall y :: y in g.byAddress ==> y in f.byAddress || (remains && y == rest)
    requires forall a :: Free?(g, a) ==> Free?(f, a)
    ensures Gapped(g.byAddress)
  {
    hide Indexed, Covers, Apart, Gapped;
    GappedMeans(f.byAddress);
    GappedMeans(g.byAddress);
    forall y | y in g.byAddress
      ensures !Covers(g.byAddress, y.end + 1)
    {
      assert !Free?(f, y.end + 1);
    }
  }

  lemma MemberProper(s: seq<Interval>, x: Interval)
    requires Apart(s) && x in s
    ensures x.Proper()
  {
  }

  /** When rounding the size up wraps, allocation gives an address and takes nothing. */
  lemma AllocateTakesNothing(f: FreeLists, alignment: Word, size: Word)
    requires Valid(f) && EndsKept(f) && alignment > 0 && !RoundingFits(size, alignment)
    ensures var (g, r) := Allocate(f, alignment, size);
            && Valid(g) && (r == Failed <==> f.byAddress == []) && (forall a :: Free?(g, a) <==> Free?(f, a))
            && (r.Given? ==> Free?(f, r.address))
  {
    hide Indexed, Added, Removed, Covers;
    FitIsBest(f.bySize, f.byAddress, 0);
    assert f.byAddress == [] || f.byAddress[0] in f.byAddress;
    match FitFrom(f.bySize, 0)
    case NoBlock =>
    case Block(x) =>
      RemoveKeeps(f, x);
      forall a
        ensures x.Contains(a) ==> Free?(f, a)
      {
        CoversMembers(f.byAddress, a);
      }
      MemberProper(f.byAddress, x);
      assert x.Contains(x.start) && x.Contains(x.end);
      assert x.Split(0).1 && x.Split(0).2 == x;
      AddKeeps(Removed(f, x), x);
  }

  /** Allocation takes the addresses it answers for exactly when the rounding fits. */
  lemma AllocateIsExact(f: FreeLists, alignment: Word, size: Word)
    requires Valid(f) && EndsKept(f) && alignment > 0 && size > 0 && Allocate(f, alignment, size).1.Given?
    ensures var (g, r) := Allocate(f, alignment, size);
            (forall a :: r.address <= a < r.address + size ==> Free?(f, a) && !Free?(g, a)) <==> RoundingFits(size, alignment)
  {
    hide Allocate, Valid, Free?, RoundUp;
    if RoundingFits(size, alignment) {
      AllocateTakes(f, alignment, size);
    } else {
      AllocateTakesNothing(f, alignment, size);
    }
  }

  // ----- aligned allocation -----

  /** The block has room for the size from an aligned address on. */
  predicate RoomAt(x: Interval, size: Word, alignment: Word, start: int)
    requires alignment > 0
  {
    start % alignment == 0 && x.start <= start && start + size - 1 <= x.end
  }

  /** The addresses that a block offers to an aligned allocation. */
  lemma FitsMeaning(x: Interval, size: Word, alignment: Word)
    requires x.Proper() && x != Interval(0, TOP) && size > 0 && alignment > 0 && RoundingFits(size, alignment)
    ensures FitsAligned(x, size, alignment) ==>
              var start := RoundUp(x.start, alignment);
              x.start <= start && start + size - 1 <= x.end
    ensures x.start + alignment <= TWO64 ==>
              forall start :: RoomAt(x, size, alignment, start) ==> FitsAligned(x, size, alignment)
  {
    hide RoundUp, Wrap;
    var start := RoundUp(x.start, alignment);
    WrapsOnce(x.end - x.start + 1);
    WrapsOnce(start - x.start + size);
    WrapsOnce(start + size - 1);
    if x.start + alignment <= TWO64 {
      forall start | RoomAt(x, size, alignment, start)
        ensures RoundUp(x.start, alignment) <= start
      {
        LeastMultiple(x.start, alignment, start);
      }
    }
  }

  lemma WrapsOnce(n: int)
    requires 0 <= n + TWO64 && n < 2 * TWO64
    ensures Wrap(n) == if n < 0 then n + TWO64 else if n < TWO64 then n else n - TWO64
  {
  }

  lemma LeastMultiple(n: Word, alignment: Word, m: nat)
    requires alignment > 0 && n + alignment <= TWO64 && n <= m && m % alignment == 0
    ensures RoundUp(n, alignment) <= m
  {
    hide RoundUp;
    var r := RoundUp(n, alignment);
    assert r == alignment * (r / alignment) && m == alignment * (m / alignment);
    ProductGap(alignment, m / alignment, r / alignment);
  }

  lemma NotBehind(s: seq<Interval>, i: nat)
    requires Apart(s) && Gapped(s) && i < |s|
    ensures !Covers(s, s[i].end + 1)
  {
    forall j | 0 <= j < |s|
      ensures !s[j].Contains(s[i].end + 1)
    {
      if i < j {
        assert s[i].end + 1 < s[i + 1].start <= s[j].start;
      }
    }
  }

  /** In an ordered list, neighbours are apart when the address after each block is not free. */
  lemma GappedMeans(s: seq<Interval>)
    requires Apart(s)
    ensures Gapped(s) <==> forall x :: x in s ==> !Covers(s, x.end + 1)
  {
    if Gapped(s) {
      forall x | x in s
        ensures !Covers(s, x.end + 1)
      {
        var i :| 0 <= i < |s| && s[i] == x;
        NotBehind(s, i);
      }
    } else {
      var i, j :| 0 <= i < |s| && 0 <= j < |s| && j == i + 1 && s[i].end + 1 >= s[j].start;
      assert s[j].Contains(s[i].end + 1) && s[i] in s;
    }
  }

  /** A carved block loses exactly the addresses taken. */
  lemma CarvedKeeps(f: FreeLists, x: Interval, start: Word, size: Word)
    requires Valid(f) && x in f.byAddress && size > 0 && x.start <= start && start + size - 1 <= x.end
    ensures var g := Carved(f, x, start, size);
            Valid(g) && (forall a :: Free?(g, a) <==> Free?(f, a) && !(start <= a < start + size))
  {
    hide Indexed, Added, Removed, Covers, Apart;
    RemoveKeeps(f, x);
    forall a
      ensures x.Contains(a) ==> Free?(f, a)
    {
      CoversMembers(f.byAddress, a);
    }
    var g := Removed(f, x);
    var front := if start > x.start then Added(g, Interval(x.start, start - 1)) else g;
    if start > x.start {
      AddKeeps(g, Interval(x.start, start - 1));
    }
    assert forall a :: Free?(front, a) <==> Free?(f, a) && !(start <= a <= x.end);
    if start + size - 1 < x.end {
      AddKeeps(front, Interval(start + size, x.end));
    }
  }

  /** Aligned allocation takes exactly the addresses it answers for; it fails only when no block has room for them. */
  lemma AlignedTakes(f: FreeLists, alignment: Word, size: Word, specific: Word)
    requires Valid(f) && EndsKept(f) && alignment > 0 && size > 0
    requires RoundingFits(size, if alignment > specific then alignment else specific)
    ensures var (g, r) := AllocateAligned(f, alignment, size, specific);
            var actual := if alignment > specific then alignment else specific;
            Valid(g)
            && match r
               case Failed => g == f && (forall x, start :: x in f.byAddress && x.start + actual <= TWO64 ==> !RoomAt(x, size, actual, start))
               case Given(start) =>
                 && start % actual == 0 && start + size <= TWO64 && Gapped(g.byAddress)
                 && (forall a :: start <= a < start + size ==> Free?(f, a))
                 && (forall a :: Free?(g, a) <==> Free?(f, a) && !(start <= a < start + size))
  {
    hide Indexed, Carved, Merged, RoundUp, FitsAligned;
    var actual := if alignment > specific then alignment else specific;
    var s := f.byAddress;
    forall x | x in s
      ensures x.Proper() && x != Interval(0, TOP) && forall a :: x.Contains(a) ==> Free?(f, a)
    {
      forall a {
        CoversMembers(s, a);
      }
      assert x.Contains(x.start) && x.Contains(x.end);
    }
    var k := FirstWhere(s, (b: Interval) => FitsAligned(b, size, actual));
    if k == |s| {
      forall x | x in s
        ensures !FitsAligned(x, size, actual)
      {
      }
      forall x | x in s {
        FitsMeaning(x, size, actual);
      }
    } else {
      var x, start := s[k], RoundUp(s[k].start, actual);
      FitsMeaning(x, size, actual);
      CarvedKeeps(f, x, start, size);
      var c := Carved(f, x, start, size);
      NotRound(c);
      CoalesceKeeps(c);
    }
  }

  lemma NotRound(f: FreeLists)
    requires EndsKept(f) && Apart(f.byAddress)
    ensures !WrapsRound(f.byAddress)
  {
    var s := f.byAddress;
    if s != [] {
      assert s[0].Contains(s[0].start) && s[|s| - 1].Contains(s[|s| - 1].end);
    }
  }

  // ----- freeing -----

  lemma FreeShape(f: FreeLists, alignment: Word, address: Word, size: Word)
    requires alignment > 0 && RoundingFits(size, alignment)
    ensures var rounded := RoundUp(size, alignment);
            Free(f, alignment, address, size)
            == if size > 0 && address + rounded <= TWO64 then (Coalesced(Added(f, Interval(address, address + rounded - 1))), true)
               else (f, false)
  {
    hide Coalesced, Added, RoundUp, Wrap;
    WrapsOnce(address + RoundUp(size, alignment) - 1);
  }

  /** Freeing gives back exactly the rounded addresses, and neighbours are merged; it fails only for no size or past the last address. */
  lemma FreeGives(f: FreeLists, alignment: Word, address: Word, size: Word)
    requires Valid(f) && alignment > 0 && RoundingFits(size, alignment)
    requires forall a :: address <= a < address + RoundUp(size, alignment) ==> !Free?(f, a)
    // the first and the last address of all do not both become free
    requires !((address == 0 || Free?(f, 0)) && (address + RoundUp(size, alignment) == TWO64 || Free?(f, TOP)))
    ensures var (g, ok) := Free(f, alignment, address, size);
            var rounded := RoundUp(size, alignment);
            && (ok <==> size > 0 && address + rounded <= TWO64) && (!ok ==> g == f)
            && (ok ==> Valid(g) && Gapped(g.byAddress)
                       && (forall a :: Free?(g, a) <==> Free?(f, a) || address <= a < address + rounded))
  {
    hide Free, Indexed, Added, Coalesced, Covers, Apart, RoundUp, Gapped, WrapsRound;
    FreeShape(f, alignment, address, size);
    var rounded := RoundUp(size, alignment);
    if size > 0 && address + rounded <= TWO64 {
      var x := Interval(address, address + rounded - 1);
      AddKeeps(f, x);
      NotRound(Added(f, x));
      CoalesceKeeps(Added(f, x));
    }
  }

  // ----- whole runs -----

  /** Blocks in use are remembered as the addresses taken for them. */
  datatype Heap = Heap(lists: FreeLists, live: seq<Interval>)

  datatype Request = Take(size: Word) | TakeAligned(size: Word, specific: Word) | GiveBack(k: nat, size: Word)

  function Start(lo: Word, hi: Word): Heap {
    Heap(Added(FreeLists([], NO_SIZES), Interval(lo, hi)), [])
  }

  /** Sizes leave room for rounding, aligned sizes need none, and blocks are given back with the size asked for. */
  predicate Legal(h: Heap, alignment: Word, op: Request)
    requires alignment > 0
  {
    match op
    case Take(size) => RoundingFits(size, alignment)
    case TakeAligned(size, specific) => RoundingFits(size, if alignment > specific then alignment else specific) && size % alignment == 0
    case GiveBack(k, size) => k < |h.live| && RoundingFits(size, alignment) && RoundUp(size, alignment) == h.live[k].Size()
  }

  function Served(h: Heap, alignment: Word, op: Request): Heap
    requires alignment > 0 && Legal(h, alignment, op)
  {
    match op
    case Take(size) =>
      var (g, r) := Allocate(h.lists, alignment, size);
      if r.Failed? then h else Heap(g, h.live + [Interval(r.address, Wrap(r.address + RoundUp(size, alignment) - 1))])
    case TakeAligned(size, specific) =>
      var (g, r) := AllocateAligned(h.lists, alignment, size, specific);
      if r.Failed? then h else Heap(g, h.live + [Interval(r.address, Wrap(r.address + size - 1))])
    case GiveBack(k, size) =>
      var (g, ok) := Free(h.lists, alignment, h.live[k].start, size);
      if ok then Heap(g, h.live[..k] + h.live[k + 1..]) else h
  }

  /** The number of blocks in use that hold an address. */
  function Holders(live: seq<Interval>, address: int): nat {
    if live == [] then 0 else (if live[0].Contains(address) then 1 else 0) + Holders(live[1..], address)
  }

  /** Every address of the heap is free or in exactly one block in use; no other address is either; free neighbours are merged. */
  ghost predicate Shared(h: Heap, lo: Word, hi: Word) {
    && Valid(h.lists) && Gapped(h.lists.byAddress) && (forall i :: 0 <= i < |h.live| ==> h.live[i].Proper())
    && (forall a :: (if Free?(h.lists, a) then 1 else 0) + Holders(h.live, a) == if lo <= a <= hi then 1 else 0)
  }

  lemma StartShared(lo: Word, hi: Word)
    requires lo <= hi
    ensures Shared(Start(lo, hi), lo, hi)
  {
    AddKeeps(FreeLists([], NO_SIZES), Interval(lo, hi));
    assert Start(lo, hi).lists.byAddress == [Interval(lo, hi)];
  }

  lemma {:induction false} HoldersAppend(a: seq<Interval>, b: seq<Interval>, address: int)
    ensures Holders(a + b, address) == Holders(a, address) + Holders(b, address)
  {
    if a == [] {
      assert a + b == b;
    } else {
      assert (a + b)[1..] == a[1..] + b;
      HoldersAppend(a[1..], b, address);
    }
  }

  lemma HoldersOne(x: Interval, address: int)
    ensures Holders([x], address) == if x.Contains(address) then 1 else 0
  {
  }

  /** Addresses that leave the free ones for a block in use stay shared out. */
  lemma TakenShared(h: Heap, g: FreeLists, x: Interval, lo: Word, hi: Word)
    requires Shared(h, lo, hi) && Valid(g) && Gapped(g.byAddress) && x.Proper()
    requires forall a :: x.Contains(a) ==> Free?(h.lists, a)
    requires forall a :: Free?(g, a) <==> Free?(h.lists, a) && !x.Contains(a)
    ensures Shared(Heap(g, h.live + [x]), lo, hi)
  {
    hide Valid, Free?, Gapped, Holders;
    forall a
      ensures (if Free?(g, a) then 1 else 0) + Holders(h.live + [x], a) == if lo <= a <= hi then 1 else 0
    {
      HoldersAppend(h.live, [x], a);
      HoldersOne(x, a);
    }
  }

  /** A block in use holds addresses of the heap that are not free. */
  lemma LiveHeld(h: Heap, k: nat, lo: Word, hi: Word)
    requires Shared(h, lo, hi) && k < |h.live|
    ensures lo <= h.live[k].start <= h.live[k].end <= hi && (forall a :: h.live[k].Contains(a) ==> !Free?(h.lists, a))
    ensures forall a :: Holders(h.live, a) == Holders(h.live[..k] + h.live[k + 1..], a) + if h.live[k].Contains(a) then 1 else 0
  {
    hide Valid, Free?, Gapped, Holders;
    var live := h.live;
    forall a
      ensures Holders(live, a) == Holders(live[..k] + live[k + 1..], a) + if live[k].Contains(a) then 1 else 0
    {
      assert live == live[..k] + ([live[k]] + live[k + 1..]);
      HoldersAppend(live[..k], [live[k]] + live[k + 1..], a);
      HoldersAppend([live[k]], live[k + 1..], a);
      HoldersAppend(live[..k], live[k + 1..], a);
      HoldersOne(live[k], a);
    }
    assert live[k].Contains(live[k].start) && live[k].Contains(live[k].end);
    assert forall a :: live[k].Contains(a) ==> Holders(live, a) >= 1;
    assert Holders(live, live[k].start) >= 1 && Holders(live, live[k].end) >= 1;
  }

  lemma GivenBackShared(h: Heap, lo: Word, hi: Word, alignment: Word, k: nat, size: Word)
    requires Shared(h, lo, hi) && !(lo == 0 && hi == TOP) && alignment > 0 && Legal(h, alignment, GiveBack(k, size))
    ensures var g := Served(h, alignment, GiveBack(k, size));
            Shared(g, lo, hi) && g.live == h.live[..k] + h.live[k + 1..]
  {
    hide Valid, Free?, Free, Gapped, Holders, RoundUp;
    var x := h.live[k];
    LiveHeld(h, k, lo, hi);
    assert x.Size() == x.end - x.start + 1;
    assert forall a :: x.start <= a < x.start + RoundUp(size, alignment) <==> x.Contains(a);
    assert x.start == 0 || Free?(h.lists, 0) ==> lo == 0;
    assert x.end == TOP || Free?(h.lists, TOP) ==> hi == TOP;
    FreeGives(h.lists, alignment, x.start, size);
    assert size > 0 by {
      SizeRounded(size, alignment);
    }
  }

  lemma SizeRounded(size: Word, alignment: Word)
    requires alignment > 0
    ensures size == 0 ==> RoundUp(size, alignment) == 0
    ensures size > 0 && size % alignment == 0 && RoundingFits(size, alignment) ==> RoundUp(size, alignment) == size
  {
    if size == 0 {
      QuotientRemainder(alignment - 1, alignment);
    } else if size % alignment == 0 && RoundingFits(size, alignment) {
      LeastMultiple(size, alignment, size);
    }
  }

  lemma TakeShared(h: Heap, lo: Word, hi: Word, alignment: Word, size: Word)
    requires Shared(h, lo, hi) && alignment > 0 && RoundingFits(size, alignment)
    ensures Shared(Served(h, alignment, Take(size)), lo, hi)
  {
    hide Shared, Free?, Allocate, RoundUp, Gapped, Valid, Wrap;
    if size > 0 {
      ValidHeap(h, lo, hi);
      AllocateTakes(h.lists, alignment, size);
      var (g, r) := Allocate(h.lists, alignment, size);
      if r.Given? {
        WrapsOnce(r.address + RoundUp(size, alignment) - 1);
        TakenShared(h, g, Interval(r.address, r.address + RoundUp(size, alignment) - 1), lo, hi);
      }
    } else {
      NothingAsked(h.lists, alignment, 0);
    }
  }

  lemma TakeAlignedShared(h: Heap, lo: Word, hi: Word, alignment: Word, size: Word, specific: Word)
    requires Shared(h, lo, hi) && EndsKept(h.lists) && alignment > 0 && Legal(h, alignment, TakeAligned(size, specific))
    ensures Shared(Served(h, alignment, TakeAligned(size, specific)), lo, hi)
  {
    hide Shared, Free?, AllocateAligned, RoundUp, Gapped, Valid;
    if size > 0 {
      ValidHeap(h, lo, hi);
      AlignedTakes(h.lists, alignment, size, specific);
      var (g, r) := AllocateAligned(h.lists, alignment, size, specific);
      if r.Given? {
        TakenShared(h, g, Interval(r.address, r.address + size - 1), lo, hi);
      }
    } else {
      NothingAsked(h.lists, alignment, specific);
    }
  }

  lemma ValidHeap(h: Heap, lo: Word, hi: Word)
    requires Shared(h, lo, hi)
    ensures Valid(h.lists) && Gapped(h.lists.byAddress)
  {
  }

  /** Serving a request keeps the addresses shared out. */
  lemma ServedShared(h: Heap, lo: Word, hi: Word, alignment: Word, op: Request)
    requires Shared(h, lo, hi) && !(lo == 0 && hi == TOP) && alignment > 0 && Legal(h, alignment, op)
    ensures Shared(Served(h, alignment, op), lo, hi)
  {
    hide Shared, Served;
    match op
    case Take(size) =>
      TakeShared(h, lo, hi, alignment, size);
    case TakeAligned(size, specific) =>
      EndsOfHeap(h, lo, hi);
      TakeAlignedShared(h, lo, hi, alignment, size, specific);
    case GiveBack(k, size) =>
      GivenBackShared(h, lo, hi, alignment, k, size);
  }

  lemma EndsOfHeap(h: Heap, lo: Word, hi: Word)
    requires Shared(h, lo, hi) && !(lo == 0 && hi == TOP)
    ensures EndsKept(h.lists)
  {
    hide Valid, Free?, Gapped, Holders;
    assert Free?(h.lists, 0) ==> lo == 0;
    assert Free?(h.lists, TOP) ==> hi == TOP;
  }

  lemma NothingAsked(f: FreeLists, alignment: Word, specific: Word)
    requires alignment > 0
    ensures Allocate(f, alignment, 0) == (f, Failed) && AllocateAligned(f, alignment, 0, specific) == (f, Failed)
  {
  }

  function Run(h: Heap, alignment: Word, ops: seq<Request>): Heap
    requires alignment > 0
    decreases |ops|
  {
    if ops == [] || !Legal(h, alignment, ops[0]) then h else Run(Served(h, alignment, ops[0]), alignment, ops[1..])
  }

  /** Over every run of legal requests, each address of the heap is free or in exactly one block in use. */
  lemma {:induction false} RunsShareOut(h: Heap, lo: Word, hi: Word, alignment: Word, ops: seq<Request>)
    requires Shared(h, lo, hi) && !(lo == 0 && hi == TOP) && alignment > 0
    ensures Shared(Run(h, alignment, ops), lo, hi)
    decreases |ops|
  {
    hide Shared, Served, Legal;
    if ops != [] && Legal(h, alignment, ops[0]) {
      ServedShared(h, lo, hi, alignment, ops[0]);
      RunsShareOut(Served(h, alignment, ops[0]), lo, hi, alignment, ops[1..]);
    }
  }

  /** Once nothing is in use, the heap is one free block again. */
  lemma NothingLiveIsOneBlock(h: Heap, lo: Word, hi: Word)
    requires Shared(h, lo, hi) && h.live == [] && lo <= hi
    ensures h.lists.byAddress == [Interval(lo, hi)]
  {
    var s := h.lists.byAddress;
    forall a
      ensures Covers(s, a) <==> lo <= a <= hi
    {
      assert (if Free?(h.lists, a) then 1 else 0) + Holders(h.live, a) == if lo <= a <= hi then 1 else 0;
    }
    assert Covers(s, lo) && !Covers(s, lo - 1) && !Covers(s, hi + 1);
    GappedMeans(s);
    var x := s[0];
    assert x in s && s[0].Contains(x.start) && s[0].Contains(x.end);
    assert Covers(s, x.start) && Covers(s, x.end) && !Covers(s, x.end + 1);
    if |s| > 1 {
      assert s[1].Contains(s[1].start);
      assert Covers(s, s[1].start);
    }
    assert x.start == lo by {
      var i :| 0 <= i < |s| && s[i].Contains(lo);
    }
  }

  /** Whatever is requested, once everything taken has come back the heap is as it started. */
  lemma EverythingComesBack(lo: Word, hi: Word, alignment: Word, ops: seq<Request>)
    requires lo <= hi && !(lo == 0 && hi == TOP) && alignment > 0
    ensures var h := Run(Start(lo, hi), alignment, ops);
            Shared(h, lo, hi) && (h.live == [] ==> h.lists.byAddress == [Interval(lo, hi)])
  {
    StartShared(lo, hi);
    RunsShareOut(Start(lo, hi), lo, hi, alignment, ops);
    if Run(Start(lo, hi), alignment, ops).live == [] {
      NothingLiveIsOneBlock(Run(Start(lo, hi), alignment, ops), lo, hi);
    }
  }

  /** Setting the heap up a second time while it is untouched makes every address free twice. */
  lemma SetTwiceOverlaps(lo: Word, hi: Word)
    requires lo <= hi
    ensures Valid(Start(lo, hi).lists) && !Valid(Added(Start(lo, hi).lists, Interval(lo, hi)))
  {
    hide Indexed, Covers, Apart, Added, Gapped;
    StartShared(lo, hi);
    var f, x := Start(lo, hi).lists, Interval(lo, hi);
    AddIsExact(f, x);
    assert Holders(Start(lo, hi).live, lo) == 0;
    assert x.Contains(lo) && Free?(f, lo);
  }
}
