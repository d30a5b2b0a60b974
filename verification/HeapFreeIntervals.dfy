/** The free blocks of the heap: a linked list ordered by address beside an index by size. */
module HeapFreeIntervals {
  import opened Words
  import opened Intervals
  import opened FreeLists
  import F = FreeLists
  import L = LinkedList

  class HeapFreeIntervals {
    var byAddress: L.LinkedList<Interval>
    var bySize: map<Word, seq<Interval>>
    var minBlockSize: Word
    var maxBlockSize: Word
    var alignment: Word

    ghost predicate Valid()
      reads this, byAddress, byAddress.spine
    {
      byAddress.Valid() && alignment > 0
    }

    ghost function Lists(): FreeLists
      reads this, byAddress, byAddress.spine
    {
      FreeLists(byAddress.Contents(), SizeIndex(bySize, minBlockSize, maxBlockSize))
    }

    constructor (heapStart: Word, heapEnd: Word, alignment: Word)
      requires alignment > 0
      ensures Valid() && fresh(byAddress) && fresh(byAddress.spine) && this.alignment == alignment
      ensures Lists() == Added(FreeLists([], NO_SIZES), Interval(heapStart, heapEnd))
    {
      byAddress := new L.LinkedList();
      bySize, minBlockSize, maxBlockSize := map[], TOP, 0;
      this.alignment := alignment;
      new;
      AddInterval(Interval(heapStart, heapEnd));
    }

    constructor Empty()
      ensures Valid() && fresh(byAddress) && byAddress.spine == [] && alignment == 8
      ensures Lists() == FreeLists([], NO_SIZES)
    {
      byAddress := new L.LinkedList();
      bySize, minBlockSize, maxBlockSize := map[], TOP, 0;
      alignment := 8;
    }

    /** Adds the whole heap as one block; blocks that were there stay. */
    method Set(heapStart: Word, heapEnd: Word, alignment: Word)
      requires Valid() && alignment > 0
      modifies this, byAddress, byAddress.spine
      ensures Valid() && byAddress == old(byAddress) && this.alignment == alignment
      ensures Lists() == Added(old(Lists()), Interval(heapStart, heapEnd))
    {
      this.alignment := alignment;
      AddInterval(Interval(heapStart, heapEnd));
    }

    method AddInterval(x: Interval)
      requires Valid()
      modifies this, byAddress, byAddress.spine
      ensures Valid() && byAddress == old(byAddress) && alignment == old(alignment)
      ensures forall i :: 0 <= i < |byAddress.spine| ==> byAddress.spine[i] in old(byAddress.spine) || fresh(byAddress.spine[i])
      ensures Lists() == Added(old(Lists()), x)
    {
      hide L.Distinct, L.Linked, L.InsertAt, L.SortedPlace;
      var size := x.Size();
      var node := byAddress.InsertSorted(x, Precedes);
      L.Inserted(old(byAddress.spine), L.SortedPlace(old(byAddress.Contents()), x, Precedes), node);
      bySize := bySize[size := (if size in bySize then bySize[size] else []) + [x]];
      if size < minBlockSize { minBlockSize := size; }
      if size > maxBlockSize { maxBlockSize := size; }
    }

    method RemoveInterval(x: Interval)
      requires Valid()
      modifies this, byAddress, byAddress.spine
      ensures Valid() && byAddress == old(byAddress) && alignment == old(alignment)
      ensures forall i :: 0 <= i < |byAddress.spine| ==> byAddress.spine[i] in old(byAddress.spine)
      ensures Lists() == Removed(old(Lists()), x)
    {
      hide L.Distinct, L.Linked, L.InsertAt, L.RemoveAt, FirstWhere;
      RemoveByAddress(x);
      var size := x.Size();
      if size in bySize {
        var list := bySize[size];
        var j := FirstWhere(list, (b: Interval) => b.start == x.start);
        if j < |list| { list := L.RemoveAt(list, j); }
        bySize := if list == [] then bySize - {size} else bySize[size := list];
      }
    }

    method RemoveByAddress(x: Interval)
      requires Valid()
      modifies byAddress, byAddress.spine
      ensures Valid()
      ensures forall i :: 0 <= i < |byAddress.spine| ==> byAddress.spine[i] in old(byAddress.spine)
      ensures byAddress.Contents() == Removed(old(Lists()), x).byAddress
    {
      hide L.Distinct, L.Linked, L.InsertAt, L.RemoveAt, FirstWhere, Forgotten;
      ghost var s := byAddress.Contents();
      var node, k := byAddress.FindIf((b: Interval) => b.start == x.start && b.end == x.end);
      FirstWhereIs(s, (b: Interval) => b == x, k);
      if node != null {
        ghost var nodes := byAddress.spine;
        ghost var p := byAddress.Remove(node);
        L.DistinctAt(nodes, p, k);
        L.Removed(nodes, k);
        byAddress.ContentsRemoved(s, k);
      }
    }

    /** Looks for the nearest size that is large enough. */
    method FindFitBlock(required: Word) returns (fit: Fit)
      requires Valid() && (maxBlockSize < TOP || FitFrom(Lists().bySize, required).Block?)
      ensures fit == FitFrom(Lists().bySize, required)
    {
      var size := required;
      while size <= maxBlockSize
        invariant FitFrom(Lists().bySize, required) == FitFrom(Lists().bySize, size)
        decreases maxBlockSize + 1 - size
      {
        if size in bySize && bySize[size] != [] {
          return Block(bySize[size][0]);
        }
        size := size + 1;
      }
      fit := NoBlock;
    }

    method Allocate(size: Word) returns (r: Outcome)
      requires Valid() && (maxBlockSize < TOP || size == 0 || FitFrom(Lists().bySize, RoundUp(size, alignment)).Block?)
      modifies this, byAddress, byAddress.spine
      ensures Valid() && byAddress == old(byAddress) && alignment == old(alignment)
      ensures (Lists(), r) == F.Allocate(old(Lists()), old(alignment), size)
    {
      hide L.Distinct, L.Linked, Added, Removed, RoundUp, FitFrom;
      if size == 0 { return Failed; }
      var alignedSize := RoundUp(size, alignment);
      var fit := FindFitBlock(alignedSize);
      if fit.NoBlock? { return Failed; }
      var (_, remains, rest) := fit.block.Split(alignedSize);
      RemoveInterval(fit.block);
      if remains { AddInterval(rest); }
      r := Given(fit.block.start);
    }

    method AllocateAligned(size: Word, specific: Word) returns (r: Outcome)
      requires Valid()
      modifies this, byAddress, byAddress.spine
      ensures Valid() && byAddress == old(byAddress) && alignment == old(alignment)
      ensures (Lists(), r) == F.AllocateAligned(old(Lists()), old(alignment), size, specific)
    {
      hide L.Distinct, L.Linked, Carved, FirstWhere, Coalesced, RoundUp, Wrap;
      if size == 0 { return Failed; }
      var actual := if alignment > specific then alignment else specific;
      ghost var s := byAddress.Contents();
      var node := byAddress.front;
      ghost var k := 0;
      while node != null
        invariant k <= |byAddress.spine| && node == L.NodeAt(byAddress.spine, k)
        invariant forall i :: 0 <= i < k ==> !FitsAligned(s[i], size, actual)
        decreases |s| - k
        modifies {}
      {
        var block := node.data;
        var start := RoundUp(block.start, actual);
        if Wrap(start + size - 1) <= block.end && block.Size() >= Wrap(start - block.start + size) {
          break;
        }
        L.LinksOf(byAddress.spine, k);
        node := node.next;
        k := k + 1;
      }
      FirstWhereIs(s, (b: Interval) => FitsAligned(b, size, actual), k);
      if node == null { return Failed; }
      var block := node.data;
      var start := RoundUp(block.start, actual);
      Carve(block, start, size);
      Coalesce();
      r := Given(start);
    }

    method Carve(block: Interval, start: Word, size: Word)
      requires Valid()
      modifies this, byAddress, byAddress.spine
      ensures Valid() && byAddress == old(byAddress) && alignment == old(alignment)
      ensures forall i :: 0 <= i < |byAddress.spine| ==> byAddress.spine[i] in old(byAddress.spine) || fresh(byAddress.spine[i])
      ensures Lists() == Carved(old(Lists()), block, start, size)
    {
      hide L.Distinct, L.Linked, Added, Removed;
      RemoveInterval(block);
      if start > block.start {
        AddInterval(Interval(block.start, start - 1));
      }
      if Wrap(start + size - 1) < block.end {
        AddInterval(Interval(Wrap(start + size), block.end));
      }
    }

    method Free(address: Word, size: Word) returns (ok: bool)
      requires Valid()
      modifies this, byAddress, byAddress.spine
      ensures Valid() && byAddress == old(byAddress) && alignment == old(alignment)
      ensures (Lists(), ok) == F.Free(old(Lists()), old(alignment), address, size)
    {
      hide L.Distinct, L.Linked, Added, Coalesced, RoundUp;
      if size == 0 { return false; }
      var alignedSize := RoundUp(size, alignment);
      var end := Wrap(address + alignedSize - 1);
      if end < address { return false; }
      AddInterval(Interval(address, end));
      Coalesce();
      ok := true;
    }

    method Coalesce()
      requires Valid()
      modifies this, byAddress, byAddress.spine
      ensures Valid() && byAddress == old(byAddress) && alignment == old(alignment)
      ensures Lists() == Coalesced(old(Lists()))
    {
      hide L.Distinct, L.Linked, L.Coalesced, Index;
      byAddress.Coalesce(Touch, Joined);
      RebuildSizeIndex();
    }

    method RebuildSizeIndex()
      requires Valid()
      modifies this
      ensures Valid() && byAddress == old(byAddress) && alignment == old(alignment)
      ensures Lists() == FreeLists(old(byAddress.Contents()), Index(old(byAddress.Contents())))
    {
      hide L.Distinct, L.Linked, Index, Wrap;
      bySize, minBlockSize, maxBlockSize := map[], TOP, 0;
      ghost var s := byAddress.Contents();
      IndexFrom(s, 0);
      var node := byAddress.front;
      ghost var k := 0;
      while node != null
        invariant byAddress.Valid() && byAddress.Contents() == s
        invariant k <= |byAddress.spine| && node == L.NodeAt(byAddress.spine, k)
        invariant SizeIndex(bySize, minBlockSize, maxBlockSize) == Index(s[..k])
        decreases |s| - k
        modifies `bySize, `minBlockSize, `maxBlockSize
      {
        L.LinksOf(byAddress.spine, k);
        var x := node.data;
        var size := x.Size();
        IndexFrom(s, k);
        bySize := bySize[size := (if size in bySize then bySize[size] else []) + [x]];
        if size < minBlockSize { minBlockSize := size; }
        if size > maxBlockSize { maxBlockSize := size; }
        node := node.next;
        k := k + 1;
      }
      assert s[..k] == s;
    }
  }

  lemma IndexFrom(s: seq<Interval>, k: nat)
    requires k <= |s|
    ensures Index(s[..0]) == NO_SIZES
    ensures k < |s| ==> Index(s[..k + 1]) == Recorded(Index(s[..k]), s[k])
  {
    assert k < |s| ==> s[..k + 1][..k] == s[..k];
  }

  lemma FirstWhereIs<T>(s: seq<T>, p: T -> bool, k: nat)
    requires k <= |s| && (k < |s| ==> p(s[k])) && (forall i :: 0 <= i < k ==> !p(s[i]))
    ensures FirstWhere(s, p) == k
  {
  }
}
