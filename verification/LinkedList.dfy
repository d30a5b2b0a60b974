/** The doubly linked list of the virtual machine's free list. */
module LinkedList {

  // ----- what the operations do to the contents -----

  function InsertAt<T>(s: seq<T>, k: nat, x: T): seq<T>
    requires k <= |s|
  {
    s[..k] + [x] + s[k..]
  }

  function RemoveAt<T>(s: seq<T>, k: nat): seq<T>
    requires k < |s|
  {
    s[..k] + s[k + 1..]
  }

  /** Where a sorted insertion puts an element: in front, or after the first and all that follow it and precede the element. */
  function SortedPlace<T>(s: seq<T>, x: T, less: (T, T) -> bool): (k: nat)
    ensures k <= |s|
  {
    if s == [] || less(x, s[0]) then 0 else 1 + RunBefore(s[1..], x, less)
  }

  function RunBefore<T>(s: seq<T>, x: T, less: (T, T) -> bool): (k: nat)
    ensures k <= |s|
    ensures forall i :: 0 <= i < k ==> less(s[i], x)
    ensures k < |s| ==> !less(s[k], x)
  {
    if s == [] || !less(s[0], x) then 0 else 1 + RunBefore(s[1..], x, less)
  }

  lemma PlaceFrom<T>(s: seq<T>, x: T, less: (T, T) -> bool)
    ensures SortedPlace(s, x, less) == if s == [] || less(x, s[0]) then 0 else 1 + RunBefore(s[1..], x, less)
  {
  }

  lemma RunFrom<T>(s: seq<T>, k: nat, x: T, less: (T, T) -> bool)
    requires k <= |s|
    ensures RunBefore(s[k..], x, less) == if k < |s| && less(s[k], x) then 1 + RunBefore(s[k + 1..], x, less) else 0
  {
    assert k < |s| ==> s[k..][0] == s[k] && s[k..][1..] == s[k + 1..];
  }

  /** Neighbours are merged from the front; a merged element is compared again. */
  function Coalesced<T>(s: seq<T>, canMerge: (T, T) -> bool, merge: (T, T) -> T): seq<T>
    decreases |s|
  {
    if |s| < 2 then s
    else if canMerge(s[0], s[1]) then Coalesced([merge(s[0], s[1])] + s[2..], canMerge, merge)
    else [s[0]] + Coalesced(s[1..], canMerge, merge)
  }

  ghost predicate Sorted<T(!new)>(s: seq<T>, less: (T, T) -> bool) {
    forall i, j :: 0 <= i < j < |s| ==> !less(s[j], s[i])
  }

  /** The comparator is a strict weak order. */
  ghost predicate Orders<T(!new)>(less: (T, T) -> bool) {
    && (forall a, b :: less(a, b) ==> !less(b, a))
    && (forall a, b, c :: !less(a, b) && !less(b, c) ==> !less(a, c))
  }

  /** A sorted insertion keeps a sorted list sorted, and adds exactly the element. */
  lemma InsertKeepsSorted<T(!new)>(s: seq<T>, x: T, less: (T, T) -> bool)
    requires Sorted(s, less) && Orders(less)
    ensures Sorted(InsertAt(s, SortedPlace(s, x, less), x), less)
    ensures multiset(InsertAt(s, SortedPlace(s, x, less), x)) == multiset(s) + multiset{x}
  {
    hide Sorted, SortedPlace;
    var k := SortedPlace(s, x, less);
    assert s == s[..k] + s[k..];
    PlaceSplits(s, x, less);
    SortedAround(s, k, x, less);
  }

  lemma SortedAround<T(!new)>(s: seq<T>, k: nat, x: T, less: (T, T) -> bool)
    requires Sorted(s, less) && Orders(less) && k <= |s|
    requires (forall i :: 0 <= i < k ==> !less(x, s[i])) && (k < |s| ==> !less(s[k], x))
    ensures Sorted(InsertAt(s, k, x), less)
  {
    hide InsertAt;
    Inserted(s, k, x);
    var r := InsertAt(s, k, x);
    forall i, j | 0 <= i < j < |r|
      ensures !less(r[j], r[i])
    {
      if i == k && j - 1 != k {
        assert !less(s[j - 1], s[k]);
      }
    }
  }

  /** The place splits the list: nothing before it follows the element, and what stands there does not precede it. */
  lemma PlaceSplits<T(!new)>(s: seq<T>, x: T, less: (T, T) -> bool)
    requires Orders(less)
    ensures var k := SortedPlace(s, x, less);
            (forall i :: 0 <= i < k ==> !less(x, s[i])) && (k < |s| ==> !less(s[k], x))
  {
    var k := SortedPlace(s, x, less);
    if s != [] && !less(x, s[0]) {
      var rest := s[1..];
      assert forall i :: 0 <= i < |rest| ==> rest[i] == s[i + 1];
      assert forall i :: 0 < i < k ==> s[i] == rest[i - 1];
    }
  }

  // ----- the list -----

  class LinkedNode<T> {
    var data: T
    var next: LinkedNode?<T>
    var prev: LinkedNode?<T>

    constructor (data: T)
      ensures this.data == data && next == null && prev == null
    {
      this.data := data;
      next, prev := null, null;
    }
  }

  class LinkedList<T> {
    var front: LinkedNode?<T>
    var back: LinkedNode?<T>
    var nodePointer: LinkedNode?<T>
    var size: nat
    ghost var spine: seq<LinkedNode<T>>

    /** The spine is linked both ways, the ends are front and back, the cursor is on the list. */
    ghost predicate Valid()
      reads this, spine
    {
      && size == |spine|
      && Distinct(spine)
      && front == NodeAt(spine, 0) && back == NodeAt(spine, |spine| - 1)
      && Linked(spine)
      && (if spine == [] then nodePointer == null else nodePointer in spine)
    }

    ghost function Contents(): (s: seq<T>)
      reads this, spine
      ensures |s| == |spine|
    {
      seq(|spine|, i requires 0 <= i < |spine| reads this, spine => spine[i].data)
    }

    constructor ()
      ensures Valid() && Contents() == [] && spine == []
    {
      front, back, nodePointer, size, spine := null, null, null, 0, [];
    }

    /** Inserts before a node of the list; without a node, at the end. */
    method InsertBefore(node: LinkedNode?<T>, data: T) returns (added: LinkedNode<T>, ghost k: nat)
      requires Valid() && (node != null ==> node in spine)
      modifies this, spine
      ensures Valid() && fresh(added) && added.data == data
      ensures k <= |old(spine)| && spine == InsertAt(old(spine), k, added)
      ensures if node == null then k == |old(spine)| else k < |old(spine)| && old(spine)[k] == node
      ensures forall x :: x in old(spine) ==> x.data == old(x.data)
    {
      hide Distinct, Linked, InsertAt, RemoveAt, IndexOf;
      AllLinks(spine);
      if node == null {
        k := |spine|;
        added := PushBack(data);
        return;
      }
      k := IndexOf(spine, node);
      added := new LinkedNode(data);
      added.next := node;
      added.prev := node.prev;
      LinksOf(spine, k);
      AloneAround(spine, k);
      if node.prev != null {
        node.prev.next := added;
      } else {
        front := added;
      }
      node.prev := added;
      size := size + 1;
      LinkInserted(spine, k, added);
      spine := InsertAt(spine, k, added);
    }

    /** Inserts after a node of the list; without a node, at the start. */
    method InsertAfter(node: LinkedNode?<T>, data: T) returns (added: LinkedNode<T>, ghost k: nat)
      requires Valid() && (node != null ==> node in spine)
      modifies this, spine
      ensures Valid() && fresh(added) && added.data == data
      ensures k <= |old(spine)| && spine == InsertAt(old(spine), k, added)
      ensures if node == null then k == 0 else k > 0 && old(spine)[k - 1] == node
      ensures forall x :: x in old(spine) ==> x.data == old(x.data)
    {
      hide Distinct, Linked, InsertAt, RemoveAt, IndexOf;
      AllLinks(spine);
      if node == null {
        k := 0;
        added := PushFront(data);
        return;
      }
      ghost var i := IndexOf(spine, node);
      k := i + 1;
      added := new LinkedNode(data);
      added.prev := node;
      added.next := node.next;
      LinksOf(spine, i);
      AloneAround(spine, k);
      if node.next != null {
        node.next.prev := added;
      } else {
        back := added;
      }
      node.next := added;
      size := size + 1;
      LinkInserted(spine, k, added);
      spine := InsertAt(spine, k, added);
    }

    method PushFront(data: T) returns (added: LinkedNode<T>)
      requires Valid()
      modifies this, spine
      ensures Valid() && fresh(added) && added.data == data && spine == InsertAt(old(spine), 0, added)
      ensures forall x :: x in old(spine) ==> x.data == old(x.data)
    {
      hide Distinct, Linked, InsertAt, RemoveAt;
      AllLinks(spine);
      added := new LinkedNode(data);
      if front != null {
        LinksOf(spine, 0);
        added.next := front;
        front.prev := added;
        front := added;
      } else {
        front := added;
        back := front;
        nodePointer := front;
      }
      size := size + 1;
      LinkInserted(spine, 0, added);
      spine := InsertAt(spine, 0, added);
    }

    method PushBack(data: T) returns (added: LinkedNode<T>)
      requires Valid()
      modifies this, spine
      ensures Valid() && fresh(added) && added.data == data && spine == InsertAt(old(spine), |old(spine)|, added)
      ensures forall x :: x in old(spine) ==> x.data == old(x.data)
    {
      hide Distinct, Linked, InsertAt, RemoveAt;
      AllLinks(spine);
      added := new LinkedNode(data);
      if back != null {
        LinksOf(spine, |spine| - 1);
        added.prev := back;
        back.next := added;
        back := added;
      } else {
        front := added;
        back := front;
        nodePointer := front;
      }
      size := size + 1;
      LinkInserted(spine, |spine|, added);
      spine := InsertAt(spine, |spine|, added);
    }

    /** Takes a node off the list; the cursor moves to its next, or else previous, neighbour. */
    method Remove(node: LinkedNode?<T>) returns (ghost k: nat)
      requires Valid() && (node != null ==> node in spine)
      modifies this, spine
      ensures Valid()
      ensures if node == null then spine == old(spine)
              else k < |old(spine)| && old(spine)[k] == node && spine == RemoveAt(old(spine), k)
      ensures forall x :: x in old(spine) ==> x.data == old(x.data)
    {
      hide Distinct, Linked, InsertAt, RemoveAt, IndexOf;
      if node == null { k := 0; return; }
      ghost var s := spine;
      AllLinks(s);
      k := IndexOf(s, node);
      LinksOf(s, k);
      AloneAround(s, k);
      if node.prev != null {
        node.prev.next := node.next;
      } else {
        front := node.next;
      }
      if node.next != null {
        node.next.prev := node.prev;
      } else {
        back := node.prev;
      }
      if nodePointer == node {
        nodePointer := if node.next != null then node.next else node.prev;
      }
      size := size - 1;
      LinkRemoved(s, k);
      spine := RemoveAt(s, k);
    }

    /** The first node whose data satisfies the predicate. */
    method FindIf(pred: T -> bool) returns (node: LinkedNode?<T>, ghost k: nat)
      requires Valid()
      ensures node == null <==> forall i :: 0 <= i < |spine| ==> !pred(spine[i].data)
      ensures node != null ==> node in spine && pred(node.data)
      ensures k <= |spine| && (forall i :: 0 <= i < k ==> !pred(spine[i].data))
      ensures if node == null then k == |spine| else k < |spine| && node == spine[k] && pred(node.data)
    {
      var current := front;
      k := 0;
      while current != null
        invariant k <= |spine| && current == (if k < |spine| then spine[k] else null)
        invariant forall i :: 0 <= i < k ==> !pred(spine[i].data)
        decreases |spine| - k
      {
        if pred(current.data) { return current, k; }
        current := current.next;
        k := k + 1;
      }
      node := null;
    }

    method InsertSorted(data: T, less: (T, T) -> bool) returns (added: LinkedNode<T>)
      requires Valid()
      modifies this, spine
      ensures Valid() && fresh(added)
      ensures spine == InsertAt(old(spine), SortedPlace(old(Contents()), data, less), added)
      ensures Contents() == InsertAt(old(Contents()), SortedPlace(old(Contents()), data, less), data)
    {
      hide Distinct, Linked, InsertAt, RemoveAt, SortedPlace, RunBefore;
      ghost var s0, s := spine, Contents();
      PlaceFrom(s, data, less);
      if front == null || less(data, front.data) {
        added := PushFront(data);
        assert forall i :: 0 <= i < |s0| ==> s0[i].data == s[i];
        ContentsInserted(s0, s, 0, added);
        return;
      }
      var current := front;
      ghost var k := 0;
      LinksOf(spine, 0);
      assert |s| == |spine|;
      while current.next != null && less(current.next.data, data)
        invariant Valid() && k < |spine| && current == spine[k] && current.next == NodeAt(spine, k + 1)
        invariant k < |s| == |spine| && SortedPlace(s, data, less) == k + 1 + RunBefore(s[k + 1..], data, less)
        decreases |spine| - k
        modifies {}
      {
        RunFrom(s, k + 1, data, less);
        current := current.next;
        k := k + 1;
        LinksOf(spine, k);
      }
      RunFrom(s, k + 1, data, less);
      ghost var p;
      added, p := InsertAfter(current, data);
      DistinctAt(s0, p - 1, k);
      assert forall i :: 0 <= i < |s0| ==> s0[i].data == s[i];
      ContentsInserted(s0, s, p, added);
    }

    lemma ContentsInserted(s0: seq<LinkedNode<T>>, s: seq<T>, k: nat, added: LinkedNode<T>)
      requires k <= |s| == |s0| && spine == InsertAt(s0, k, added)
      requires forall i :: 0 <= i < |s0| ==> s0[i].data == s[i]
      ensures Contents() == InsertAt(s, k, added.data)
    {
      Inserted(s0, k, added);
    }

    lemma ContentsRemoved(s: seq<T>, k: nat)
      requires k < |s| && |spine| == |s| - 1
      requires forall i :: 0 <= i < k ==> spine[i].data == s[i]
      requires forall i :: k <= i < |spine| ==> spine[i].data == s[i + 1]
      ensures Contents() == RemoveAt(s, k)
    {
    }

    /** Merges neighbours in place. Every round removes a node or moves on. */
    method Coalesce(canMerge: (T, T) -> bool, merge: (T, T) -> T)
      requires Valid()
      modifies this, spine
      ensures Valid() && Contents() == Coalesced(old(Contents()), canMerge, merge)
      ensures forall i :: 0 <= i < |spine| ==> spine[i] in old(spine)
    {
      hide Distinct, Linked, InsertAt, RemoveAt, Coalesced, Contents;
      ghost var s := Contents();
      var current := front;
      ghost var k := 0;
      while current != null && current.next != null
        invariant Valid() && (forall i :: 0 <= i < |spine| ==> spine[i] in old(spine))
        invariant k <= |spine| && current == NodeAt(spine, k) && (current == null ==> spine == [])
        invariant Contents()[..k] + Coalesced(Contents()[k..], canMerge, merge) == Coalesced(s, canMerge, merge)
        decreases |spine| - k
      {
        ghost var c := Contents();
        LinksOf(spine, k);
        assert current in spine && current.next == spine[k + 1];
        DataAt();
        if canMerge(current.data, current.next.data) {
          var merged := merge(current.data, current.next.data);
          ghost var s0 := spine;
          OnlyAt(s0, k);
          current.data := merged;
          assert forall i :: 0 <= i < |s0| ==> s0[i].data == if i == k then merged else c[i];
          ghost var p := Remove(current.next);
          DistinctAt(s0, k + 1, p);
          Removed(s0, k + 1);
          MergedContents(s0, c, k, canMerge, merge);
        } else {
          CoalescedAt(c, k, canMerge, merge);
          current := current.next;
          k := k + 1;
        }
      }
      if current != null { LinksOf(spine, k); }
      CoalescedShort(Contents(), k, canMerge, merge);
    }

    lemma DataAt()
      ensures forall i :: 0 <= i < |spine| ==> Contents()[i] == spine[i].data
    {
    }

    lemma MergedContents(s0: seq<LinkedNode<T>>, c: seq<T>, k: nat, canMerge: (T, T) -> bool, merge: (T, T) -> T)
      requires k + 1 < |c| == |s0| && spine == RemoveAt(s0, k + 1) && canMerge(c[k], c[k + 1])
      requires forall i :: 0 <= i < |s0| ==> s0[i].data == if i == k then merge(c[k], c[k + 1]) else c[i]
      ensures k < |Contents()|
      ensures Contents()[..k] + Coalesced(Contents()[k..], canMerge, merge) == c[..k] + Coalesced(c[k..], canMerge, merge)
    {
      hide Coalesced;
      Removed(s0, k + 1);
      CoalescedAt(c, k, canMerge, merge);
      assert Contents()[..k] == c[..k] && Contents()[k..] == [merge(c[k], c[k + 1])] + c[k..][2..];
    }
  }

  /** The node at an index, null off the ends. */
  ghost function NodeAt<T>(s: seq<LinkedNode<T>>, i: int): LinkedNode?<T> {
    if 0 <= i < |s| then s[i] else null
  }

  /** Forward and backward links are mutually inverse along the nodes. */
  ghost predicate Linked<T>(s: seq<LinkedNode<T>>)
    reads s`next, s`prev
  {
    && (forall i {:trigger s[i].next} :: 0 <= i < |s| ==> s[i].next == NodeAt(s, i + 1))
    && (forall i {:trigger s[i].prev} :: 0 <= i < |s| ==> s[i].prev == NodeAt(s, i - 1))
  }

  lemma LinksOf<T>(s: seq<LinkedNode<T>>, k: nat)
    requires Linked(s) && Distinct(s) && k < |s|
    ensures s[k].next == NodeAt(s, k + 1) && s[k].prev == NodeAt(s, k - 1)
    ensures s[k] != NodeAt(s, k + 1) && s[k] != NodeAt(s, k - 1)
    ensures NodeAt(s, k + 1) == NodeAt(s, k - 1) ==> NodeAt(s, k + 1) == null
  {
  }

  /** The links, in the present heap only. */
  lemma AllLinks<T>(s: seq<LinkedNode<T>>)
    requires Linked(s)
    ensures forall i {:trigger s[i].next} :: 0 <= i < |s| ==> s[i].next == NodeAt(s, i + 1)
    ensures forall i {:trigger s[i].prev} :: 0 <= i < |s| ==> s[i].prev == NodeAt(s, i - 1)
  {
  }

  /** Relinking the two neighbours of a gap around a new node links the longer list. */
  lemma LinkInserted<T>(s: seq<LinkedNode<T>>, k: nat, added: LinkedNode<T>)
    requires k <= |s| && Distinct(s) && added !in s
    requires added.next == NodeAt(s, k) && added.prev == NodeAt(s, k - 1)
    requires forall i {:trigger s[i].next} :: 0 <= i < |s| ==> s[i].next == if i == k - 1 then added else NodeAt(s, i + 1)
    requires forall i {:trigger s[i].prev} :: 0 <= i < |s| ==> s[i].prev == if i == k then added else NodeAt(s, i - 1)
    ensures var r := InsertAt(s, k, added);
            && |r| == |s| + 1 && Linked(r) && Distinct(r) && (forall y :: y in r <==> y in s || y == added)
            && NodeAt(r, 0) == (if k == 0 then added else NodeAt(s, 0))
            && NodeAt(r, |s|) == (if k == |s| then added else NodeAt(s, |s| - 1))
  {
    var r := InsertAt(s, k, added);
    Inserted(s, k, added);
    InsertDistinct(s, k, added);
    forall i | 0 <= i < |r|
      ensures r[i].next == NodeAt(r, i + 1) && r[i].prev == NodeAt(r, i - 1)
    {
      if i < k {
        assert r[i] == s[i];
      } else if i > k {
        assert r[i] == s[i - 1];
      }
    }
  }

  /** Linking the two neighbours of a node to one another links the list without it. */
  lemma LinkRemoved<T>(s: seq<LinkedNode<T>>, k: nat)
    requires k < |s| && Distinct(s)
    requires forall i {:trigger s[i].next} :: 0 <= i < |s| ==> s[i].next == if i == k - 1 then NodeAt(s, k + 1) else NodeAt(s, i + 1)
    requires forall i {:trigger s[i].prev} :: 0 <= i < |s| ==> s[i].prev == if i == k + 1 then NodeAt(s, k - 1) else NodeAt(s, i - 1)
    ensures var r := RemoveAt(s, k);
            && |r| == |s| - 1 && Linked(r) && Distinct(r) && (forall y :: y in s <==> y in r || y == s[k])
            && NodeAt(r, 0) == (if k == 0 then NodeAt(s, 1) else NodeAt(s, 0))
            && NodeAt(r, |s| - 2) == (if k == |s| - 1 then NodeAt(s, k - 1) else NodeAt(s, |s| - 1))
  {
    var r := RemoveAt(s, k);
    Removed(s, k);
    RemoveDistinct(s, k);
    forall i | 0 <= i < |r|
      ensures r[i].next == NodeAt(r, i + 1) && r[i].prev == NodeAt(r, i - 1)
    {
      if i < k {
        assert r[i] == s[i];
      } else {
        assert r[i] == s[i + 1];
      }
    }
  }

  ghost function IndexOf<N>(s: seq<N>, x: N): (k: nat)
    requires x in s
    ensures k < |s| && s[k] == x
  {
    if s[0] == x then 0 else 1 + IndexOf(s[1..], x)
  }

  ghost predicate Distinct<N>(s: seq<N>) {
    forall i, j :: 0 <= i < j < |s| ==> s[i] != s[j]
  }

  lemma OnlyAt<N>(s: seq<N>, k: nat)
    requires Distinct(s) && k < |s|
    ensures forall i :: 0 <= i < |s| && i != k ==> s[i] != s[k]
  {
  }

  /** The nodes at and next to an index stand nowhere else. */
  lemma AloneAround<N>(s: seq<N>, k: nat)
    requires Distinct(s) && k <= |s|
    ensures k > 0 ==> forall i :: 0 <= i < |s| && i != k - 1 ==> s[i] != s[k - 1]
    ensures k < |s| ==> forall i :: 0 <= i < |s| && i != k ==> s[i] != s[k]
    ensures k + 1 < |s| ==> forall i :: 0 <= i < |s| && i != k + 1 ==> s[i] != s[k + 1]
  {
  }

  lemma DistinctAt<N>(s: seq<N>, i: nat, j: nat)
    requires Distinct(s) && i < |s| && j < |s| && s[i] == s[j]
    ensures i == j
  {
  }

  lemma CoalescedShort<T>(c: seq<T>, k: nat, canMerge: (T, T) -> bool, merge: (T, T) -> T)
    requires k <= |c| < k + 2
    ensures c[..k] + Coalesced(c[k..], canMerge, merge) == c
  {
  }

  /** One round of merging, at the cursor's index. */
  lemma CoalescedAt<T>(c: seq<T>, k: nat, canMerge: (T, T) -> bool, merge: (T, T) -> T)
    requires k + 1 < |c|
    ensures c[..k] + Coalesced(c[k..], canMerge, merge)
         == if canMerge(c[k], c[k + 1]) then c[..k] + Coalesced([merge(c[k], c[k + 1])] + c[k..][2..], canMerge, merge)
            else c[..k + 1] + Coalesced(c[k + 1..], canMerge, merge)
  {
    var tail := c[k..];
    assert tail[0] == c[k] && tail[1] == c[k + 1];
    assert c[k + 1..] == tail[1..] && c[..k + 1] == c[..k] + [c[k]];
    assert c[..k] + ([c[k]] + Coalesced(c[k + 1..], canMerge, merge)) == c[..k + 1] + Coalesced(c[k + 1..], canMerge, merge);
  }

  lemma InsertDistinct<N>(s: seq<N>, k: nat, x: N)
    requires Distinct(s) && k <= |s| && x !in s
    ensures Distinct(InsertAt(s, k, x))
  {
    Inserted(s, k, x);
  }

  lemma RemoveDistinct<N>(s: seq<N>, k: nat)
    requires Distinct(s) && k < |s|
    ensures Distinct(RemoveAt(s, k))
  {
    Removed(s, k);
  }

  lemma Inserted<N>(s: seq<N>, k: nat, x: N)
    requires k <= |s|
    ensures var r := InsertAt(s, k, x);
            && |r| == |s| + 1 && r[k] == x
            && (forall i :: 0 <= i < k ==> r[i] == s[i]) && (forall i :: k < i < |r| ==> r[i] == s[i - 1])
            && (forall y :: y in r <==> y in s || y == x)
  {
    var r := InsertAt(s, k, x);
    assert s == s[..k] + s[k..];
  }

  lemma Removed<N>(s: seq<N>, k: nat)
    requires k < |s|
    ensures var r := RemoveAt(s, k);
            && |r| == |s| - 1
            && (forall i :: 0 <= i < k ==> r[i] == s[i]) && (forall i :: k <= i < |r| ==> r[i] == s[i + 1])
            && (forall y :: y in s <==> y in r || y == s[k])
  {
    var r := RemoveAt(s, k);
    assert s == s[..k] + [s[k]] + s[k + 1..];
  }
}
