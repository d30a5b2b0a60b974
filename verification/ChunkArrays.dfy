/** An array in chunks of 256 elements, standing for a sequence. */
module ChunkArrays {

  const CHUNK_SIZE := 256

  datatype Reading<+T> = OutOfRange | Element(value: T)

  /** A sequence with a part replaced, from an index on; it grows at the end when the part reaches past it. */
  function Overwritten<T>(s: seq<T>, part: seq<T>, where: nat): seq<T>
    requires where <= |s|
  {
    s[..where] + part + if where + |part| < |s| then s[where + |part|..] else []
  }

  /** What stands where after a part is written: the part in its place, all else as before. */
  lemma OverwrittenAt<T>(s: seq<T>, part: seq<T>, where: nat)
    requires where <= |s|
    ensures var r := Overwritten(s, part, where);
            && |r| == (if where + |part| < |s| then |s| else where + |part|)
            && (forall j :: 0 <= j < |r| ==> r[j] == if where <= j < where + |part| then part[j - where] else s[j])
  {
  }

  lemma AppendedPart<T>(s: seq<T>, part: seq<T>)
    ensures Overwritten(s, part, |s|) == s + part
  {
    assert s[..|s|] == s;
  }

  class ChunkArray<T(0)> {
    var chunks: seq<array<T>>
    var size: nat

    /** Every chunk has its full length, and no chunk is used twice. */
    ghost predicate Chunked()
      reads `chunks, chunks
    {
      && (forall i :: 0 <= i < |chunks| ==> chunks[i].Length == CHUNK_SIZE)
      && (forall i, j :: 0 <= i < j < |chunks| ==> chunks[i] != chunks[j])
    }

    /** The capacity covers the size. */
    ghost predicate Valid()
      reads this, chunks
    {
      Chunked() && size <= Capacity()
    }

    function Capacity(): nat
      reads `chunks
    {
      |chunks| * CHUNK_SIZE
    }

    /** The chunk and the place in it that an index stands for. */
    ghost function Cell(i: nat): T
      reads `chunks, chunks
      requires Chunked() && i < Capacity()
    {
      chunks[i / CHUNK_SIZE][i % CHUNK_SIZE]
    }

    ghost function Contents(): (s: seq<T>)
      reads this, chunks
      requires Valid()
      ensures |s| == size
    {
      seq(size, i requires 0 <= i < size && Valid() reads this, chunks => Cell(i))
    }

    /** The other array has chunks of its own. */
    ghost predicate Separate(other: ChunkArray<T>)
      reads this, other
    {
      other != this && forall i, j :: 0 <= i < |chunks| && 0 <= j < |other.chunks| ==> chunks[i] != other.chunks[j]
    }

    constructor ()
      ensures Valid() && Contents() == [] && chunks == []
    {
      chunks, size := [], 0;
    }

    /** A copy has the elements of the other array, in chunks of its own. */
    constructor Copy(other: ChunkArray<T>)
      requires other.Valid()
      ensures Valid() && (forall i :: 0 <= i < |chunks| ==> fresh(chunks[i])) && Contents() == other.Contents()
    {
      chunks, size := [], 0;
      new;
      Reserve(other.size);
      Refill(other);
    }

    /** Assignment leaves the other array alone; assigning an array to itself does nothing. */
    method Assign(other: ChunkArray<T>)
      requires Valid() && other.Valid() && (other != this ==> Separate(other))
      modifies this, chunks
      ensures Valid() && Contents() == old(other.Contents()) && other.Valid() && other.Contents() == old(other.Contents())
      ensures forall i :: 0 <= i < |chunks| ==> chunks[i] in old(chunks) || fresh(chunks[i])
    {
      if other == this { return; }
      if size != 0 { Clear(); }
      Reserve(other.size);
      Refill(other);
    }

    /** Appends the elements of the other array to an empty one. */
    method Refill(other: ChunkArray<T>)
      requires Valid() && size == 0 && other.Valid() && Separate(other)
      modifies this, chunks
      ensures Valid() && Contents() == other.Contents()
      ensures forall i :: 0 <= i < |chunks| ==> chunks[i] in old(chunks) || fresh(chunks[i])
    {
      ghost var o := other.Contents();
      var i := 0;
      while i < other.size
        invariant Valid() && i <= other.size && Contents() == o[..i]
        invariant forall i :: 0 <= i < |chunks| ==> chunks[i] in old(chunks) || fresh(chunks[i])
        invariant other.Valid() && other.size == |o| && other.Contents() == o && Separate(other)
      {
        assert o[..i + 1] == o[..i] + [o[i]];
        Pushback(other.chunks[i / CHUNK_SIZE][i % CHUNK_SIZE]);
        i := i + 1;
      }
    }

    method Get(index: nat) returns (r: Reading<T>)
      requires Valid()
      ensures r == if index < size then Element(Contents()[index]) else OutOfRange
    {
      if index >= size { return OutOfRange; }
      r := Element(chunks[index / CHUNK_SIZE][index % CHUNK_SIZE]);
    }

    method Front() returns (r: Reading<T>)
      requires Valid()
      ensures r == if Contents() == [] then OutOfRange else Element(Contents()[0])
    {
      if size == 0 { return OutOfRange; }
      r := Element(chunks[0][0]);
    }

    method Back() returns (r: Reading<T>)
      requires Valid()
      ensures r == if Contents() == [] then OutOfRange else Element(Contents()[size - 1])
    {
      if size == 0 { return OutOfRange; }
      r := Element(chunks[(size - 1) / CHUNK_SIZE][(size - 1) % CHUNK_SIZE]);
    }

    /** Stores into one cell; all others keep their element. */
    method Put(i: nat, x: T)
      requires Chunked() && i < Capacity()
      modifies chunks
      ensures Chunked() && Cell(i) == x
      ensures forall j :: 0 <= j < Capacity() && j != i ==> Cell(j) == old(Cell(j))
      ensures forall c :: c in chunks && c != chunks[i / CHUNK_SIZE] ==> c[..] == old(c[..])
    {
      chunks[i / CHUNK_SIZE][i % CHUNK_SIZE] := x;
    }

    method Set(index: nat, x: T) returns (ok: bool)
      requires Valid()
      modifies chunks
      ensures Valid() && (ok <==> index < size)
      ensures Contents() == if ok then old(Contents())[index := x] else old(Contents())
    {
      if index >= size { return false; }
      Put(index, x);
      ok := true;
    }

    method AddChunk()
      requires Chunked()
      modifies this`chunks
      ensures Chunked() && |chunks| == |old(chunks)| + 1 && chunks[..|old(chunks)|] == old(chunks) && fresh(chunks[|old(chunks)|])
      ensures forall j :: 0 <= j < old(Capacity()) ==> Cell(j) == old(Cell(j))
    {
      var chunk := new T[CHUNK_SIZE];
      chunks := chunks + [chunk];
    }

    /** Adds chunks until there are enough for the capacity asked for. */
    method Reserve(capacity: nat)
      requires Chunked()
      modifies this`chunks
      ensures Chunked() && Capacity() >= capacity && old(chunks) <= chunks
      ensures |chunks| == if |old(chunks)| * CHUNK_SIZE >= capacity then |old(chunks)| else (capacity + CHUNK_SIZE - 1) / CHUNK_SIZE
      ensures forall j :: 0 <= j < old(Capacity()) ==> Cell(j) == old(Cell(j))
      ensures forall i :: 0 <= i < |chunks| ==> chunks[i] in old(chunks) || fresh(chunks[i])
    {
      var needed := (capacity + CHUNK_SIZE - 1) / CHUNK_SIZE;
      while |chunks| < needed
        invariant Chunked() && old(chunks) <= chunks && (|chunks| <= needed || chunks == old(chunks))
        invariant forall j :: 0 <= j < old(Capacity()) ==> Cell(j) == old(Cell(j))
        invariant forall i :: 0 <= i < |chunks| ==> chunks[i] in old(chunks) || fresh(chunks[i])
      {
        AddChunk();
      }
    }

    method Pushback(x: T)
      requires Valid()
      modifies this, chunks
      ensures Valid() && Contents() == old(Contents()) + [x]
      ensures forall i :: 0 <= i < |chunks| ==> chunks[i] in old(chunks) || fresh(chunks[i])
    {
      if size / CHUNK_SIZE >= |chunks| {
        AddChunk();
      }
      Put(size, x);
      size := size + 1;
    }

    /** Drops the last element, and the last chunk, be it a reserved one, when the element was the first of its chunk. */
    method Popback() returns (ok: bool)
      requires Valid()
      modifies this
      ensures Valid() && (ok <==> old(Contents()) != [])
      ensures Contents() == if ok then old(Contents())[..old(size) - 1] else []
      ensures |chunks| == if ok && (old(size) - 1) % CHUNK_SIZE == 0 then |old(chunks)| - 1 else |old(chunks)|
    {
      if size == 0 { return false; }
      var last := size - 1;
      if last % CHUNK_SIZE == 0 {
        chunks := chunks[..|chunks| - 1];
      }
      size := size - 1;
      ok := true;
    }

    method Clear()
      requires Valid()
      modifies this
      ensures Valid() && Contents() == [] && chunks == []
    {
      chunks := [];
      size := 0;
    }

    /** Copies the elements of the other array into the cells from an index on. */
    method CopyInto(other: ChunkArray<T>, from: nat)
      requires Chunked() && other.Valid() && from + other.size <= Capacity()
      requires Separate(other)
      modifies chunks
      ensures Chunked() && other.Valid() && other.size == old(other.size) && other.Contents() == old(other.Contents())
      ensures forall j :: 0 <= j < Capacity() ==> Cell(j) == if from <= j < from + other.size then old(other.Contents())[j - from] else old(Cell(j))
    {
      ghost var o := other.Contents();
      var i := 0;
      while i < other.size
        invariant Chunked() && other.Valid() && i <= other.size == |o| && other.Contents() == o
        invariant forall j :: 0 <= j < Capacity() ==> Cell(j) == if from <= j < from + i then o[j - from] else old(Cell(j))
      {
        Put(from + i, other.chunks[i / CHUNK_SIZE][i % CHUNK_SIZE]);
        i := i + 1;
      }
    }

    /** Overwrites from an index on, growing at the end; writing at the size appends. */
    method Overwrite(other: ChunkArray<T>, where: nat) returns (ok: bool)
      requires Valid() && other.Valid() && Separate(other)
      modifies this, chunks
      ensures Valid() && (ok <==> where <= old(size))
      ensures Contents() == if ok then Overwritten(old(Contents()), other.Contents(), where) else old(Contents())
      ensures other.Valid() && other.Contents() == old(other.Contents())
    {
      hide Overwritten;
      if where > size { return false; }
      OverwrittenAt(Contents(), other.Contents(), where);
      var required := where + other.size;
      if required > size {
        size := required;
        Reserve(size);
      }
      CopyInto(other, where);
      ok := true;
      assert forall j :: 0 <= j < size ==> Contents()[j] == Cell(j);
    }

    /** A part that fits replaces the tail; a longer one is appended. */
    method OverwriteBack(other: ChunkArray<T>)
      requires Valid() && other.Valid() && Separate(other)
      modifies this, chunks
      ensures Valid() && Contents() == if other.size <= old(size) then Overwritten(old(Contents()), other.Contents(), old(size) - other.size)
                                       else old(Contents()) + other.Contents()
    {
      hide Overwritten;
      ghost var s, o := Contents(), other.Contents();
      if other.size <= size {
        OverwrittenAt(s, o, size - other.size);
        CopyInto(other, size - other.size);
        assert forall j :: 0 <= j < size ==> Contents()[j] == Cell(j);
        assert Contents() == Overwritten(s, o, |s| - |o|);
      } else {
        AppendedPart(Contents(), other.Contents());
        var _ := Overwrite(other, size);
      }
    }

    /** Appends all elements of the other array. No chunk is added: the capacity has to be there. */
    method PushbackAll(other: ChunkArray<T>)
      requires Valid() && other.Valid() && size + other.size <= Capacity()
      requires Separate(other)
      modifies this, chunks
      ensures Valid() && Contents() == old(Contents()) + other.Contents()
    {
      ghost var s, o := Contents(), other.Contents();
      assert forall j :: 0 <= j < |s| ==> s[j] == old(Cell(j));
      CopyInto(other, size);
      size := size + other.size;
      assert forall j :: 0 <= j < size ==> Contents()[j] == Cell(j);
      assert forall j :: 0 <= j < |s| ==> Cell(j) == s[j];
      assert forall j :: |s| <= j < size ==> Cell(j) == o[j - |s|];
    }
  }
}
