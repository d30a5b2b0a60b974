/** Byte buffers written through an advancing offset. */
module Buffers {
  import opened Words

  function Zeros(n: nat): (s: seq<Byte>)
    ensures |s| == n
  {
    seq(n, _ => 0)
  }

  /** The buffer's content after data has been copied to an offset. */
  function Splice(s: seq<Byte>, offset: nat, data: seq<Byte>): (r: seq<Byte>)
    requires offset + |data| <= |s|
    ensures |r| == |s|
  {
    s[..offset] + data + s[offset + |data|..]
  }

  lemma SpliceNext(s: seq<Byte>, offset: nat, data: seq<Byte>, i: nat)
    requires offset + |data| <= |s| && i < |data|
    ensures Splice(s, offset, data[..i])[offset + i := data[i]] == Splice(s, offset, data[..i + 1])
  {
  }

  /** Writing right behind what has been written, into a zeroed buffer. */
  lemma SpliceAppend(written: seq<Byte>, size: nat, data: seq<Byte>)
    requires |written| + |data| <= size
    ensures Splice(written + Zeros(size - |written|), |written|, data)
            == written + data + Zeros(size - |written| - |data|)
  {
  }

  method CopyInto(buffer: array<Byte>, offset: nat, data: seq<Byte>)
    requires offset + |data| <= buffer.Length
    modifies buffer
    ensures buffer[..] == Splice(old(buffer[..]), offset, data)
  {
    ghost var before := buffer[..];
    var i := 0;
    assert before == Splice(before, offset, data[..0]);
    while i < |data|
      invariant 0 <= i <= |data|
      invariant buffer[..] == Splice(before, offset, data[..i])
    {
      SpliceNext(before, offset, data, i);
      buffer[offset + i] := data[i];
      i := i + 1;
    }
    assert data[..i] == data;
  }
}
