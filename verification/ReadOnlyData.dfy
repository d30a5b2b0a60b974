/** Layout of the constants in the read-only data. */
module ReadOnlyData {
  import opened Words
  import opened ByteCode
  import opened Buffers

  const DEFAULT_ALIGNMENT: nat := 8

  datatype ConstantData = ConstantData(id: Word, data: seq<Byte>, usingSize: nat)

  function AlignUp(n: nat): nat {
    ((n + DEFAULT_ALIGNMENT - 1) / DEFAULT_ALIGNMENT) * DEFAULT_ALIGNMENT
  }

  /** The size a constant takes, as the object reader computes it. */
  function UsingSize(aligned: bool, size: nat): nat {
    if aligned then AlignUp(size) else size
  }

  predicate SizesOk(constants: seq<ConstantData>) {
    forall i :: 0 <= i < |constants| ==> |constants[i].data| <= constants[i].usingSize
  }

  function TotalSize(constants: seq<ConstantData>): nat {
    if constants == [] then 0 else TotalSize(constants[..|constants| - 1]) + constants[|constants| - 1].usingSize
  }

  /** One constant with its padding. */
  function Padded(c: ConstantData): (s: seq<Byte>)
    requires |c.data| <= c.usingSize
    ensures |s| == c.usingSize
  {
    c.data + Zeros(c.usingSize - |c.data|)
  }

  /** Every constant in order, each followed by its padding. */
  function Image(constants: seq<ConstantData>): (s: seq<Byte>)
    requires SizesOk(constants)
    ensures |s| == TotalSize(constants)
  {
    if constants == [] then []
    else Image(constants[..|constants| - 1]) + Padded(constants[|constants| - 1])
  }

  /** The address of constant k. */
  function AddressOf(constants: seq<ConstantData>, k: nat): nat
    requires k <= |constants|
  {
    TotalSize(constants[..k])
  }

  function Addresses(constants: seq<ConstantData>): (a: seq<nat>)
    ensures |a| == |constants|
  {
    seq(|constants|, k requires 0 <= k < |constants| => AddressOf(constants, k))
  }

  lemma {:induction false} TotalSizePrefix(constants: seq<ConstantData>, k: nat)
    requires k <= |constants|
    ensures TotalSize(constants[..k]) <= TotalSize(constants)
    decreases |constants|
  {
    if k == |constants| {
      assert constants[..k] == constants;
    } else {
      var before := constants[..|constants| - 1];
      TotalSizePrefix(before, k);
      assert before[..k] == constants[..k];
    }
  }

  lemma TotalSizeStep(constants: seq<ConstantData>, k: nat)
    requires k < |constants|
    ensures TotalSize(constants[..k + 1]) == TotalSize(constants[..k]) + constants[k].usingSize <= TotalSize(constants)
  {
    assert constants[..k + 1][..k] == constants[..k];
    TotalSizePrefix(constants, k + 1);
  }

  /** What stands in front of a constant is the image of the constants before it. */
  lemma {:induction false} ImagePrefix(constants: seq<ConstantData>, k: nat)
    requires SizesOk(constants) && k <= |constants|
    ensures TotalSize(constants[..k]) <= TotalSize(constants) && Image(constants)[..TotalSize(constants[..k])] == Image(constants[..k])
    decreases |constants|
  {
    hide Padded;
    TotalSizePrefix(constants, k);
    if k == |constants| {
      assert constants[..k] == constants;
    } else {
      var before := constants[..|constants| - 1];
      ImagePrefix(before, k);
      assert before[..k] == constants[..k];
      PrefixOfPrefix(Image(before), Padded(constants[|constants| - 1]), TotalSize(constants[..k]));
    }
  }

  lemma PrefixOfPrefix<T>(s: seq<T>, t: seq<T>, n: nat)
    requires n <= |s|
    ensures (s + t)[..n] == s[..n]
  {
  }

  lemma PartInside<T>(s: seq<T>, before: seq<T>, part: seq<T>, rest: seq<T>)
    requires |before| + |part| + |rest| <= |s| && s[..|before| + |part| + |rest|] == before + (part + rest)
    ensures s[|before|..|before| + |part|] == part
  {
    var n := |before| + |part| + |rest|;
    assert s[|before|..|before| + |part|] == s[..n][|before|..|before| + |part|];
  }

  /** The read-only data holds exactly the bytes of constant k at its address. */
  lemma ConstantAtAddress(constants: seq<ConstantData>, k: nat)
    requires SizesOk(constants) && k < |constants|
    ensures AddressOf(constants, k) + |constants[k].data| <= TotalSize(constants)
    ensures Image(constants)[AddressOf(constants, k)..AddressOf(constants, k) + |constants[k].data|] == constants[k].data
  {
    ImageStep(constants, k);
    ImagePrefix(constants, k + 1);
    hide Image, TotalSize;
    var c := constants[k];
    PartInside(Image(constants), Image(constants[..k]), c.data, Zeros(c.usingSize - |c.data|));
  }

  lemma ImageStep(constants: seq<ConstantData>, k: nat)
    requires SizesOk(constants) && k < |constants|
    ensures TotalSize(constants[..k + 1]) == TotalSize(constants[..k]) + constants[k].usingSize
    ensures Image(constants[..k + 1]) == Image(constants[..k]) + Padded(constants[k])
  {
    hide Padded;
    assert constants[..k + 1][..k] == constants[..k];
  }

  /** Constants never overlap: each one's range ends before the next begins. */
  lemma {:induction false} ConstantsDisjoint(constants: seq<ConstantData>, i: nat, j: nat)
    requires SizesOk(constants) && i < j < |constants|
    ensures AddressOf(constants, i) + |constants[i].data| <= AddressOf(constants, j)
  {
    TotalSizeStep(constants, i);
    TotalSizePrefix(constants[..j], i + 1);
    assert constants[..j][..i + 1] == constants[..i + 1];
  }

  lemma AlignUpMultiple(n: nat)
    ensures AlignUp(n) % 8 == 0 && n <= AlignUp(n) < n + 8
  {
  }

  predicate AlignmentOn(constants: seq<ConstantData>) {
    forall i :: 0 <= i < |constants| ==> constants[i].usingSize == UsingSize(true, |constants[i].data|)
  }

  lemma SumMultiple(a: nat, b: nat)
    requires a % 8 == 0 && b % 8 == 0
    ensures (a + b) % 8 == 0
  {
  }

  /** With alignment on, every constant starts at a multiple of eight. */
  lemma {:induction false} ConstantsAligned(constants: seq<ConstantData>, k: nat)
    requires AlignmentOn(constants) && k <= |constants|
    ensures AddressOf(constants, k) % 8 == 0
  {
    if k > 0 {
      ConstantsAligned(constants, k - 1);
      TotalSizeStep(constants, k - 1);
      var size := constants[k - 1].usingSize;
      assert size % 8 == 0 by {
        AlignUpMultiple(|constants[k - 1].data|);
      }
      SumMultiple(AddressOf(constants, k - 1), size);
    }
  }

  /** Copying a constant into the zeroed rest also leaves its padding. */
  lemma PaddingIsZero(constants: seq<ConstantData>, i: nat, size: nat)
    requires SizesOk(constants) && i < |constants| && TotalSize(constants[..i + 1]) <= size
    ensures var before, c := Image(constants[..i]), constants[i];
            && |before| + c.usingSize <= size
            && Splice(before + Zeros(size - |before|), |before|, c.data)
               == Image(constants[..i + 1]) + Zeros(size - |before| - c.usingSize)
  {
    var before, c := Image(constants[..i]), constants[i];
    TotalSizeStep(constants, i);
    assert constants[..i + 1][..i] == constants[..i];
    SpliceAppend(before, size, c.data);
    assert Zeros(size - |before| - |c.data|) == Zeros(c.usingSize - |c.data|) + Zeros(size - |before| - c.usingSize);
    assert Image(constants[..i + 1]) == before + Padded(c);
  }

  /** The first i constants have been laid out, the rest of the buffer is still zero. */
  ghost predicate LaidOut(constants: seq<ConstantData>, i: nat, content: seq<Byte>)
    requires i <= |constants| && SizesOk(constants)
  {
    var n := TotalSize(constants[..i]);
    n <= |content| && content == Image(constants[..i]) + Zeros(|content| - n)
  }

  lemma LaidOutNext(constants: seq<ConstantData>, i: nat, content: seq<Byte>)
    requires SizesOk(constants) && i < |constants|
    requires |content| == TotalSize(constants) && LaidOut(constants, i, content)
    ensures var n := TotalSize(constants[..i]);
            && n + |constants[i].data| <= |content|
            && LaidOut(constants, i + 1, Splice(content, n, constants[i].data))
  {
    TotalSizeStep(constants, i);
    PaddingIsZero(constants, i, |content|);
  }

  /**
   * Copies every constant into a zeroed buffer of the size the object reader counted; fails when one would not fit.
   * With the counted size right, the size check never fires.
   */
  method LayOut(constants: seq<ConstantData>, constantsSize: nat) returns (ok: bool, rod: array<Byte>, addresses: seq<nat>)
    requires SizesOk(constants)
    ensures fresh(rod)
    ensures ok ==> addresses == Addresses(constants)
    ensures constantsSize == TotalSize(constants) ==> ok && rod[..] == Image(constants)
  {
    rod := new Byte[constantsSize](_ => 0);
    addresses, ok := [], true;
    var offset, i := 0, 0;
    assert rod[..] == Zeros(constantsSize);
    while i < |constants|
      invariant 0 <= i <= |constants| && offset == TotalSize(constants[..i])
      invariant addresses == Addresses(constants)[..i]
      invariant ok && fresh(rod) && rod.Length == constantsSize
      invariant constantsSize == TotalSize(constants) ==> LaidOut(constants, i, rod[..])
    {
      var c := constants[i];
      TotalSizeStep(constants, i);
      if constantsSize == TotalSize(constants) {
        LaidOutNext(constants, i, rod[..]);
      }
      addresses := addresses + [offset];
      if |c.data| + offset > constantsSize {
        return false, rod, addresses;
      }
      CopyInto(rod, offset, c.data);
      offset := offset + c.usingSize;
      i := i + 1;
    }
    assert constants[..i] == constants;
  }
}
