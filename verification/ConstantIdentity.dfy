/** From a constant's id in the compiler to its bytes in the linked program's read-only data. */
module ConstantIdentity {
  import opened Words
  import opened ByteCode
  import opened ReadOnlyData
  import opened ObjectFormat
  import opened ObjectRoundTrip

  lemma {:induction false} KeptFits(constants: seq<seq<Byte>>, first: nat, aligned: bool)
    requires first + |constants| <= TWO64
    ensures SizesOk(Kept(constants, first, aligned)) && (aligned ==> AlignmentOn(Kept(constants, first, aligned)))
    ensures |Kept(constants, first, aligned)| == |constants|
    decreases |constants|
  {
    if constants != [] {
      var rest, all := Kept(constants[1..], first + 1, aligned), Kept(constants, first, aligned);
      KeptFits(constants[1..], first + 1, aligned);
      assert forall i :: 1 <= i < |all| ==> all[i] == rest[i - 1];
      AlignUpMultiple(|constants[0]|);
    }
  }

  lemma {:induction false} TotalCons(constants: seq<ConstantData>)
    ensures SumSizes(constants) == TotalSize(constants)
    decreases |constants|
  {
    if constants != [] {
      var before, last := constants[..|constants| - 1], constants[|constants| - 1];
      TotalCons(before);
      SumSplit(constants);
    }
  }

  lemma {:induction false} SumSplit(constants: seq<ConstantData>)
    requires constants != []
    ensures SumSizes(constants) == SumSizes(constants[..|constants| - 1]) + constants[|constants| - 1].usingSize
    decreases |constants|
  {
    if |constants| > 1 {
      SumSplit(constants[1..]);
      assert constants[1..][..|constants| - 2] == constants[..|constants| - 1][1..];
    }
  }

  /**
   * The constant with id k is laid out at an address where the read-only data holds exactly the bytes interned as k,
   * eight-aligned when alignment is on, apart from every other constant, in a buffer of exactly the counted size.
   */
  lemma ConstantReachesImage(m: MoState, aligned: bool, k: nat)
    requires MoOk(m) && Readable(m.symbols) && k < |m.constants|
    ensures |m.constants| <= TWO64
    ensures var st := ReadMo(MoBytes(m), aligned);
            && st.Some? && st.value.constants == Kept(m.constants, 0, aligned) && SizesOk(st.value.constants)
            && var c := st.value.constants;
            && |c| == |m.constants| && c[k].id == k
            && st.value.constantsSize == TotalSize(c)
            && var a := AddressOf(c, k);
            && a + |m.constants[k]| <= TotalSize(c) && Image(c)[a..a + |m.constants[k]|] == m.constants[k]
            && (aligned ==> a % 8 == 0)
            && forall j :: k < j < |c| ==> a + |m.constants[k]| <= AddressOf(c, j)
  {
    hide MoOk, Readable, MoBytes, ReadMo, Image, AddressOf, Kept, TotalSize, SumSizes;
    MoRoundTrip(m, aligned);
    var c := Kept(m.constants, 0, aligned);
    KeptFits(m.constants, 0, aligned);
    KeptAt(m.constants, 0, aligned, k);
    TotalCons(c);
    ConstantAtAddress(c, k);
    if aligned {
      ConstantsAligned(c, k);
    }
    forall j | k < j < |c|
      ensures AddressOf(c, k) + |m.constants[k]| <= AddressOf(c, j)
    {
      ConstantsDisjoint(c, k, j);
    }
  }
}
