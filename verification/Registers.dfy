/** The register table of the code generator: a bitmap over general, accumulator and special registers. */
module Registers {
  import opened ByteCode

  /** The lowest general register that is not used. */
  function LowestFree(used: set<nat>, general: nat): (r: Option<nat>)
    ensures r.Some? ==> r.value < general && r.value !in used && forall k: nat :: k < r.value ==> k in used
    ensures r.None? <==> forall k: nat :: k < general ==> k in used
  {
    LowestFreeFrom(used, general, 0)
  }

  function LowestFreeFrom(used: set<nat>, general: nat, from: nat): (r: Option<nat>)
    requires from <= general
    ensures r.Some? ==> from <= r.value < general && r.value !in used && forall k: nat :: from <= k < r.value ==> k in used
    ensures r.None? <==> forall k: nat :: from <= k < general ==> k in used
    decreases general - from
  {
    if from == general then None
    else if from !in used then Some(from)
    else LowestFreeFrom(used, general, from + 1)
  }

  class RegistersTable {
    const generalCount: nat
    const bitmap: array<bool>

    predicate Valid() {
      generalCount <= bitmap.Length
    }

    /** The registers marked used. */
    ghost function Used(): set<nat>
      reads bitmap
    {
      set i: nat | i < bitmap.Length && bitmap[i]
    }

    constructor (generalRegisters: nat, accumulators: nat, specials: nat)
      ensures Valid() && fresh(bitmap) && generalCount == generalRegisters && Used() == {}
    {
      generalCount := generalRegisters;
      bitmap := new bool[generalRegisters + accumulators + specials](_ => false);
    }

    predicate IsUsed(index: nat)
      reads bitmap
      ensures IsUsed(index) <==> index >= bitmap.Length || index in Used()
    {
      index >= bitmap.Length || bitmap[index]
    }

    method SetUsed(index: nat)
      modifies bitmap
      ensures Used() == if index < bitmap.Length then old(Used()) + {index} else old(Used())
    {
      if index >= bitmap.Length { return; }
      bitmap[index] := true;
    }

    method SetFree(index: nat)
      modifies bitmap
      ensures Used() == old(Used()) - {index}
    {
      if index >= bitmap.Length { return; }
      bitmap[index] := false;
    }

    /** Takes the lowest free general register; None, and no change, when all are used. */
    method AllocateFreeGeneral() returns (r: Option<nat>)
      requires Valid()
      modifies bitmap
      ensures r == LowestFree(old(Used()), generalCount)
      ensures Used() == if r.Some? then old(Used()) + {r.value} else old(Used())
    {
      var i := 0;
      while i < generalCount
        invariant 0 <= i <= generalCount
        invariant forall k: nat :: k < i ==> k in Used()
        invariant Used() == old(Used())
      {
        if !IsUsed(i) {
          SetUsed(i);
          return Some(i);
        }
        i := i + 1;
      }
      return None;
    }
  }
}
