/** What is written to memory can be read back, and nothing else changes. */
module MemoryLaws {
  import opened Words
  import opened Machine

  // ----- bytes of a number -----

  /** Byte k of a number, the lowest being byte 0. */
  function Digit(v: nat, k: nat): Byte
    decreases k
  {
    if k == 0 then v % 256 else Digit(v / 256, k - 1)
  }

  lemma {:induction false} EncodedDigits(v: nat, n: nat)
    ensures forall k :: 0 <= k < n ==> LE(v, n)[k] == Digit(v, k)
  {
    if n > 0 {
      EncodedDigits(v / 256, n - 1);
      forall k | 0 <= k < n
        ensures LE(v, n)[k] == Digit(v, k)
      {
        if k > 0 {
          assert LE(v, n)[k] == LE(v / 256, n - 1)[k - 1];
        }
      }
    }
  }

  lemma {:induction false} SameDigits(v: nat, w: nat, n: nat)
    requires v < Pow256(n) && w < Pow256(n) && forall k :: 0 <= k < n ==> Digit(v, k) == Digit(w, k)
    ensures v == w
  {
    if n > 0 {
      assert Digit(v, 0) == Digit(w, 0);
      forall k | 0 <= k < n - 1
        ensures Digit(v / 256, k) == Digit(w / 256, k)
      {
        assert Digit(v, k + 1) == Digit(w, k + 1);
      }
      SameDigits(v / 256, w / 256, n - 1);
    }
  }

  predicate Apart(a: nat, m: nat, b: nat, n: nat) {
    a + Min(m, 8) <= b || b + Min(n, 8) <= a
  }

  // ----- plain memory -----

  /** The bytes of the number stand at the address, lowest first; the others are as before. */
  ghost predicate Holds(mem: Memory, address: nat, value: Word, size: nat, mem': Memory) {
    && |mem'| == |mem|
    && forall k :: 0 <= k < |mem| ==> mem'[k] == if address <= k < address + Min(size, 8) then Digit(value, k - address) else mem[k]
  }

  lemma WriteIsExact(mem: Memory, address: nat, value: Word, size: nat, mem': Memory)
    requires address + Min(size, 8) <= |mem|
    ensures WriteBytes(mem, address, value, size) == mem' <==> Holds(mem, address, value, size, mem')
  {
    EncodedDigits(value, Min(size, 8));
    var w := WriteBytes(mem, address, value, size);
    forall k | 0 <= k < |mem|
      ensures w[k] == if address <= k < address + Min(size, 8) then Digit(value, k - address) else mem[k]
    {
    }
    if Holds(mem, address, value, size, mem') {
      assert w == mem';
    }
  }

  /** The number's bytes, lowest first, are the n bytes at the address, and it has no more. */
  ghost predicate Spells(mem: Memory, address: nat, n: nat, v: nat)
    requires address + n <= |mem|
  {
    v < Pow256(n) && forall k :: 0 <= k < n ==> Digit(v, k) == mem[address + k]
  }

  lemma ReadSpells(mem: Memory, address: nat, size: nat)
    requires address + Min(size, 8) <= |mem|
    ensures Spells(mem, address, Min(size, 8), ReadBytes(mem, address, size))
  {
    hide Pow256;
    var n := Min(size, 8);
    var bytes, r := mem[address..address + n], ReadBytes(mem, address, size);
    EncodeDecode(bytes);
    EncodedDigits(r, n);
    assert LE(r, n) == bytes;
    forall k | 0 <= k < n
      ensures Digit(r, k) == mem[address + k]
    {
      assert LE(r, n)[k] == bytes[k];
    }
  }

  /** A number is read exactly when its bytes are those at the address. */
  lemma ReadIsExact(mem: Memory, address: nat, size: nat, v: nat)
    requires address + Min(size, 8) <= |mem|
    ensures ReadBytes(mem, address, size) == v <==> Spells(mem, address, Min(size, 8), v)
  {
    hide ReadBytes, Pow256;
    ReadSpells(mem, address, size);
    if Spells(mem, address, Min(size, 8), v) {
      SameDigits(v, ReadBytes(mem, address, size), Min(size, 8));
    }
  }

  /** What was written is read back, cut to the bytes that were written; what lies elsewhere is read as before. */
  lemma ReadBack(mem: Memory, address: nat, value: Word, size: nat, other: nat, width: nat)
    requires address + Min(size, 8) <= |mem| && other + Min(width, 8) <= |mem|
    ensures var mem' := WriteBytes(mem, address, value, size);
            && ReadBytes(mem', address, size) == value % Pow256(Min(size, 8))
            && (Apart(address, size, other, width) ==> ReadBytes(mem', other, width) == ReadBytes(mem, other, width))
  {
    hide Pow256, LE, FromLE;
    var mem', n := WriteBytes(mem, address, value, size), Min(size, 8);
    assert mem'[address..address + n] == LE(value, n);
    DecodeEncode(value, n);
    if Apart(address, size, other, width) {
      WriteIsExact(mem, address, value, size, mem');
      assert mem'[other..other + Min(width, 8)] == mem[other..other + Min(width, 8)];
    }
  }

  // ----- the machines' memory -----

  /** When a guarded write happens, what fault it gives otherwise, and what memory is afterwards. */
  lemma StoreIsExact(space: Space, mem: Memory, address: nat, value: Word, size: nat, mem': Memory)
    requires SpaceOk(space) && space.end == |mem|
    ensures Store(space, mem, address, value, size) == Next(mem')
       <==> space.stackStart <= address && address + Min(size, 8) <= space.end && Holds(mem, address, value, size, mem')
    ensures Store(space, mem, address, value, size) == Fault(ReadOnlyRewriting) <==> address < space.stackStart
    ensures Store(space, mem, address, value, size) == Fault(OutOfMemory)
       <==> space.stackStart <= address && space.end < address + Min(size, 8)
  {
    hide Holds, WriteBytes;
    if address + Min(size, 8) <= |mem| {
      WriteIsExact(mem, address, value, size, mem');
    }
  }

  lemma LoadReads(mem: Memory, limit: nat, address: nat, size: nat)
    requires limit <= |mem|
    ensures Load(mem, limit, address, size)
         == if address < limit && address + size <= limit then Next(ReadBytes(mem, address, size)) else Fault(InvalidMemoryAccess)
  {
  }

  /** After any of the three kinds of store, a load at the address gives the value cut to the size, and a load elsewhere what it gave before. */
  lemma StoreThenLoad(space: Space, mem: Memory, address: nat, value: Word, size: nat, mem': Memory, limit: nat, other: nat, width: nat)
    requires SpaceOk(space) && space.end == |mem| && limit <= space.end && size > 0
    requires Next(mem') in {Store(space, mem, address, value, size), StoreLocal(space, mem, address, value, size),
                            StoreByAddress(space, mem, address, value, size)}
    ensures |mem'| == |mem|
    ensures address + size <= limit ==> Load(mem', limit, address, size) == Next(value % Pow256(Min(size, 8)))
    ensures Apart(address, size, other, width) ==> Load(mem', limit, other, width) == Load(mem, limit, other, width)
  {
    hide Pow256, WriteBytes, ReadBytes;
    assert Store(space, mem, address, value, size) == Next(mem');
    ReadBack(mem, address, value, size, address, size);
    if other + width <= limit {
      ReadBack(mem, address, value, size, other, width);
    }
  }

  /** A store of a local variable keeps to the stack. */
  lemma StoreLocalIsExact(space: Space, mem: Memory, address: nat, value: Word, size: nat, mem': Memory)
    requires SpaceOk(space) && space.end == |mem|
    ensures StoreLocal(space, mem, address, value, size) == Next(mem')
       <==> space.stackStart <= address < space.heapStart && address + size <= space.heapStart && Holds(mem, address, value, size, mem')
  {
    hide Holds, WriteBytes;
    if InInterval(space.stackStart, space.heapStart, address, size) {
      StoreIsExact(space, mem, address, value, size, mem');
    }
  }

  /** A copy puts the old bytes of its source at the destination, also when the two overlap. */
  lemma CopyIsExact(space: Space, mem: Memory, destination: nat, source: nat, size: nat, mem': Memory)
    requires SpaceOk(space) && space.end == |mem|
    ensures Copy(space, mem, destination, source, size) == Next(mem')
       <==> && space.stackStart <= destination && destination + size <= space.end && source + size <= space.end && |mem'| == |mem|
            && forall k :: 0 <= k < |mem| ==>
                 mem'[k] == mem[if destination <= k < destination + size then source + k - destination else k]
  {
    if space.stackStart <= destination && destination + size <= space.end && source + size <= space.end {
      var r := mem[..destination] + mem[source..source + size] + mem[destination + size..];
      assert |r| == |mem|;
      forall k | 0 <= k < |mem|
        ensures r[k] == mem[if destination <= k < destination + size then source + k - destination else k]
      {
      }
      if |mem'| == |mem| && forall k :: 0 <= k < |mem| ==>
           mem'[k] == mem[if destination <= k < destination + size then source + k - destination else k] {
        assert r == mem';
      }
    }
  }
}
