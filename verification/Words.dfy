/** Machine words, bytes and the arithmetic that the byte commands and the VM share. */
module Words {

  const TWO63: nat := 0x8000_0000_0000_0000
  const TWO64: nat := 0x1_0000_0000_0000_0000

  type Byte = x: nat | x < 256
  type Word = x: nat | x < TWO64

  function Min(a: nat, b: nat): nat {
    if a < b then a else b
  }

  // ----- 64-bit arithmetic -----

  function Wrap(x: int): Word {
    x % TWO64
  }

  function Signed(w: Word): int {
    if w < TWO63 then w else w - TWO64
  }

  function Abs(x: int): nat {
    if x < 0 then -x else x
  }

  // Division and remainder of the signed machine type round toward zero.
  function TruncDiv(a: int, b: int): int
    requires b != 0
  {
    if (a < 0) == (b < 0) then Abs(a) / Abs(b) else -(Abs(a) / Abs(b))
  }

  function TruncMod(a: int, b: int): int
    requires b != 0
  {
    a - TruncDiv(a, b) * b
  }

  function Bool(b: bool): Word {
    if b then 1 else 0
  }

  function Pow2(n: nat): (p: nat)
    ensures p > 0
  {
    if n == 0 then 1 else 2 * Pow2(n - 1)
  }

  lemma Pow2Of64()
    ensures Pow2(64) == TWO64
  {
    Pow2Add8(0);
    Pow2Add8(8);
    Pow2Add8(16);
    Pow2Add8(24);
    Pow2Add8(32);
    Pow2Add8(40);
    Pow2Add8(48);
    Pow2Add8(56);
  }

  lemma Pow2Add8(n: nat)
    ensures Pow2(n + 8) == 256 * Pow2(n)
  {
    assert Pow2(n + 2) == 2 * Pow2(n + 1);
    assert Pow2(n + 4) == 2 * Pow2(n + 3);
    assert Pow2(n + 6) == 2 * Pow2(n + 5);
    assert Pow2(n + 8) == 2 * Pow2(n + 7);
  }

  /** The lowest n bits that both have. */
  function CommonBits(a: nat, b: nat, n: nat): (r: nat)
    ensures r < Pow2(n)
  {
    if n == 0 then 0 else (a % 2) * (b % 2) + 2 * CommonBits(a / 2, b / 2, n - 1)
  }

  /** The lowest n bits that either has. */
  function JoinedBits(a: nat, b: nat, n: nat): (r: nat)
    ensures r < Pow2(n)
  {
    if n == 0 then 0 else (if a % 2 == 0 && b % 2 == 0 then 0 else 1) + 2 * JoinedBits(a / 2, b / 2, n - 1)
  }

  function BitAnd(a: Word, b: Word): Word {
    Pow2Of64();
    CommonBits(a, b, 64)
  }

  function BitOr(a: Word, b: Word): Word {
    Pow2Of64();
    JoinedBits(a, b, 64)
  }

  function BitNot(a: Word): Word {
    TWO64 - 1 - a
  }

  // Shift counts of 64 or more are undefined in the source language; they are taken modulo 64 here.
  function ShiftLeft(a: Word, b: Word): Word {
    Wrap(a * Pow2(b % 64))
  }

  function ShiftRight(a: Word, b: Word): (r: Word)
    ensures r <= a
  {
    var p := Pow2(b % 64);
    QuotientAtMost(a, p);
    a / p
  }

  lemma QuotientAtMost(a: nat, p: nat)
    requires p > 0
    ensures 0 <= a / p <= a
  {
    var q := a / p;
    assert a == p * q + a % p;
    ProductAtLeast(p, q);
  }

  lemma ProductAtLeast(p: nat, q: nat)
    requires p > 0
    ensures p * q >= q
  {
  }

  // ----- little-endian encoding -----

  function Pow256(n: nat): (p: nat)
    ensures p > 0
  {
    if n == 0 then 1 else 256 * Pow256(n - 1)
  }

  function LE(v: nat, n: nat): (s: seq<Byte>)
    ensures |s| == n
  {
    if n == 0 then [] else [v % 256] + LE(v / 256, n - 1)
  }

  function FromLE(s: seq<Byte>): (v: nat)
    ensures v < Pow256(|s|)
  {
    if s == [] then 0 else s[0] + 256 * FromLE(s[1..])
  }

  lemma {:induction false} DecodeEncode(v: nat, n: nat)
    ensures FromLE(LE(v, n)) == v % Pow256(n)
  {
    if n == 0 {
    } else {
      DecodeEncode(v / 256, n - 1);
      var p := Pow256(n - 1);
      assert LE(v, n)[1..] == LE(v / 256, n - 1);
      ModuloSplit(v, p);
    }
  }

  lemma ModuloSplit(v: nat, p: nat)
    requires p > 0
    ensures v % 256 + 256 * ((v / 256) % p) == v % (256 * p)
  {
    var q := v / 256;
    var r := v % 256 + 256 * (q % p);
    assert q == (q / p) * p + q % p;
    assert v == 256 * q + v % 256;
    assert v == (256 * p) * (q / p) + r by {
      assert 256 * ((q / p) * p) == (256 * p) * (q / p);
    }
    assert q % p <= p - 1;
    assert 0 <= r < 256 * p;
    RemainderUnique(v, 256 * p, q / p, r);
  }

  lemma RemainderUnique(v: int, d: int, q: int, r: int)
    requires d > 0 && 0 <= r < d && v == d * q + r
    ensures v % d == r
  {
    var q', r' := v / d, v % d;
    assert v == d * q' + r';
    ProductGap(d, q', q);
    ProductGap(d, q, q');
  }

  lemma ProductGap(d: int, a: int, b: int)
    requires d > 0
    ensures a < b ==> d * a + d <= d * b
  {
    if a < b {
      assert d * (b - a - 1) >= 0;
    }
  }

  lemma {:induction false} EncodeDecode(s: seq<Byte>)
    ensures LE(FromLE(s), |s|) == s
  {
    if s == [] {
    } else {
      EncodeDecode(s[1..]);
      var v := FromLE(s);
      assert v % 256 == s[0] && v / 256 == FromLE(s[1..]);
    }
  }

  lemma Pow256Of8()
    ensures Pow256(8) == TWO64 && Pow256(4) == 0x1_0000_0000 && Pow256(2) == 0x1_0000
  {
    assert Pow256(2) == 256 * Pow256(1);
    assert Pow256(4) == 256 * (256 * Pow256(2));
    assert Pow256(8) == 256 * (256 * (256 * (256 * Pow256(4))));
  }

  lemma {:induction false} Pow256Monotone(m: nat, n: nat)
    requires m <= n
    ensures Pow256(m) <= Pow256(n)
    decreases n
  {
    if m < n {
      Pow256Monotone(m, n - 1);
    }
  }

  /** Eight bytes hold every word. */
  lemma WordRoundTrip(w: Word)
    ensures FromLE(LE(w, 8)) == w
  {
    DecodeEncode(w, 8);
    Pow256Of8();
  }

  // ----- byte-addressed memory -----

  type Memory = seq<Byte>

  function ReadBytes(mem: Memory, address: nat, size: nat): Word
    requires address + Min(size, 8) <= |mem|
  {
    Pow256Monotone(Min(size, 8), 8);
    Pow256Of8();
    FromLE(mem[address..address + Min(size, 8)])
  }

  function WriteBytes(mem: Memory, address: nat, value: Word, size: nat): (mem': Memory)
    requires address + Min(size, 8) <= |mem|
    ensures |mem'| == |mem|
  {
    var n := Min(size, 8);
    mem[..address] + LE(value, n) + mem[address + n..]
  }
}
