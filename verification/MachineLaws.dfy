/** What the arithmetic, logic, bit and comparison operations compute, stated on integers and on single bits. */
module MachineLaws {
  import opened Words
  import opened ByteCode
  import opened Machine

  // ----- words and integers -----

  /** The word is the integer modulo 2^64. */
  predicate Represents(r: Word, x: int) {
    (x - r) % TWO64 == 0
  }

  /** x divided by y, rounded toward zero: the remainder is smaller than the divisor and has the dividend's sign or is 0. */
  predicate Divides(x: int, y: int, q: int, r: int) {
    y != 0 && x == q * y + r && Abs(r) < Abs(y) && (r != 0 ==> (r < 0 <==> x < 0))
  }

  /** Bit i, the lowest being bit 0. */
  predicate Bit(w: nat, i: nat)
    decreases i
  {
    if i == 0 then w % 2 == 1 else Bit(w / 2, i - 1)
  }

  /** A signed word is the one integer between -2^63 and 2^63 - 1 that it represents. */
  lemma SignedIsExact(w: Word, x: int)
    ensures x == Signed(w) <==> 0 - TWO63 <= x < TWO63 && Represents(w, x)
  {
  }

  lemma WrapIsExact(r: Word, x: int)
    ensures Wrap(x) == r <==> Represents(r, x)
  {
    var q, m := x / TWO64, x % TWO64;
    assert x == TWO64 * q + m;
    if Represents(r, x) {
      assert x - r == TWO64 * ((x - r) / TWO64);
      RemainderUnique(x, TWO64, (x - r) / TWO64, r);
    } else if m == r {
      RemainderUnique(x - r, TWO64, q, 0);
    }
  }

  // ----- division -----

  lemma SignedProduct(b: int, q: int, y: int)
    requires y == b || y == -b
    ensures (if y == b then q else -q) * y == b * q
  {
    if y != b {
      assert (-q) * y == q * b;
    }
  }

  lemma SignedParts(x: int, y: int)
    requires y != 0
    ensures var q: int := Abs(x) / Abs(y);
            TruncDiv(x, y) == if x < 0 then (if y < 0 then q else -q) else (if y < 0 then -q else q)
  {
  }

  lemma TruncDivides(x: int, y: int)
    requires y != 0
    ensures Divides(x, y, TruncDiv(x, y), TruncMod(x, y))
  {
    hide TruncDiv;
    var a: int, b: int := Abs(x), Abs(y);
    var q: int, r: int := a / b, a % b;
    assert a == b * q + r && 0 <= r < b;
    SignedParts(x, y);
    var d := if y < 0 then -q else q;
    SignedProduct(b, q, y);
    assert d * y == b * q;
    if x < 0 {
      assert TruncDiv(x, y) == -d;
      assert (-d) * y == -(b * q);
    } else {
      assert TruncDiv(x, y) == d;
    }
  }

  lemma DividesOnce(x: int, y: int, q: int, r: int, q': int, r': int)
    requires Divides(x, y, q, r) && Divides(x, y, q', r')
    ensures q == q' && r == r'
  {
    assert (q - q') * y == r' - r;
    if q != q' {
      AtLeastOnce(q - q', y);
    }
  }

  lemma AtLeastOnce(k: int, y: int)
    requires k != 0
    ensures Abs(k * y) >= Abs(y)
  {
    if k > 0 {
      ProductAtLeastAbs(k, y);
    } else {
      ProductAtLeastAbs(-k, y);
      assert k * y == -((-k) * y);
    }
  }

  lemma ProductAtLeastAbs(k: int, y: int)
    requires k > 0
    ensures Abs(k * y) >= Abs(y)
  {
    if y >= 0 {
      assert k * y == y + (k - 1) * y;
      assert (k - 1) * y >= 0;
    } else {
      assert k * y == y + (k - 1) * y;
      assert (k - 1) * y <= 0;
    }
  }

  // ----- single bits -----

  /** Equal bits, equal numbers. */
  lemma {:induction false} SameBits(a: nat, b: nat, n: nat)
    requires a < Pow2(n) && b < Pow2(n) && forall i: nat :: i < n ==> (Bit(a, i) <==> Bit(b, i))
    ensures a == b
  {
    if n > 0 {
      assert Bit(a, 0) <==> Bit(b, 0);
      forall i: nat | i < n - 1
        ensures Bit(a / 2, i) <==> Bit(b / 2, i)
      {
        assert Bit(a, i + 1) <==> Bit(b, i + 1);
      }
      SameBits(a / 2, b / 2, n - 1);
    }
  }

  lemma {:induction false} NoBitAbove(a: nat, n: nat, i: nat)
    requires a < Pow2(n) && n <= i
    ensures !Bit(a, i)
    decreases i
  {
    if i > 0 {
      if n == 0 {
        NoBitAbove(a / 2, 0, i - 1);
      } else {
        NoBitAbove(a / 2, n - 1, i - 1);
      }
    }
  }

  lemma {:induction false} CommonBit(a: nat, b: nat, n: nat, i: nat)
    requires i < n
    ensures Bit(CommonBits(a, b, n), i) <==> Bit(a, i) && Bit(b, i)
  {
    var rest := CommonBits(a / 2, b / 2, n - 1);
    var r := CommonBits(a, b, n);
    assert r % 2 == (a % 2) * (b % 2) && r / 2 == rest;
    if i > 0 {
      CommonBit(a / 2, b / 2, n - 1, i - 1);
    }
  }

  lemma {:induction false} JoinedBit(a: nat, b: nat, n: nat, i: nat)
    requires i < n
    ensures Bit(JoinedBits(a, b, n), i) <==> Bit(a, i) || Bit(b, i)
  {
    var rest := JoinedBits(a / 2, b / 2, n - 1);
    var r := JoinedBits(a, b, n);
    assert r / 2 == rest;
    if i > 0 {
      JoinedBit(a / 2, b / 2, n - 1, i - 1);
    }
  }

  lemma {:induction false} OtherBit(a: nat, n: nat, i: nat)
    requires a < Pow2(n) && i < n
    ensures Bit(Pow2(n) - 1 - a, i) <==> !Bit(a, i)
  {
    var r := Pow2(n) - 1 - a;
    assert r % 2 == 1 - a % 2 && r / 2 == Pow2(n - 1) - 1 - a / 2;
    if i > 0 {
      OtherBit(a / 2, n - 1, i - 1);
    }
  }

  lemma {:induction false} RaisedBit(a: nat, n: nat, i: nat)
    ensures Bit(a * Pow2(n), i) <==> n <= i && Bit(a, i - n)
    decreases n
  {
    if n > 0 {
      var half := a * Pow2(n - 1);
      assert a * Pow2(n) == 2 * half;
      if i > 0 {
        RaisedBit(a, n - 1, i - 1);
      }
    }
  }

  lemma {:induction false} LoweredBit(a: nat, n: nat, i: nat)
    ensures a / Pow2(n) >= 0 && (Bit(a / Pow2(n), i) <==> Bit(a, i + n))
    decreases n
  {
    QuotientAtMost(a, Pow2(n));
    if n > 0 {
      LoweredBit(a / 2, n - 1, i);
      HalfFirst(a, Pow2(n - 1));
    }
  }

  lemma HalfFirst(a: nat, p: nat)
    requires p > 0
    ensures (a / 2) / p == a / (2 * p)
  {
    var h := a / 2;
    var q, r := h / p, h % p;
    assert h == p * q + r;
    assert a == (2 * p) * q + (2 * r + a % 2) by {
      assert (2 * p) * q == 2 * (p * q);
    }
    QuotientUnique(a, 2 * p, q, 2 * r + a % 2);
  }

  lemma QuotientUnique(v: int, d: int, q: int, r: int)
    requires d > 0 && 0 <= r < d && v == d * q + r
    ensures v / d == q
  {
    var q', r' := v / d, v % d;
    assert v == d * q' + r';
    ProductGap(d, q', q);
    ProductGap(d, q, q');
  }

  /** Cutting to n bits keeps the bits below n. */
  lemma {:induction false} CutBit(a: nat, n: nat, i: nat)
    requires i < n
    ensures a % Pow2(n) >= 0 && (Bit(a % Pow2(n), i) <==> Bit(a, i))
    decreases n
  {
    var p := Pow2(n - 1);
    CutInTwo(a, p);
    if i > 0 {
      CutBit(a / 2, n - 1, i - 1);
    }
  }

  lemma CutInTwo(a: nat, p: nat)
    requires p > 0
    ensures 0 <= a % (2 * p) && (a % (2 * p)) % 2 == a % 2 && (a % (2 * p)) / 2 == (a / 2) % p
  {
    var h := a / 2;
    var q, r := h / p, h % p;
    assert h == p * q + r;
    assert a == (2 * p) * q + (2 * r + a % 2) by {
      assert (2 * p) * q == 2 * (p * q);
    }
    RemainderUnique(a, 2 * p, q, 2 * r + a % 2);
  }

  // ----- what the operations compute -----

  /** The quotient of x by y, and its remainder, as words. */
  ghost predicate Quotient(x: int, y: int, r: Word) {
    exists q, m :: Divides(x, y, q, m) && Represents(r, q)
  }

  ghost predicate Remainder(x: int, y: int, r: Word) {
    exists q, m :: Divides(x, y, q, m) && Represents(r, m)
  }

  ghost predicate InBoth(a: Word, b: Word, r: Word) {
    forall i: nat :: i < 64 ==> (Bit(r, i) <==> Bit(a, i) && Bit(b, i))
  }

  ghost predicate InEither(a: Word, b: Word, r: Word) {
    forall i: nat :: i < 64 ==> (Bit(r, i) <==> Bit(a, i) || Bit(b, i))
  }

  ghost predicate Inverted(a: Word, r: Word) {
    forall i: nat :: i < 64 ==> (Bit(r, i) <==> !Bit(a, i))
  }

  /** Bits move n places up, zeros come in. */
  ghost predicate Raised(a: Word, n: nat, r: Word) {
    forall i: nat :: i < 64 ==> (Bit(r, i) <==> n <= i && Bit(a, i - n))
  }

  ghost predicate Lowered(a: Word, n: nat, r: Word) {
    forall i: nat :: i < 64 ==> (Bit(r, i) <==> i + n < 64 && Bit(a, i + n))
  }

  predicate Truth(condition: bool, r: Word) {
    r == if condition then 1 else 0
  }

  ghost predicate Computes(op: BinaryOp, a: Word, b: Word, r: Word) {
    match op
    case AddInt => Represents(r, Signed(a) + Signed(b))
    case SubInt => Represents(r, Signed(a) - Signed(b))
    case MulInt => Represents(r, Signed(a) * Signed(b))
    case DivInt => Quotient(Signed(a), Signed(b), r)
    case ModInt => Remainder(Signed(a), Signed(b), r)
    case AddUInt => Represents(r, a + b)
    case SubUInt => Represents(r, a - b)
    case MulUInt => Represents(r, a * b)
    case DivUInt => Quotient(a, b, r)
    case ModUInt => Remainder(a, b, r)
    case LogicAnd => Truth(a != 0 && b != 0, r)
    case LogicOr => Truth(a != 0 || b != 0, r)
    case BitwiseOr => InEither(a, b, r)
    case BitwiseAnd => InBoth(a, b, r)
    case OffsetLeft => Raised(a, b % 64, r)
    case OffsetRight => Lowered(a, b % 64, r)
  }

  predicate IsDivision(op: BinaryOp) {
    op == DivInt || op == ModInt || op == DivUInt || op == ModUInt
  }

  // ----- they compute that -----

  lemma RepresentedOnce(x: int, r: Word, r': Word)
    requires Represents(r, x) && Represents(r', x)
    ensures r == r'
  {
    WrapIsExact(r, x);
    WrapIsExact(r', x);
  }

  lemma UnsignedDivides(a: nat, b: nat)
    requires b != 0
    ensures Divides(a, b, a / b, a % b)
  {
    assert a == b * (a / b) + a % b;
  }

  lemma DivisionComputes(x: int, y: int, q: int, m: int, r: Word)
    requires Divides(x, y, q, m)
    ensures r == Wrap(q) ==> Quotient(x, y, r)
    ensures r == Wrap(m) ==> Remainder(x, y, r)
  {
    WrapIsExact(r, q);
    WrapIsExact(r, m);
  }

  lemma WordBits(a: Word)
    ensures a < Pow2(64)
  {
    Pow2Of64();
  }

  lemma BitsCompute(a: Word, b: Word)
    ensures InBoth(a, b, BitAnd(a, b)) && InEither(a, b, BitOr(a, b)) && Inverted(a, BitNot(a))
  {
    WordBits(a);
    Pow2Of64();
    forall i: nat | i < 64
      ensures Bit(BitAnd(a, b), i) <==> Bit(a, i) && Bit(b, i)
      ensures Bit(BitOr(a, b), i) <==> Bit(a, i) || Bit(b, i)
      ensures Bit(BitNot(a), i) <==> !Bit(a, i)
    {
      CommonBit(a, b, 64, i);
      JoinedBit(a, b, 64, i);
      OtherBit(a, 64, i);
    }
  }

  lemma ShiftsCompute(a: Word, b: Word)
    ensures Raised(a, b % 64, ShiftLeft(a, b)) && Lowered(a, b % 64, ShiftRight(a, b))
  {
    WordBits(a);
    Pow2Of64();
    var n := b % 64;
    forall i: nat | i < 64
      ensures Bit(ShiftLeft(a, b), i) <==> n <= i && Bit(a, i - n)
      ensures Bit(ShiftRight(a, b), i) <==> i + n < 64 && Bit(a, i + n)
    {
      CutBit(a * Pow2(n), 64, i);
      RaisedBit(a, n, i);
      LoweredBit(a, n, i);
      if i + n >= 64 {
        NoBitAbove(a, 64, i + n);
      }
    }
  }

  lemma BinaryComputes(op: BinaryOp, a: Word, b: Word)
    ensures EvalBinary(op, a, b).None? <==> b == 0 && IsDivision(op)
    ensures EvalBinary(op, a, b).Some? ==> Computes(op, a, b, EvalBinary(op, a, b).value)
  {
    hide BitAnd, BitOr, ShiftLeft, ShiftRight, Quotient, Remainder, InBoth, InEither, Raised, Lowered, TruncDiv, TruncMod, Wrap, Represents;
    BitsCompute(a, b);
    ShiftsCompute(a, b);
    var r := EvalBinary(op, a, b);
    if r.Some? {
      if op == DivInt || op == ModInt {
        TruncDivides(Signed(a), Signed(b));
        DivisionComputes(Signed(a), Signed(b), TruncDiv(Signed(a), Signed(b)), TruncMod(Signed(a), Signed(b)), r.value);
      } else if op == DivUInt || op == ModUInt {
        UnsignedDivides(a, b);
        DivisionComputes(a, b, a / b, a % b, r.value);
      } else {
        WrapIsExact(r.value, Signed(a) + Signed(b));
        WrapIsExact(r.value, Signed(a) - Signed(b));
        WrapIsExact(r.value, Signed(a) * Signed(b));
        WrapIsExact(r.value, a + b);
        WrapIsExact(r.value, a - b);
        WrapIsExact(r.value, a * b);
      }
    }
  }

  lemma QuotientOnce(x: int, y: int, r: Word, r': Word)
    ensures Quotient(x, y, r) && Quotient(x, y, r') ==> r == r'
    ensures Remainder(x, y, r) && Remainder(x, y, r') ==> r == r'
    ensures y == 0 ==> !Quotient(x, y, r) && !Remainder(x, y, r)
  {
    hide Divides, Represents;
    if Quotient(x, y, r) && Quotient(x, y, r') {
      var q, m :| Divides(x, y, q, m) && Represents(r, q);
      var q', m' :| Divides(x, y, q', m') && Represents(r', q');
      DividesOnce(x, y, q, m, q', m');
      RepresentedOnce(q, r, r');
    }
    if Remainder(x, y, r) && Remainder(x, y, r') {
      var q, m :| Divides(x, y, q, m) && Represents(r, m);
      var q', m' :| Divides(x, y, q', m') && Represents(r', m');
      DividesOnce(x, y, q, m, q', m');
      RepresentedOnce(m, r, r');
    }
    if y == 0 {
      NeverByZero(x);
    }
  }

  lemma NeverByZero(x: int)
    ensures forall q, m :: !Divides(x, 0, q, m)
  {
  }

  lemma BitsOnce(r: Word, r': Word)
    requires forall i: nat :: i < 64 ==> (Bit(r, i) <==> Bit(r', i))
    ensures r == r'
  {
    Pow2Of64();
    SameBits(r, r', 64);
  }

  lemma ComputesOnce(op: BinaryOp, a: Word, b: Word, r: Word, r': Word)
    requires Computes(op, a, b, r) && Computes(op, a, b, r')
    ensures r == r'
  {
    hide Quotient, Remainder, Represents, Signed;
    match op {
      case AddInt => RepresentedOnce(Signed(a) + Signed(b), r, r');
      case SubInt => RepresentedOnce(Signed(a) - Signed(b), r, r');
      case MulInt => RepresentedOnce(Signed(a) * Signed(b), r, r');
      case DivInt => QuotientOnce(Signed(a), Signed(b), r, r');
      case ModInt => QuotientOnce(Signed(a), Signed(b), r, r');
      case AddUInt => RepresentedOnce(a + b, r, r');
      case SubUInt => RepresentedOnce(a - b, r, r');
      case MulUInt => RepresentedOnce(a * b, r, r');
      case DivUInt => QuotientOnce(a, b, r, r');
      case ModUInt => QuotientOnce(a, b, r, r');
      case LogicAnd =>
      case LogicOr =>
      case BitwiseOr => BitsOnce(r, r');
      case BitwiseAnd => BitsOnce(r, r');
      case OffsetLeft => BitsOnce(r, r');
      case OffsetRight => BitsOnce(r, r');
    }
  }

  /**
   * An operation gives a word exactly when that is the integer sum, difference, product, quotient or remainder modulo 2^64, the truth value,
   * or the word with the bits in question; it gives none exactly when it divides by zero.
   */
  lemma BinaryIsExact(op: BinaryOp, a: Word, b: Word, r: Word)
    ensures EvalBinary(op, a, b) == Some(r) <==> Computes(op, a, b, r)
    ensures EvalBinary(op, a, b) == None <==> b == 0 && IsDivision(op)
  {
    hide EvalBinary, Quotient, Remainder, Represents, InBoth, InEither, Raised, Lowered;
    BinaryComputes(op, a, b);
    if Computes(op, a, b, r) {
      if EvalBinary(op, a, b).Some? {
        ComputesOnce(op, a, b, r, EvalBinary(op, a, b).value);
      } else {
        QuotientOnce(a, b, r, r);
        QuotientOnce(Signed(a), Signed(b), r, r);
        assert false;
      }
    }
  }

  ghost predicate ComputesUnary(op: UnaryOp, a: Word, r: Word) {
    match op
    case NegInt => Represents(r, -Signed(a))
    case LogicNot => Truth(a == 0, r)
    case BitwiseNot => Inverted(a, r)
  }

  lemma UnaryIsExact(op: UnaryOp, a: Word, r: Word)
    ensures EvalUnary(op, a) == r <==> ComputesUnary(op, a, r)
  {
    hide BitNot;
    match op {
      case NegInt => WrapIsExact(r, -Signed(a));
      case LogicNot =>
      case BitwiseNot =>
        BitsCompute(a, a);
        if Inverted(a, r) {
          BitsOnce(r, BitNot(a));
        }
    }
  }

  // ----- laws between operations -----

  function Do(op: BinaryOp, a: Word, b: Word): Word
    requires !IsDivision(op) || b != 0
  {
    EvalBinary(op, a, b).value
  }

  lemma WrapNear(x: int)
    requires 0 - TWO64 <= x < 2 * TWO64
    ensures Wrap(x) == if x < 0 then x + TWO64 else if x < TWO64 then x else x - TWO64
  {
  }

  lemma WrapBack(a: Word, b: Word)
    ensures Wrap(Wrap(a - b) + b) == a && Wrap(Wrap(a + b) - b) == a
  {
    WrapNear(a + b);
    WrapNear(a - b);
    WrapNear(Wrap(a - b) + b);
    WrapNear(Wrap(a + b) - b);
  }

  lemma SignedWraps(a: Word, b: Word)
    ensures Wrap(Signed(a) + Signed(b)) == Wrap(a + b) && Wrap(Signed(a) - Signed(b)) == Wrap(a - b)
  {
    hide Wrap;
    WrapNear(a + b);
    WrapNear(a - b);
    WrapNear(Signed(a) + Signed(b));
    WrapNear(Signed(a) - Signed(b));
  }

  lemma SumsWrap(a: Word, b: Word)
    ensures Do(AddInt, a, b) == Do(AddUInt, a, b) == Wrap(a + b) && Do(SubInt, a, b) == Do(SubUInt, a, b) == Wrap(a - b)
  {
    hide Wrap, Signed;
    SignedWraps(a, b);
  }

  /** Differences undo sums, and signed and unsigned sums and differences of the same words agree. */
  lemma SumsUndone(a: Word, b: Word)
    ensures Do(AddInt, Do(SubInt, a, b), b) == a && Do(SubInt, Do(AddInt, a, b), b) == a
    ensures Do(AddUInt, Do(SubUInt, a, b), b) == a && Do(SubUInt, Do(AddUInt, a, b), b) == a
    ensures Do(AddInt, a, b) == Do(AddUInt, a, b) && Do(SubInt, a, b) == Do(SubUInt, a, b)
  {
    hide Do, Wrap;
    SumsWrap(a, b);
    SumsWrap(Wrap(a + b), b);
    SumsWrap(Wrap(a - b), b);
    WrapBack(a, b);
  }

  /** Negation is subtraction from zero and undoes itself, like the complement, which is one less. */
  lemma NegationsUndone(a: Word)
    ensures EvalUnary(NegInt, a) == Do(SubInt, 0, a) && EvalUnary(NegInt, EvalUnary(NegInt, a)) == a
    ensures EvalUnary(BitwiseNot, EvalUnary(BitwiseNot, a)) == a && EvalUnary(NegInt, a) == Do(AddUInt, EvalUnary(BitwiseNot, a), 1)
  {
    hide Do, Wrap;
    SumsWrap(0, a);
    SumsWrap(EvalUnary(BitwiseNot, a), 1);
    WrapNear(-Signed(a));
    WrapNear(-Signed(EvalUnary(NegInt, a)));
    WrapNear(0 - a);
    WrapNear(EvalUnary(BitwiseNot, a) + 1);
  }

  lemma HalfAtMost(a: nat, b: nat)
    requires b >= 2
    ensures 0 <= 2 * (a / b) <= a
  {
    var q := a / b;
    assert a == b * q + a % b;
    assert (b - 2) * q >= 0;
  }

  /** A quotient is at most the dividend, so that only -2^63 divided by -1 leaves the range. */
  lemma QuotientRange(x: int, y: int)
    requires y != 0 && 0 - TWO63 <= x < TWO63
    ensures 0 - TWO63 <= TruncDiv(x, y) <= TWO63
    ensures TruncDiv(x, y) == TWO63 <==> x == 0 - TWO63 && y == -1
  {
    var a, b := Abs(x), Abs(y);
    if b == 1 {
      assert a / b == a;
    } else {
      HalfAtMost(a, b);
    }
  }

  lemma QuotientSigned(q: int)
    requires 0 - TWO63 <= q <= TWO63
    ensures Signed(Wrap(q)) == if q == TWO63 then 0 - TWO63 else q
  {
    WrapNear(q);
  }

  lemma QuotientsWrap(a: Word, b: Word)
    requires b != 0
    ensures Do(DivInt, a, b) == Wrap(TruncDiv(Signed(a), Signed(b))) && Do(ModInt, a, b) == Wrap(TruncMod(Signed(a), Signed(b)))
    ensures forall q: Word, m: Word :: Do(AddInt, Do(MulInt, q, b), m) == Wrap(Signed(Wrap(Signed(q) * Signed(b))) + Signed(m))
  {
    hide TruncDiv, TruncMod, Wrap, Signed;
  }

  /**
   * Dividend is quotient times divisor plus remainder: as machine words always, as integers except for -2^63 divided by -1. The remainder is
   * smaller than the divisor and has the dividend's sign or is 0.
   */
  lemma SignedDivisionUndone(a: Word, b: Word)
    requires b != 0
    ensures var q, m := Do(DivInt, a, b), Do(ModInt, a, b);
            && Do(AddInt, Do(MulInt, q, b), m) == a
            && (Signed(a) == Signed(q) * Signed(b) + Signed(m) <==> !(a == TWO63 && b == TWO64 - 1))
            && Abs(Signed(m)) < Abs(Signed(b)) && (m != 0 ==> (Signed(m) < 0 <==> Signed(a) < 0))
  {
    hide TruncDiv, TruncMod, Do, Wrap;
    var x, y := Signed(a), Signed(b);
    TruncDivides(x, y);
    QuotientRange(x, y);
    var t, m := TruncDiv(x, y), TruncMod(x, y);
    QuotientSigned(t);
    QuotientSigned(m);
    QuotientsWrap(a, b);
    if a == TWO63 && b == TWO64 - 1 {
      Overflow(a);
    } else {
      BackAgain(t * y, m, a);
    }
    WrapZero(m);
  }

  lemma WrapZero(m: int)
    requires 0 - TWO63 <= m <= TWO63
    ensures Wrap(m) == 0 <==> m == 0
  {
    WrapNear(m);
  }

  lemma Overflow(a: Word)
    requires a == TWO63
    ensures Signed(a) == 0 - TWO63 && Wrap(Signed(Wrap(Signed(a) * -1)) + 0) == a && Wrap(0) == 0
  {
  }

  lemma UnsignedDivisionUndone(a: Word, b: Word)
    requires b != 0
    ensures var q, m := Do(DivUInt, a, b), Do(ModUInt, a, b); a == q * b + m && m < b
  {
    UnsignedQuotient(a, b);
  }

  lemma UnsignedQuotient(a: Word, b: Word)
    requires b != 0
    ensures Do(DivUInt, a, b) == a / b && Do(ModUInt, a, b) == a % b && a == (a / b) * b + a % b
  {
    QuotientAtMost(a, b);
  }

  lemma BackAgain(x: int, m: int, a: Word)
    requires x + m == Signed(a)
    ensures Wrap(Signed(Wrap(x)) + m) == a
  {
    var q := x / TWO64;
    assert x == TWO64 * q + Wrap(x);
    var k := if Wrap(x) < TWO63 then q else q + 1;
    assert Signed(Wrap(x)) + m == Signed(a) - TWO64 * k;
    assert Signed(a) - TWO64 * k == a - TWO64 * (if a < TWO63 then k else k + 1);
    RemainderUnique(Signed(Wrap(x)) + m, TWO64, 0 - (if a < TWO63 then k else k + 1), a);
  }

  lemma ShiftParts(a: Word, n: Word)
    requires n < 64
    ensures Do(OffsetLeft, a, n) == Wrap(a * Pow2(n)) && Do(OffsetRight, a, n) == a / Pow2(n)
  {
    hide Pow2, Wrap;
    assert n % 64 == n;
  }

  /** Shifting multiplies and divides by a power of two. */
  lemma ShiftsScale(a: Word, n: Word)
    requires n < 64
    ensures Represents(Do(OffsetLeft, a, n), a * Pow2(n)) && Divides(a, Pow2(n), Do(OffsetRight, a, n), a % Pow2(n))
  {
    hide Pow2, Represents, Divides, Wrap, EvalBinary;
    ShiftParts(a, n);
    WrapIsExact(Do(OffsetLeft, a, n), a * Pow2(n));
    UnsignedDivides(a, Pow2(n));
  }

  /** Within range, signed results are the integer ones. */
  lemma InRangeIsInteger(a: Word, b: Word)
    ensures var x := Signed(a) + Signed(b); 0 - TWO63 <= x < TWO63 ==> Signed(Do(AddInt, a, b)) == x
    ensures var x := Signed(a) - Signed(b); 0 - TWO63 <= x < TWO63 ==> Signed(Do(SubInt, a, b)) == x
    ensures var x := Signed(a) * Signed(b); 0 - TWO63 <= x < TWO63 ==> Signed(Do(MulInt, a, b)) == x
  {
    BinaryIsExact(AddInt, a, b, Do(AddInt, a, b));
    BinaryIsExact(SubInt, a, b, Do(SubInt, a, b));
    BinaryIsExact(MulInt, a, b, Do(MulInt, a, b));
    SignedIsExact(Do(AddInt, a, b), Signed(a) + Signed(b));
    SignedIsExact(Do(SubInt, a, b), Signed(a) - Signed(b));
    SignedIsExact(Do(MulInt, a, b), Signed(a) * Signed(b));
  }

  // ----- comparison -----

  /**
   * Words are equal as words. Unsigned order is that of the words; signed order puts the words from 2^63 on before the others. One of less,
   * equal and greater holds, and the other three relations are their negations.
   */
  lemma OrderIsExact(signed: bool, a: Word, b: Word)
    ensures Compare(Equal, signed, a, b) <==> a == b
    ensures Compare(Less, false, a, b) <==> a < b
    ensures Compare(Less, true, a, b) <==> if a < TWO63 <==> b < TWO63 then a < b else b < TWO63
    ensures Compare(Greater, signed, a, b) <==> Compare(Less, signed, b, a)
    ensures Compare(NotEqual, signed, a, b) <==> !Compare(Equal, signed, a, b)
    ensures Compare(LessEqual, signed, a, b) <==> !Compare(Greater, signed, a, b)
    ensures Compare(GreaterEqual, signed, a, b) <==> !Compare(Less, signed, a, b)
    ensures (if Compare(Less, signed, a, b) then 1 else 0) + (if Compare(Equal, signed, a, b) then 1 else 0)
          + (if Compare(Greater, signed, a, b) then 1 else 0) == 1
    ensures Compare(Less, true, TWO64 - 1, 1) && Compare(Greater, false, TWO64 - 1, 1)
  {
  }
}
