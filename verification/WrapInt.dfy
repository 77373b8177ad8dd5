// Fixed-width integers on 64-bit machine words (ahorn/extern/crab/lib/wrapint.cpp).

module WrapInt {
  import opened Ir

  // ---------- machine words ----------

  const WordModulus := 0x1_0000_0000_0000_0000

  // Conversion to uint64_t.
  function Word(x: int): int {
    x % WordModulus
  }

  function Power(k: nat): (r: int)
    ensures r > 0
  {
    if k == 0 then 1 else 2 * Power(k - 1)
  }

  function ShiftLeft(a: int, k: nat): int {
    Word(a * Power(k))
  }

  function And(a: nat, b: nat): nat {
    if a == 0 || b == 0 then 0 else 2 * And(a / 2, b / 2) + (if a % 2 == 1 && b % 2 == 1 then 1 else 0)
  }

  function Or(a: nat, b: nat): nat {
    if a == 0 && b == 0 then 0 else 2 * Or(a / 2, b / 2) + (if a % 2 == 1 || b % 2 == 1 then 1 else 0)
  }

  function Xor(a: nat, b: nat): nat {
    if a == 0 && b == 0 then 0 else 2 * Xor(a / 2, b / 2) + (if a % 2 != b % 2 then 1 else 0)
  }

  // ---------- residues ----------

  lemma {:induction false} ModUnique(x: int, q: int, r: int, m: int)
    requires m > 0 && x == q * m + r && 0 <= r < m
    ensures x % m == r
  {
    var d := q - x / m;
    assert d * m == x % m - r;
    assert d >= 1 ==> d * m >= m;
    assert d <= -1 ==> d * m <= -m;
  }

  lemma {:induction false} ModShift(x: int, k: int, m: int)
    requires m > 0
    ensures (x + k * m) % m == x % m
  {
    assert x + k * m == (x / m + k) * m + x % m;
    ModUnique(x + k * m, x / m + k, x % m, m);
  }

  lemma {:induction false} ModOfMod(x: int, m: int, k: int)
    requires m > 0 && k > 0
    ensures m * k > 0 && (x % (m * k)) % m == x % m
  {
    var q := x / (m * k);
    assert x % (m * k) == x + (-q * k) * m;
    ModShift(x, -q * k, m);
  }

  lemma {:induction false} ModSum(a: int, b: int, m: int, p: int, q: int)
    requires m > 0 && p == a % m && q == b % m
    ensures (p + q) % m == (a + b) % m
  {
    assert p + q == a + b + (-(a / m) - b / m) * m;
    ModShift(a + b, -(a / m) - b / m, m);
  }

  lemma {:induction false} ModDifference(a: int, b: int, m: int, p: int, q: int)
    requires m > 0 && p == a % m && q == b % m
    ensures (p - q) % m == (a - b) % m
  {
    assert p - q == a - b + (b / m - a / m) * m;
    ModShift(a - b, b / m - a / m, m);
  }

  lemma {:induction false} ModProduct(a: int, b: int, m: int, p: int, q: int)
    requires m > 0 && p == a % m && q == b % m
    ensures (p * q) % m == (a * b) % m
  {
    var c, d := a / m, b / m;
    var k := c * d * m - a * d - c * b;
    assert p * q == a * b + k * m by {
      assert p == a - c * m && q == b - d * m;
      assert (a - c * m) * (b - d * m) == a * b + (c * d * m - a * d - c * b) * m;
    }
    ModShift(a * b, k, m);
  }

  // ---------- bits ----------

  lemma {:induction false} PowerAdd(a: nat, b: nat)
    ensures Power(a + b) == Power(a) * Power(b)
    decreases a
  {
    if a > 0 {
      PowerAdd(a - 1, b);
      assert Power(a + b) == 2 * Power(a - 1 + b);
    }
  }

  lemma {:induction false} UsualPowers()
    ensures Power(8) == 256 && Power(16) == 65536 && Power(32) == 4294967296
    ensures Power(63) == 0x8000_0000_0000_0000 && Power(64) == WordModulus
  {
    assert Power(8) == 256;
    PowerAdd(8, 8);
    PowerAdd(16, 16);
    PowerAdd(32, 32);
  }

  lemma {:induction false} PowerMonotone(a: nat, b: nat)
    requires a <= b
    ensures Power(a) <= Power(b)
    ensures a < b ==> Power(a) < Power(b)
    decreases b
  {
    if a < b {
      PowerMonotone(a, b - 1);
    }
  }

  lemma {:induction false} PowerOfWord(w: nat)
    requires w <= 64
    ensures Power(w) <= WordModulus
    ensures w < 64 ==> Power(w) < WordModulus
  {
    UsualPowers();
    PowerMonotone(w, 64);
  }

  lemma {:induction false} WordSplit(w: nat)
    requires w <= 64
    ensures WordModulus == Power(w) * Power(64 - w)
  {
    UsualPowers();
    PowerAdd(w, 64 - w);
  }

  lemma {:induction false} SmallWord(x: int)
    requires 0 <= x < WordModulus
    ensures Word(x) == x
  {
  }

  // A word reduced to a narrower width.
  lemma {:induction false} WordReduced(x: int, w: nat)
    requires w <= 64
    ensures Word(x) % Power(w) == x % Power(w)
  {
    WordSplit(w);
    ModOfMod(x, Power(w), Power(64 - w));
  }

  lemma {:induction false} XorOnes(n: nat, w: nat)
    requires n < Power(w)
    ensures Xor(n, Power(w) - 1) == Power(w) - 1 - n
  {
    if w > 0 {
      XorOnes(n / 2, w - 1);
      assert (Power(w) - 1) / 2 == Power(w - 1) - 1 && (Power(w) - 1) % 2 == 1;
    }
  }

  lemma {:induction false} AndTopBit(n: nat, k: nat)
    requires n < 2 * Power(k)
    ensures And(n, Power(k)) != 0 <==> n >= Power(k)
  {
    if k > 0 {
      AndTopBit(n / 2, k - 1);
    }
  }

  // Bits that do not overlap are added.
  lemma {:induction false} OrDisjoint(n: nat, u: nat, w: nat)
    requires n < Power(w)
    ensures Or(n, u * Power(w)) == n + u * Power(w)
  {
    if w == 0 {
      OrZero(u);
    } else {
      OrDisjoint(n / 2, u, w - 1);
      assert u * Power(w) == 2 * (u * Power(w - 1));
    }
  }

  lemma {:induction false} OrZero(u: nat)
    ensures Or(0, u) == u
  {
    if u > 0 {
      OrZero(u / 2);
    }
  }

  // ---------- numbers ----------

  datatype Number = Number(n: int, width: int, modulus: int)

  predicate WidthOk(w: int) {
    1 <= w <= 64
  }

  // _mod: a constant for the usual widths, 0 for 64 bits.
  function ModulusOf(w: int): int
    requires WidthOk(w)
  {
    if w == 8 then 256
    else if w == 16 then 65536
    else if w == 32 then 4294967296
    else if w == 64 then 0
    else ShiftLeft(1, w)
  }

  predicate Valid(x: Number) {
    WidthOk(x.width) && x.modulus == ModulusOf(x.width) && 0 <= x.n < Power(x.width)
  }

  // A word, reduced unless the width is that of the word.
  function Reduced(n: int, w: int, modulus: int): int
    requires w != 64 ==> modulus != 0
  {
    if w == 64 then n else n % modulus
  }

  lemma {:induction false} ModulusIsPower(w: int)
    requires WidthOk(w)
    ensures ModulusOf(w) == if w == 64 then 0 else Power(w)
  {
    UsualPowers();
    if w < 64 {
      PowerOfWord(w);
      SmallWord(Power(w));
      assert ShiftLeft(1, w) == Power(w);
    }
  }

  lemma {:induction false} ReducedMeans(v: int, w: int)
    requires WidthOk(w)
    ensures w != 64 ==> ModulusOf(w) != 0
    ensures Reduced(Word(v), w, ModulusOf(w)) == v % Power(w)
  {
    ModulusIsPower(w);
    WordReduced(v, w);
    UsualPowers();
  }

  // wrapint(uint64_t, width)
  function FromWord(n: int, w: int): Option<Number>
    requires 0 <= n < WordModulus
  {
    if !WidthOk(w) then None
    else
      ModulusIsPower(w);
      Some(Number(Reduced(n, w, ModulusOf(w)), w, ModulusOf(w)))
  }

  predicate FitsInt64(z: int) {
    -0x8000_0000_0000_0000 <= z < 0x8000_0000_0000_0000
  }

  // wrapint(z_number, width)
  function FromNumber(z: int, w: int): Option<Number> {
    if !WidthOk(w) || !FitsInt64(z) then None
    else
      ModulusIsPower(w);
      Some(Number(Reduced(Word(z), w, ModulusOf(w)), w, ModulusOf(w)))
  }

  function UnsignedMax(w: int): int
    requires WidthOk(w)
  {
    if w == 64 then WordModulus - 1 else ModulusOf(w) - 1
  }

  predicate Msb(x: Number)
    requires Valid(x)
  {
    And(x.n, Power(x.width - 1)) != 0
  }

  // get_signed_bignum: two's complement.
  function Signed(x: Number): int
    requires Valid(x)
  {
    ModulusIsPower(x.width);
    if Msb(x) then -(Xor(x.n, UnsignedMax(x.width)) + 1) else x.n
  }

  // The result of an operation on words, at the width of x.
  function AtWidth(x: Number, v: int): Number
    requires Valid(x)
  {
    ModulusIsPower(x.width);
    x.(n := Reduced(Word(v), x.width, x.modulus))
  }

  function Plus(x: Number, y: Number): Option<Number>
    requires Valid(x) && Valid(y)
  {
    if x.width != y.width then None else Some(AtWidth(x, x.n + y.n))
  }

  function Minus(x: Number, y: Number): Option<Number>
    requires Valid(x) && Valid(y)
  {
    if x.width != y.width then None else Some(AtWidth(x, x.n - y.n))
  }

  function Times(x: Number, y: Number): Option<Number>
    requires Valid(x) && Valid(y)
  {
    if x.width != y.width then None else Some(AtWidth(x, x.n * y.n))
  }

  function Negate(x: Number): Number
    requires Valid(x)
  {
    AtWidth(x, -x.n)
  }

  // Division of big numbers, towards zero.
  function Quotient(a: int, b: int): int
    requires b != 0
  {
    var q := Absolute(a) / Absolute(b);
    if (a < 0) == (b < 0) then q else -q
  }

  function Remainder(a: int, b: int): int
    requires b != 0
  {
    var r := Absolute(a) % Absolute(b);
    if a < 0 then -r else r
  }

  function Absolute(a: int): nat {
    if a < 0 then -a else a
  }

  lemma {:induction false} SignedNotZero(x: Number)
    requires Valid(x) && x.n != 0
    ensures Signed(x) != 0
  {
    SignedMeans(x);
  }

  function SDiv(x: Number, y: Number): Option<Number>
    requires Valid(x) && Valid(y)
  {
    if x.width != y.width || y.n == 0 then None
    else
      SignedNotZero(y);
      FromNumber(Quotient(Signed(x), Signed(y)), x.width)
  }

  function SRem(x: Number, y: Number): Option<Number>
    requires Valid(x) && Valid(y)
  {
    if x.width != y.width || y.n == 0 then None
    else
      SignedNotZero(y);
      FromNumber(Remainder(Signed(x), Signed(y)), x.width)
  }

  // The shift by the old width is undefined in C++ if that is 64; None stands for it as well.
  function SExt(x: Number, bits: nat): Option<Number>
    requires Valid(x)
  {
    var wide := Word(x.width + bits);
    if wide > 64 || (Msb(x) && x.width == 64) then None
    else if Msb(x) then FromWord(SignBits(x, wide), wide)
    else
      PowerOfWord(x.width);
      FromWord(x.n, wide)
  }

  function SignBits(x: Number, wide: int): (r: int)
    requires Valid(x) && x.width < 64 && 0 <= wide <= 64
    ensures 0 <= r < WordModulus && r % Power(wide) == (x.n - Power(x.width)) % Power(wide)
  {
    var allOnes := if wide < 64 then ShiftLeft(1, wide) - 1 else WordModulus - 1;
    OnesOf(wide);
    UpperBits(x.n, allOnes, x.width);
    SignBitsMean(x.n, x.width, wide);
    Or(x.n, ShiftLeft(allOnes, x.width))
  }

  lemma {:induction false} OnesOf(wide: int)
    requires 0 <= wide <= 64
    ensures Power(wide) - 1 == if wide < 64 then ShiftLeft(1, wide) - 1 else WordModulus - 1
  {
    PowerOfWord(wide);
    UsualPowers();
  }

  // Bits shifted out of the word are lost; the others lie above n.
  lemma {:induction false} UpperBits(n: int, ones: nat, w: nat)
    requires 0 <= n < Power(w) && w <= 64
    ensures Or(n, ShiftLeft(ones, w)) == n + ShiftLeft(ones, w) < WordModulus
  {
    var p, k := Power(w), Power(64 - w);
    WordSplit(w);
    ShiftedOut(ones, p, k);
    OrDisjoint(n, ones % k, w);
  }

  lemma {:induction false} ShiftedOut(a: nat, p: int, k: int)
    requires p > 0 && k > 0
    ensures p * k > 0 && (a * p) % (p * k) == (a % k) * p <= p * k - p
  {
    var q, u := a / k, a % k;
    assert a * p == q * (p * k) + u * p by {
      assert a == q * k + u;
      assert (q * k + u) * p == q * (p * k) + u * p;
    }
    assert u * p <= (k - 1) * p == p * k - p;
    assert p * k >= p;
    ModUnique(a * p, q, u * p, p * k);
  }

  lemma {:induction false} SignBitsMean(n: int, w: nat, wide: nat)
    requires wide <= 64
    ensures (n + ShiftLeft(Power(wide) - 1, w)) % Power(wide) == (n - Power(w)) % Power(wide)
  {
    var m, p := Power(wide), Power(w);
    assert (n + ((m - 1) * p) % WordModulus) % m == (n - p) % m by {
      WordSplit(wide);
      OnesAdded(n, m, p, Power(64 - wide), WordModulus);
    }
    assert ShiftLeft(m - 1, w) == ((m - 1) * p) % WordModulus;
  }

  lemma {:induction false} OnesAdded(n: int, m: int, p: int, k: int, all: int)
    requires m > 0 && k > 0 && all == m * k && all > 0
    ensures (n + ((m - 1) * p) % all) % m == (n - p) % m
  {
    var v := (m - 1) * p;
    ModOfMod(v, m, k);
    ModSum(n, v % all, m, n % m, v % m);
    ModSum(n, v, m, n % m, v % m);
    assert n + v == n - p + p * m;
    ModShift(n - p, p, m);
  }

  function ZExt(x: Number, bits: nat): Option<Number>
    requires Valid(x)
  {
    var wide := Word(x.width + bits);
    PowerOfWord(x.width);
    if wide > 64 then None else FromWord(x.n, wide)
  }

  // ---------- what they compute ----------

  // The integers that w bits hold in two's complement.
  predicate InRange(v: int, w: int)
    requires WidthOk(w)
  {
    -Power(w - 1) <= v < Power(w - 1)
  }

  // Two's complement, as a number.
  function Value(x: Number): int
    requires Valid(x)
  {
    if x.n >= Power(x.width - 1) then x.n - Power(x.width) else x.n
  }

  // r is v modulo 2^w, and is v itself exactly if v fits.
  predicate Represents(r: Number, v: int, w: int) {
    && Valid(r) && r.width == w && r.n == v % Power(w)
    && (Value(r) == v <==> InRange(v, w)) && InRange(Value(r), w)
  }

  // The result of an operation, from the unsigned and from the signed view of its operands.
  predicate IsExact(r: Number, unsigned: int, signed: int, w: int) {
    Represents(r, signed, w) && r.n == unsigned % Power(w)
  }

  lemma {:induction false} SignedMeans(x: Number)
    requires Valid(x)
    ensures Signed(x) == Value(x)
    ensures InRange(Value(x), x.width) && Value(x) % Power(x.width) == x.n
  {
    SignedIsValue(x);
    ValueFits(x.n, x.width, Value(x));
  }

  lemma {:induction false} SignedIsValue(x: Number)
    requires Valid(x)
    ensures Signed(x) == Value(x)
  {
    ModulusIsPower(x.width);
    UsualPowers();
    AndTopBit(x.n, x.width - 1);
    XorOnes(x.n, x.width);
  }

  lemma {:induction false} ValueFits(n: int, w: int, v: int)
    requires WidthOk(w) && 0 <= n < Power(w) && v == if n >= Power(w - 1) then n - Power(w) else n
    ensures InRange(v, w) && v % Power(w) == n
  {
    ModUnique(v, if n >= Power(w - 1) then -1 else 0, n, Power(w));
  }

  lemma {:induction false} ResidueRepresents(r: Number, v: int)
    requires Valid(r) && r.n == v % Power(r.width)
    ensures Represents(r, v, r.width)
  {
    var w := r.width;
    SignedMeans(r);
    if InRange(v, w) {
      ModUnique(v, if v < 0 then -1 else 0, if v < 0 then v + Power(w) else v, Power(w));
    }
  }

  lemma {:induction false} FromNumberExact(z: int, w: int)
    ensures FromNumber(z, w) == None <==> !WidthOk(w) || !FitsInt64(z)
    ensures FromNumber(z, w).Some? ==> Represents(FromNumber(z, w).value, z, w)
  {
    if WidthOk(w) && FitsInt64(z) {
      ReducedMeans(z, w);
      ResidueRepresents(FromNumber(z, w).value, z);
    }
  }

  // Every signed value of a width up to 64 bits fits int64_t.
  lemma {:induction false} RangeFits(v: int, w: int)
    requires WidthOk(w) && InRange(v, w)
    ensures FitsInt64(v)
  {
    UsualPowers();
    PowerMonotone(w - 1, 63);
  }

  lemma {:induction false} SignedRoundTrip(x: Number)
    requires Valid(x)
    ensures FromNumber(Signed(x), x.width) == Some(x)
  {
    SignedMeans(x);
    RangeFits(Value(x), x.width);
    FromNumberExact(Value(x), x.width);
  }

  lemma {:induction false} SameResidue(x: Number)
    requires Valid(x)
    ensures Value(x) % Power(x.width) == x.n
  {
    SignedMeans(x);
  }

  lemma {:induction false} AtWidthExact(x: Number, v: int, signed: int)
    requires Valid(x) && v % Power(x.width) == signed % Power(x.width)
    ensures IsExact(AtWidth(x, v), v, signed, x.width)
  {
    ReducedMeans(v, x.width);
    ResidueRepresents(AtWidth(x, v), signed);
  }

  lemma {:induction false} PlusExact(x: Number, y: Number)
    requires Valid(x) && Valid(y)
    ensures Plus(x, y) == None <==> x.width != y.width
    ensures Plus(x, y).Some? ==> IsExact(Plus(x, y).value, x.n + y.n, Value(x) + Value(y), x.width)
  {
    if x.width == y.width {
      PlusResidue(x, y);
      AtWidthExact(x, x.n + y.n, Value(x) + Value(y));
    }
  }

  lemma {:induction false} PlusResidue(x: Number, y: Number)
    requires Valid(x) && Valid(y) && x.width == y.width
    ensures (x.n + y.n) % Power(x.width) == (Value(x) + Value(y)) % Power(x.width)
  {
    SameResidue(x);
    SameResidue(y);
    ModSum(Value(x), Value(y), Power(x.width), x.n, y.n);
  }

  lemma {:induction false} MinusExact(x: Number, y: Number)
    requires Valid(x) && Valid(y)
    ensures Minus(x, y) == None <==> x.width != y.width
    ensures Minus(x, y).Some? ==> IsExact(Minus(x, y).value, x.n - y.n, Value(x) - Value(y), x.width)
  {
    if x.width == y.width {
      MinusResidue(x, y);
      AtWidthExact(x, x.n - y.n, Value(x) - Value(y));
    }
  }

  lemma {:induction false} MinusResidue(x: Number, y: Number)
    requires Valid(x) && Valid(y) && x.width == y.width
    ensures (x.n - y.n) % Power(x.width) == (Value(x) - Value(y)) % Power(x.width)
  {
    SameResidue(x);
    SameResidue(y);
    ModDifference(Value(x), Value(y), Power(x.width), x.n, y.n);
  }

  lemma {:induction false} TimesExact(x: Number, y: Number)
    requires Valid(x) && Valid(y)
    ensures Times(x, y) == None <==> x.width != y.width
    ensures Times(x, y).Some? ==> IsExact(Times(x, y).value, x.n * y.n, Value(x) * Value(y), x.width)
  {
    if x.width == y.width {
      TimesResidue(x, y);
      AtWidthExact(x, x.n * y.n, Value(x) * Value(y));
    }
  }

  lemma {:induction false} TimesResidue(x: Number, y: Number)
    requires Valid(x) && Valid(y) && x.width == y.width
    ensures (x.n * y.n) % Power(x.width) == (Value(x) * Value(y)) % Power(x.width)
  {
    SameResidue(x);
    SameResidue(y);
    ModProduct(Value(x), Value(y), Power(x.width), x.n, y.n);
  }

  // Negation is exact for everything but the least number, and undoes itself.
  lemma {:induction false} NegateExact(x: Number)
    requires Valid(x)
    ensures IsExact(Negate(x), -x.n, -Value(x), x.width)
    ensures Value(Negate(x)) == -Value(x) <==> Value(x) != -Power(x.width - 1)
    ensures Negate(Negate(x)) == x
  {
    NegatedOnce(x);
    SignedMeans(x);
    NegateTwice(x);
  }

  lemma {:induction false} NegateTwice(x: Number)
    requires Valid(x)
    ensures Valid(Negate(x)) && Negate(Negate(x)) == x
  {
    NegateShape(x);
    NegateShape(Negate(x));
    NegatedBack(x.n, Power(x.width), Negate(x).n, Negate(Negate(x)).n);
  }

  lemma {:induction false} NegateShape(x: Number)
    requires Valid(x)
    ensures Valid(Negate(x)) && Negate(x).width == x.width && Negate(x).modulus == x.modulus
    ensures IsOpposite(Negate(x).n, x.n, Power(x.width))
  {
    NegatedOnce(x);
  }

  predicate IsOpposite(p: int, n: int, m: int) {
    m > 0 && p == -n % m
  }

  lemma {:induction false} NegatedOnce(x: Number)
    requires Valid(x)
    ensures IsExact(Negate(x), -x.n, -Value(x), x.width)
  {
    NegateResidue(x);
    AtWidthExact(x, -x.n, -Value(x));
  }

  lemma {:induction false} NegateResidue(x: Number)
    requires Valid(x)
    ensures -x.n % Power(x.width) == -Value(x) % Power(x.width)
  {
    SameResidue(x);
    NegatedResidue(Value(x), Power(x.width), x.n);
  }

  lemma {:induction false} NegatedResidue(v: int, m: int, n: int)
    requires m > 0 && n == v % m
    ensures -n % m == -v % m
  {
    assert -n == -v + (v / m) * m;
    ModShift(-v, v / m, m);
  }

  lemma {:induction false} NegatedBack(n: int, m: int, p: int, q: int)
    requires 0 <= n < m && IsOpposite(p, n, m) && IsOpposite(q, p, m)
    ensures q == n
  {
    NegatedResidue(-n, m, p);
    ModUnique(n, 0, n, m);
  }

  lemma {:induction false} SExtExact(x: Number, bits: nat)
    requires Valid(x) && x.width + bits < WordModulus
    ensures SExt(x, bits) == None <==> x.width + bits > 64 || (x.width == 64 && Value(x) < 0)
    ensures SExt(x, bits).Some? ==> Valid(SExt(x, bits).value) && SExt(x, bits).value.width == x.width + bits
    ensures SExt(x, bits).Some? ==> Value(SExt(x, bits).value) == Value(x)
  {
    var w, wide := x.width, x.width + bits;
    SmallWord(wide);
    AndTopBit(x.n, w - 1);
    if SExt(x, bits).Some? {
      var word := if Msb(x) then SignBits(x, wide) else x.n;
      SExtWord(x, wide, word);
      WordReads(word, wide, Value(x));
      WiderRange(x, wide);
    }
  }

  lemma {:induction false} SExtWord(x: Number, wide: int, word: int)
    requires Valid(x) && x.width <= wide <= 64 && (Msb(x) ==> x.width < 64)
    requires word == if Msb(x) then SignBits(x, wide) else x.n
    ensures 0 <= word < WordModulus && word % Power(wide) == Value(x) % Power(wide)
  {
    AndTopBit(x.n, x.width - 1);
    PowerOfWord(x.width);
  }

  lemma {:induction false} WordReads(word: int, w: int, v: int)
    requires 0 <= word < WordModulus && WidthOk(w) && word % Power(w) == v % Power(w)
    ensures FromWord(word, w).Some? && Represents(FromWord(word, w).value, v, w)
  {
    SmallWord(word);
    ReducedMeans(word, w);
    ResidueRepresents(FromWord(word, w).value, v);
  }

  lemma {:induction false} WiderRange(x: Number, wide: int)
    requires Valid(x) && x.width <= wide <= 64
    ensures InRange(Value(x), wide)
  {
    PowerMonotone(x.width - 1, wide - 1);
    assert InRange(Value(x), x.width);
  }

  lemma {:induction false} ZExtExact(x: Number, bits: nat)
    requires Valid(x) && x.width + bits < WordModulus
    ensures ZExt(x, bits) == None <==> x.width + bits > 64
    ensures ZExt(x, bits).Some? ==> Valid(ZExt(x, bits).value) && ZExt(x, bits).value.width == x.width + bits
    ensures ZExt(x, bits).Some? ==> ZExt(x, bits).value.n == x.n
  {
    var w, wide := x.width, x.width + bits;
    ModUnique(wide, 0, wide, WordModulus);
    if wide <= 64 {
      PowerOfWord(w);
      ReducedMeans(x.n, wide);
      ModUnique(x.n, 0, x.n, WordModulus);
      PowerMonotone(w, wide);
      ModUnique(x.n, 0, x.n, Power(wide));
    }
  }

  // ---------- signed division ----------

  predicate DividesTowardsZero(a: int, b: int, q: int, r: int) {
    && a == q * b + r && Absolute(r) < Absolute(b)
    && (r != 0 ==> (r < 0) == (a < 0))
  }

  lemma {:induction false} DivisionOfNumbers(a: int, b: int)
    requires b != 0
    ensures DividesTowardsZero(a, b, Quotient(a, b), Remainder(a, b))
    ensures QuotientSmall(a, b, Quotient(a, b)) && Absolute(Remainder(a, b)) <= Absolute(a)
  {
    var p: int, d: int := Absolute(a), Absolute(b);
    DivisionRebuilds(p, d);
    NaturalDivision(p, d, p / d, p % d);
    SignsOf(a, b, p / d, p % d);
  }

  lemma {:induction false} DivisionRebuilds(p: int, d: int)
    requires d > 0
    ensures p == (p / d) * d + p % d && 0 <= p % d < d
  {
  }

  lemma {:induction false} SignsOf(a: int, b: int, q: int, r: int)
    requires b != 0 && Absolute(a) == q * Absolute(b) + r && 0 <= r < Absolute(b)
    ensures DividesTowardsZero(a, b, if (a < 0) == (b < 0) then q else -q, if a < 0 then -r else r)
  {
    assert q * -b == -(q * b) && -q * b == -(q * b);
  }

  predicate QuotientSmall(a: int, b: int, q: int) {
    && (b == 1 ==> q == a) && (b == -1 ==> q == -a)
    && (Absolute(b) > 1 ==> q == a == 0 || Absolute(q) < Absolute(a))
  }

  lemma {:induction false} NaturalDivision(p: int, d: int, q: int, r: int)
    requires p >= 0 && d > 0 && p == q * d + r && 0 <= r < d
    ensures 0 <= q && r <= p
    ensures d == 1 ==> q == p
    ensures d > 1 ==> q == p == 0 || q < p
  {
    assert q <= -1 ==> q * d <= -d;
    assert q >= 0 ==> q * d >= q;
    assert q >= 0 && d >= 2 ==> q * d >= q * 2;
  }

  // The only quotient that does not fit: the least number divided by -1.
  predicate Overflows(x: Number, y: Number)
    requires Valid(x) && Valid(y)
  {
    Value(x) == -Power(x.width - 1) && Value(y) == -1
  }

  lemma {:induction false} QuotientFits(x: Number, y: Number)
    requires Valid(x) && Valid(y) && x.width == y.width && y.n != 0
    ensures Value(y) != 0
    ensures InRange(Quotient(Value(x), Value(y)), x.width) <==> !Overflows(x, y)
    ensures InRange(Remainder(Value(x), Value(y)), x.width)
  {
    SignedMeans(x);
    SignedMeans(y);
    DivisionOfNumbers(Value(x), Value(y));
    QuotientInRange(Value(x), Value(y), Quotient(Value(x), Value(y)), Power(x.width - 1));
    RemainderInRange(Value(x), Value(y), Remainder(Value(x), Value(y)), Power(x.width - 1));
  }

  lemma {:induction false} QuotientInRange(a: int, b: int, q: int, p: int)
    requires -p <= a < p && b != 0 && QuotientSmall(a, b, q)
    ensures -p <= q < p <==> !(a == -p && b == -1)
  {
  }

  lemma {:induction false} RemainderInRange(a: int, b: int, r: int, p: int)
    requires -p <= a < p && Absolute(r) <= Absolute(a) && (r != 0 ==> (r < 0) == (a < 0))
    ensures -p <= r < p
  {
  }

  lemma {:induction false} SRemIs(x: Number, y: Number)
    requires Valid(x) && Valid(y) && x.width == y.width && y.n != 0
    ensures Value(y) != 0 && SRem(x, y) == FromNumber(Remainder(Value(x), Value(y)), x.width)
  {
    SignedMeans(x);
    SignedMeans(y);
    SignedNotZero(y);
  }

  lemma {:induction false} SDivIs(x: Number, y: Number)
    requires Valid(x) && Valid(y) && x.width == y.width && y.n != 0
    ensures Value(y) != 0 && SDiv(x, y) == FromNumber(Quotient(Value(x), Value(y)), x.width)
  {
    SignedMeans(x);
    SignedMeans(y);
    SignedNotZero(y);
  }

  lemma {:induction false} InRangeConverts(z: int, w: int)
    requires WidthOk(w) && InRange(z, w)
    ensures FromNumber(z, w).Some? && Represents(FromNumber(z, w).value, z, w)
  {
    RangeFits(z, w);
    FromNumberExact(z, w);
  }

  lemma {:induction false} SRemExact(x: Number, y: Number)
    requires Valid(x) && Valid(y)
    ensures SRem(x, y) == None <==> x.width != y.width || y.n == 0
    ensures SRem(x, y).Some? ==> Value(y) != 0 && Represents(SRem(x, y).value, Remainder(Value(x), Value(y)), x.width)
    ensures SRem(x, y).Some? ==> Value(SRem(x, y).value) == Remainder(Value(x), Value(y))
  {
    if x.width == y.width && y.n != 0 {
      SRemIs(x, y);
      QuotientFits(x, y);
      InRangeConverts(Remainder(Value(x), Value(y)), x.width);
    }
  }

  lemma {:induction false} SDivExact(x: Number, y: Number)
    requires Valid(x) && Valid(y)
    ensures SDiv(x, y) == None <==> x.width != y.width || y.n == 0 || (x.width == 64 && Overflows(x, y))
    ensures SDiv(x, y).Some? ==> Value(y) != 0 && Represents(SDiv(x, y).value, Quotient(Value(x), Value(y)), x.width)
  {
    if x.width == y.width && y.n != 0 {
      SDivIs(x, y);
      if Overflows(x, y) {
        LeastQuotient(x, y);
        FromNumberExact(Power(x.width - 1), x.width);
      } else {
        QuotientFits(x, y);
        InRangeConverts(Quotient(Value(x), Value(y)), x.width);
      }
    }
  }

  lemma {:induction false} LeastQuotient(x: Number, y: Number)
    requires Valid(x) && Valid(y) && Overflows(x, y)
    ensures Value(y) != 0 && Quotient(Value(x), Value(y)) == Power(x.width - 1)
    ensures FitsInt64(Power(x.width - 1)) <==> x.width < 64
  {
    OppositeQuotient(Power(x.width - 1));
    HalfRange(x.width);
  }

  lemma {:induction false} HalfRange(w: int)
    requires WidthOk(w)
    ensures FitsInt64(Power(w - 1)) <==> w < 64
  {
    UsualPowers();
    PowerMonotone(w - 1, 63);
  }

  lemma {:induction false} OppositeQuotient(p: int)
    requires p > 0
    ensures Quotient(-p, -1) == p
  {
  }

  // Quotient and remainder give the dividend back, with a remainder smaller than the divisor and of
  // the dividend's sign, in all cases but one.
  lemma {:induction false} DivisionExact(x: Number, y: Number)
    requires Valid(x) && Valid(y) && SDiv(x, y).Some?
    ensures SRem(x, y).Some? && Valid(SDiv(x, y).value) && Valid(SRem(x, y).value)
    ensures DividesTowardsZero(Value(x), Value(y), Value(SDiv(x, y).value), Value(SRem(x, y).value))
            <==> !Overflows(x, y)
    ensures Overflows(x, y) ==> SDiv(x, y).value == x
  {
    SDivExact(x, y);
    SRemExact(x, y);
    QuotientFits(x, y);
    var a, b := Value(x), Value(y);
    DivisionOfNumbers(a, b);
    var q := SDiv(x, y).value;
    if Overflows(x, y) {
      OppositeQuotient(Power(x.width - 1));
      SignedMeans(x);
      assert -a == a + 1 * Power(x.width);
      ModShift(a, 1, Power(x.width));
      assert q.n == x.n;
      assert Value(q) != -a;
    }
  }

  // ---------- the assigning operators ----------

  class WrapInt {
    var n: int
    const width: int
    const modulus: int

    ghost function View(): Number
      reads this
    {
      Number(n, width, modulus)
    }

    constructor (x: Number)
      requires Valid(x)
      ensures View() == x
    {
      n, width, modulus := x.n, x.width, x.modulus;
    }

    method AddAssign(x: Number) returns (ok: bool)
      requires Valid(View()) && Valid(x)
      modifies this`n
      ensures ok <==> Plus(old(View()), x).Some?
      ensures View() == if ok then Plus(old(View()), x).value else old(View())
    {
      ok := width == x.width;
      if ok {
        n := Word(n + x.n);
        Reduce();
      }
    }

    method SubtractAssign(x: Number) returns (ok: bool)
      requires Valid(View()) && Valid(x)
      modifies this`n
      ensures ok <==> Minus(old(View()), x).Some?
      ensures View() == if ok then Minus(old(View()), x).value else old(View())
    {
      ok := width == x.width;
      if ok {
        n := Word(n - x.n);
        Reduce();
      }
    }

    method MultiplyAssign(x: Number) returns (ok: bool)
      requires Valid(View()) && Valid(x)
      modifies this`n
      ensures ok <==> Times(old(View()), x).Some?
      ensures View() == if ok then Times(old(View()), x).value else old(View())
    {
      ok := width == x.width;
      if ok {
        n := Word(n * x.n);
        Reduce();
      }
    }

    method Increment()
      requires Valid(View())
      modifies this`n
      ensures Valid(View()) && n == (old(n) + 1) % Power(width)
    {
      ReducedMeans(n + 1, width);
      n := Word(n + 1);
      Reduce();
    }

    method Decrement()
      requires Valid(View())
      modifies this`n
      ensures Valid(View()) && n == (old(n) - 1) % Power(width)
    {
      ReducedMeans(n - 1, width);
      n := Word(n - 1);
      Reduce();
    }

    method Reduce()
      requires WidthOk(width) && modulus == ModulusOf(width)
      modifies this`n
      ensures width != 64 ==> modulus != 0
      ensures n == Reduced(old(n), width, modulus)
    {
      ModulusIsPower(width);
      if width < 64 {
        n := n % modulus;
      }
    }
  }
}
