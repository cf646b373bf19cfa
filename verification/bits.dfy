/** Machine words and bytes, their two's-complement reading, and the shift,
    mask and bitwise operators of an arbitrary-precision host language, in
    which every testbench computes its expected values.

    Shifts and masks are defined one bit at a time, so that reasoning about
    them stays linear; lemmas `ShlMul` and `ShrDiv` relate them to
    multiplication, division and remainder by powers of two. */
module Bits {

  const WORD_SIZE: int := 0x1_0000_0000
  const SIGN_BIT: int := 0x8000_0000

  /** A 32-bit unsigned word. */
  type Word = x: int | 0 <= x < 0x1_0000_0000

  /** An 8-bit unsigned byte. */
  type Byte = x: int | 0 <= x < 0x100

  function Pow2(n: nat): (r: nat)
    ensures r >= 1
  {
    if n == 0 then 1 else 2 * Pow2(n - 1)
  }

  /** `x << k` on a non-negative integer. */
  function Shl(x: nat, k: nat): (r: nat)
    ensures x == 0 ==> r == 0
  {
    if k == 0 then x else 2 * Shl(x, k - 1)
  }

  /** `x >> k` on any integer: the host language rounds toward negative
      infinity, as halving with Dafny's `/ 2` does. */
  function Shr(x: int, k: nat): (r: int)
    ensures 0 <= x ==> 0 <= r <= x
    ensures x < 0 ==> x <= r < 0
    decreases k, x
  {
    if k == 0 then x else Shr(x / 2, k - 1)
  }

  /** `x & (2^k - 1)` for any integer `x`, negative ones included (the host
      language reads a negative integer as an infinite two's complement):
      the low `k` bits of `x`. */
  function Mask(x: int, k: nat): (r: nat)
    ensures r < Pow2(k)
    decreases k, x
  {
    if k == 0 then 0 else 2 * Mask(x / 2, k - 1) + x % 2
  }

  /** The `width`-bit field of `x` starting at bit `lo`, `(x >> lo) & (2^width - 1)`. */
  function Field(x: int, lo: nat, width: nat): (r: nat)
    ensures r < Pow2(width)
  {
    Mask(Shr(x, lo), width)
  }

  /** Bit `i` of `x`, `(x >> i) & 1`. */
  function BitOf(x: int, i: nat): (r: nat)
    ensures r <= 1
  {
    Field(x, i, 1)
  }

  /** The low 32 bits of any integer, that is `x & 0xFFFFFFFF`. */
  function ToWord(x: int): (w: Word)
    ensures 0 <= x < WORD_SIZE ==> w == x
    ensures -SIGN_BIT <= x < 0 ==> w == x + WORD_SIZE
  {
    x % WORD_SIZE
  }

  /** The two's-complement value of a word. */
  function Signed(w: Word): (r: int)
    ensures -SIGN_BIT <= r < SIGN_BIT
    ensures r < 0 <==> w >= SIGN_BIT
    ensures ToWord(r) == w
  {
    if w < SIGN_BIT then w else w - WORD_SIZE
  }

  /** `hi` placed above a `w`-bit low part `lo`: `(hi << w) | lo` for `lo < 2^w`. */
  function Concat(hi: nat, lo: nat, w: nat): nat
  {
    Shl(hi, w) + lo
  }

  /** The two's-complement value of an `n`-bit field. */
  function SignExt(v: nat, n: nat): (r: int)
    requires 0 < n && v < Pow2(n)
    ensures -(Pow2(n - 1) as int) <= r < Pow2(n - 1)
    ensures r < 0 <==> v >= Pow2(n - 1)
  {
    if v < Pow2(n - 1) then v else v - Pow2(n)
  }

  datatype BitOp = AndOp | OrOp | XorOp

  /** One bit position of a bitwise operator. */
  function Combine(op: BitOp, x: nat, y: nat): (r: nat)
    requires x <= 1 && y <= 1
    ensures r <= 1
    ensures x == 0 && y == 0 ==> r == 0
  {
    match op
    case AndOp => if x == 1 && y == 1 then 1 else 0
    case OrOp => if x == 1 || y == 1 then 1 else 0
    case XorOp => if x != y then 1 else 0
  }

  /** A bitwise operator on non-negative integers, one bit at a time from
      the least significant end. */
  function Bitwise(op: BitOp, a: nat, b: nat): nat
    decreases a + b
  {
    if a == 0 && b == 0 then 0
    else 2 * Bitwise(op, a / 2, b / 2) + Combine(op, a % 2, b % 2)
  }

  function And(a: nat, b: nat): nat { Bitwise(AndOp, a, b) }
  function Or(a: nat, b: nat): nat { Bitwise(OrOp, a, b) }
  function Xor(a: nat, b: nat): nat { Bitwise(XorOp, a, b) }

  /** `x & m` for any integer `x`, negative ones included, and a mask `m`
      of at most `width` bits: only the low `width` bits of `x` matter. */
  function AndMask(x: int, m: nat, width: nat): (r: nat)
    requires m < Pow2(width)
    ensures r <= m
  {
    AndBound(Mask(x, width), m);
    And(Mask(x, width), m)
  }

  // ---------------------------------------------------------------------
  // Arithmetic facts.

  lemma {:induction false} MulStep(a: int, b: int, d: int)
    requires d > 0 && a > b
    ensures a * d >= b * d + d
  {
    var k := a - b - 1;
    assert k * d >= 0;
    assert a * d == b * d + d + k * d;
  }

  lemma {:induction false} Twice(x: int, y: int)
    ensures x * (2 * y) == 2 * (x * y)
  {
  }

  /** Quotient and remainder are determined by any decomposition. */
  lemma {:induction false} DivModUnique(x: int, d: int, q: int, r: int)
    requires d > 0 && 0 <= r < d && x == q * d + r
    ensures x / d == q && x % d == r
  {
    var q', r' := x / d, x % d;
    assert x == q' * d + r';
    if q' != q {
      var hi, lo := if q' > q then q' else q, if q' > q then q else q';
      MulStep(hi, lo, d);
    }
  }

  /** Reducing a summand to 32 bits first does not change a 32-bit sum. */
  lemma {:induction false} ToWordAdd(x: int, y: int)
    ensures ToWord(ToWord(x) + y) == ToWord(x + y)
  {
    var q, r := (x + y) / WORD_SIZE, (x + y) % WORD_SIZE;
    assert x == (x / WORD_SIZE) * WORD_SIZE + ToWord(x);
    assert ToWord(x) + y == (q - x / WORD_SIZE) * WORD_SIZE + r;
    DivModUnique(ToWord(x) + y, WORD_SIZE, q - x / WORD_SIZE, r);
  }

  /** A multiple of four stays one when reduced to 32 bits. */
  lemma {:induction false} ToWordAligned(x: int)
    requires x % 4 == 0
    ensures ToWord(x) % 4 == 0
  {
    var q := x / WORD_SIZE;
    assert x == q * WORD_SIZE + ToWord(x);
    assert ToWord(x) == (x / 4 - q * 0x4000_0000) * 4;
    DivModUnique(ToWord(x), 4, x / 4 - q * 0x4000_0000, 0);
  }

  /** Subtracting a multiple of the divisor lowers the quotient by the
      multiplier and keeps the remainder. */
  lemma {:induction false} DivSubMultiple(x: int, d: int, q: int)
    requires d > 0
    ensures (x - q * d) / d == x / d - q
  {
    var r := x % d;
    assert x == (x / d) * d + r;
    assert x - q * d == (x / d - q) * d + r;
    DivModUnique(x - q * d, d, x / d - q, r);
  }

  lemma {:induction false} Pow2Add(m: nat, n: nat)
    ensures Pow2(m + n) == Pow2(m) * Pow2(n)
    decreases m
  {
    if m > 0 {
      Pow2Add(m - 1, n);
    }
  }

  lemma {:induction false} Pow2Monotone(m: nat, n: nat)
    requires m <= n
    ensures Pow2(m) <= Pow2(n)
    decreases n
  {
    if m < n {
      Pow2Monotone(m, n - 1);
    }
  }

  /** The powers of two up to the word size, as literals. */
  lemma {:induction false} Pow2Values()
    ensures Pow2(0) == 1
    ensures Pow2(1) == 2
    ensures Pow2(2) == 4
    ensures Pow2(3) == 8
    ensures Pow2(4) == 16
    ensures Pow2(5) == 32
    ensures Pow2(6) == 64
    ensures Pow2(7) == 128
    ensures Pow2(8) == 0x100
    ensures Pow2(9) == 0x200
    ensures Pow2(10) == 0x400
    ensures Pow2(11) == 0x800
    ensures Pow2(12) == 0x1000
    ensures Pow2(13) == 0x2000
    ensures Pow2(14) == 0x4000
    ensures Pow2(15) == 0x8000
    ensures Pow2(16) == 0x1_0000
    ensures Pow2(17) == 0x2_0000
    ensures Pow2(18) == 0x4_0000
    ensures Pow2(19) == 0x8_0000
    ensures Pow2(20) == 0x10_0000
    ensures Pow2(21) == 0x20_0000
    ensures Pow2(22) == 0x40_0000
    ensures Pow2(23) == 0x80_0000
    ensures Pow2(24) == 0x100_0000
    ensures Pow2(25) == 0x200_0000
    ensures Pow2(26) == 0x400_0000
    ensures Pow2(27) == 0x800_0000
    ensures Pow2(28) == 0x1000_0000
    ensures Pow2(29) == 0x2000_0000
    ensures Pow2(30) == 0x4000_0000
    ensures Pow2(31) == SIGN_BIT
    ensures Pow2(32) == WORD_SIZE
  {
    assert Pow2(1) == 2;
    assert Pow2(2) == 4;
    assert Pow2(3) == 8;
    assert Pow2(4) == 16;
    assert Pow2(5) == 32;
    assert Pow2(6) == 64;
    assert Pow2(7) == 128;
    assert Pow2(8) == 0x100;
    assert Pow2(9) == 0x200;
    assert Pow2(10) == 0x400;
    assert Pow2(11) == 0x800;
    assert Pow2(12) == 0x1000;
    assert Pow2(13) == 0x2000;
    assert Pow2(14) == 0x4000;
    assert Pow2(15) == 0x8000;
    assert Pow2(16) == 0x1_0000;
    assert Pow2(17) == 0x2_0000;
    assert Pow2(18) == 0x4_0000;
    assert Pow2(19) == 0x8_0000;
    assert Pow2(20) == 0x10_0000;
    assert Pow2(21) == 0x20_0000;
    assert Pow2(22) == 0x40_0000;
    assert Pow2(23) == 0x80_0000;
    assert Pow2(24) == 0x100_0000;
    assert Pow2(25) == 0x200_0000;
    assert Pow2(26) == 0x400_0000;
    assert Pow2(27) == 0x800_0000;
    assert Pow2(28) == 0x1000_0000;
    assert Pow2(29) == 0x2000_0000;
    assert Pow2(30) == 0x4000_0000;
    assert Pow2(31) == 0x8000_0000;
  }

  // ---------------------------------------------------------------------
  // Shifts and masks.

  /** The two powers of two that bound a word. */
  lemma {:induction false} Pow2Word()
    ensures Pow2(31) == SIGN_BIT && Pow2(32) == WORD_SIZE
  {
    Pow2Values();
  }

  /** `x << k` multiplies by `2^k`. */
  lemma {:induction false} ShlMul(x: nat, k: nat)
    ensures Shl(x, k) == x * Pow2(k)
    decreases k
  {
    if k > 0 {
      ShlMul(x, k - 1);
      Twice(x, Pow2(k - 1));
    }
  }

  lemma {:induction false} ShlAdd(a: nat, b: nat, k: nat)
    ensures Shl(a + b, k) == Shl(a, k) + Shl(b, k)
    decreases k
  {
    if k > 0 {
      ShlAdd(a, b, k - 1);
    }
  }

  /** Shifting left by `a` and then by `b` is shifting by `c = a + b`. */
  lemma {:induction false} ShlShl(x: nat, a: nat, b: nat, c: nat)
    requires c == a + b
    ensures Shl(Shl(x, a), b) == Shl(x, c)
    decreases b
  {
    if b > 0 {
      ShlShl(x, a, b - 1, c - 1);
    }
  }

  /** Shifting left and back right by the same amount is the identity. */
  lemma {:induction false} ShrShl(x: nat, k: nat)
    ensures Shr(Shl(x, k), k) == x
    decreases k
  {
    if k > 0 {
      assert Shl(x, k) / 2 == Shl(x, k - 1);
      ShrShl(x, k - 1);
    }
  }

  /** Shifting an `n`-bit value left by `k` gives an `n + k`-bit value. */
  lemma {:induction false} ShlBound(x: nat, n: nat, k: nat)
    requires x < Pow2(n)
    ensures Shl(x, k) < Pow2(n + k)
    decreases k
  {
    if k > 0 {
      ShlBound(x, n, k - 1);
    }
  }

  /** An `n`-bit value followed by a `k`-bit value is an `m`-bit value,
      `m = n + k`. */
  lemma {:induction false} ConcatBound(x: nat, n: nat, v: nat, k: nat, m: nat)
    requires x < Pow2(n) && v < Pow2(k) && m == n + k
    ensures Concat(x, v, k) < Pow2(m)
    decreases k
  {
    if k > 0 {
      ConcatBound(x, n, v / 2, k - 1, m - 1);
    }
  }

  /** Shifting `q << k` plus a `k`-bit value right by `k` recovers `q`, and
      masking it to `k` bits recovers the low value. */
  lemma {:induction false} ShlSplit(q: nat, r: nat, k: nat)
    requires r < Pow2(k)
    ensures Shr(Shl(q, k) + r, k) == q
    ensures Mask(Shl(q, k) + r, k) == r
    decreases k
  {
    if k > 0 {
      var x := Shl(q, k) + r;
      assert x / 2 == Shl(q, k - 1) + r / 2 && x % 2 == r % 2;
      ShlSplit(q, r / 2, k - 1);
    }
  }

  /** A value narrower than `k` bits is its own low `k` bits. */
  lemma {:induction false} MaskSmall(x: int, k: nat)
    requires 0 <= x < Pow2(k)
    ensures Mask(x, k) == x
  {
    ShlSplit(0, x, k);
  }

  /** `x >> k` and `x & (2^k - 1)` are the quotient and remainder by `2^k`. */
  lemma {:induction false} ShrMaskDecompose(x: int, k: nat)
    ensures x == Shr(x, k) * Pow2(k) + Mask(x, k)
    decreases k
  {
    if k > 0 {
      ShrMaskDecompose(x / 2, k - 1);
      Twice(Shr(x, k), Pow2(k - 1));
    }
  }

  lemma {:induction false} ShrDiv(x: int, k: nat)
    ensures Shr(x, k) == x / Pow2(k)
    ensures Mask(x, k) == x % Pow2(k)
  {
    ShrMaskDecompose(x, k);
    DivModUnique(x, Pow2(k), Shr(x, k), Mask(x, k));
  }

  /** The low 32 bits, as a mask and as a remainder, agree. */
  lemma {:induction false} MaskWord(x: int)
    ensures Mask(x, 32) == ToWord(x)
  {
    ShrDiv(x, 32);
    Pow2Values();
  }

  /** Shifting right by `a` and then by `b` is shifting by `c = a + b`. */
  lemma {:induction false} ShrShr(x: int, a: nat, b: nat, c: nat)
    requires c == a + b
    ensures Shr(Shr(x, a), b) == Shr(x, c)
    decreases a
  {
    if a > 0 {
      ShrShr(x / 2, a - 1, b, c - 1);
    }
  }

  /** Above a `w`-bit low part `v`, the field at bit `at` of `p` concatenated
      with `v` is the field at bit `at - w` of `p`. */
  lemma {:induction false} FieldPeel(p: nat, v: nat, w: nat, at: nat, lo: nat, width: nat)
    requires v < Pow2(w) && at == w + lo
    ensures Field(Concat(p, v, w), at, width) == Field(p, lo, width)
  {
    ShlSplit(p, v, w);
    ShrShr(Concat(p, v, w), w, lo, at);
  }

  /** The low `w` bits of `(p << w) + v` are `v`. */
  lemma {:induction false} FieldLow(p: nat, v: nat, w: nat)
    requires v < Pow2(w)
    ensures Field(Concat(p, v, w), 0, w) == v
  {
    ShlSplit(p, v, w);
  }

  /** Shifting an `n`-bit value right by `k <= n` leaves `n - k` bits. */
  lemma {:induction false} ShrBound(x: nat, n: nat, k: nat)
    requires x < Pow2(n) && k <= n
    ensures Shr(x, k) < Pow2(n - k)
    decreases k
  {
    if k > 0 {
      ShrBound(x / 2, n - 1, k - 1);
    }
  }

  /** Below bit `w`, the fields of `p` concatenated with a `w`-bit `v` are
      those of `v`. */
  lemma {:induction false} FieldInside(p: nat, v: nat, w: nat, lo: nat, width: nat)
    requires v < Pow2(w) && lo + width <= w
    ensures Field(Concat(p, v, w), lo, width) == Field(v, lo, width)
    decreases lo
  {
    var x := Concat(p, v, w);
    if lo == 0 {
      ShlSplit(p, v, w);
      MaskMask(x, w, width);
      MaskMask(v, w, width);
      MaskSmall(v, w);
    } else {
      assert x / 2 == Concat(p, v / 2, w - 1);
      assert Field(x, lo, width) == Field(x / 2, lo - 1, width);
      assert Field(v, lo, width) == Field(v / 2, lo - 1, width);
      FieldInside(p, v / 2, w - 1, lo - 1, width);
    }
  }

  /** Concatenation is associative. */
  lemma {:induction false} ConcatAssoc(a: nat, b: nat, c: nat, wb: nat, wc: nat, w: nat)
    requires w == wb + wc
    ensures Concat(Concat(a, b, wb), c, wc) == Concat(a, Concat(b, c, wc), w)
  {
    ShlAdd(Shl(a, wb), b, wc);
    ShlShl(a, wb, wc, w);
  }

  /** A value narrower than `w` bits is its own field at bit 0. */
  lemma {:induction false} FieldWhole(x: nat, w: nat)
    requires x < Pow2(w)
    ensures Field(x, 0, w) == x
  {
    MaskSmall(x, w);
  }

  /** A value below bit `lo` has no bits in any field from `lo` up. */
  lemma {:induction false} FieldAbove(x: nat, lo: nat, w: nat)
    requires x < Pow2(lo)
    ensures Field(x, lo, w) == 0
  {
    ShrDiv(x, lo);
    DivModUnique(x, Pow2(lo), 0, x);
    MaskSmall(0, w);
  }

  /** Sign extension undoes truncation to `n` bits for every value that
      fits in `n` signed bits. */
  lemma {:induction false} SignExtOfMask(x: int, n: nat)
    requires 0 < n && -(Pow2(n - 1) as int) <= x < Pow2(n - 1)
    ensures SignExt(Mask(x, n), n) == x
  {
    ShrDiv(x, n);
    if x >= 0 {
      DivModUnique(x, Pow2(n), 0, x);
    } else {
      DivModUnique(x, Pow2(n), -1, x + Pow2(n));
    }
  }

  /** Truncation to `n` bits undoes sign extension. */
  lemma {:induction false} MaskOfSignExt(v: nat, n: nat)
    requires 0 < n && v < Pow2(n)
    ensures Mask(SignExt(v, n), n) == v
  {
    var r := SignExt(v, n);
    ShrDiv(r, n);
    if r >= 0 {
      DivModUnique(r, Pow2(n), 0, v);
    } else {
      DivModUnique(r, Pow2(n), -1, v);
    }
  }

  /** The two's-complement value of a word is its 32-bit sign extension. */
  lemma {:induction false} SignedIsSignExt(w: Word)
    ensures Pow2(32) == WORD_SIZE
    ensures Signed(w) == SignExt(w, 32)
  {
    Pow2Values();
  }

  /** The low `n` bits are the `w`-bit field from bit `k` to bit `n - 1`
      concatenated with the low `k` bits. */
  lemma {:induction false} MaskSplit(x: int, n: nat, k: nat, w: nat)
    requires n == k + w
    ensures Mask(x, n) == Concat(Field(x, k, w), Mask(x, k), k)
    decreases k
  {
    if k > 0 {
      MaskSplit(x / 2, n - 1, k - 1, w);
      assert Field(x / 2, k - 1, w) == Field(x, k, w);
    }
  }

  /** Reducing to `n` bits and then to `k <= n` bits is reducing to `k` bits. */
  lemma {:induction false} MaskMask(x: int, n: nat, k: nat)
    requires k <= n
    ensures Mask(Mask(x, n), k) == Mask(x, k)
    decreases k
  {
    if k > 0 {
      var m := Mask(x, n);
      assert m / 2 == Mask(x / 2, n - 1) && m % 2 == x % 2;
      MaskMask(x / 2, n - 1, k - 1);
    }
  }

  // ---------------------------------------------------------------------
  // Bitwise operators.

  /** Prepending one bit to each operand prepends one result bit. */
  lemma {:induction false} BitwiseCons(op: BitOp, x: nat, y: nat, u: nat, v: nat)
    requires u <= 1 && v <= 1
    ensures Bitwise(op, 2 * x + u, 2 * y + v) == 2 * Bitwise(op, x, y) + Combine(op, u, v)
  {
    if x == 0 && y == 0 && u == 0 && v == 0 {
    } else {
      assert (2 * x + u) / 2 == x && (2 * x + u) % 2 == u;
      assert (2 * y + v) / 2 == y && (2 * y + v) % 2 == v;
    }
  }

  /** One step of the bit-at-a-time definition, also when both operands are zero. */
  lemma {:induction false} BitwiseStep(op: BitOp, a: nat, b: nat)
    ensures Bitwise(op, a, b) == 2 * Bitwise(op, a / 2, b / 2) + Combine(op, a % 2, b % 2)
  {
  }

  /** AND never exceeds either operand. */
  lemma {:induction false} AndBound(a: nat, b: nat)
    ensures And(a, b) <= a && And(a, b) <= b
    decreases a + b
  {
    if !(a == 0 && b == 0) {
      AndBound(a / 2, b / 2);
    }
  }

  /** OR never falls below either operand. */
  lemma {:induction false} OrBound(a: nat, b: nat)
    ensures a <= Or(a, b) && b <= Or(a, b)
    decreases a + b
  {
    if !(a == 0 && b == 0) {
      OrBound(a / 2, b / 2);
    }
  }

  /** A bitwise operator applied to one value twice: AND and OR give the
      value back, XOR gives zero. */
  lemma {:induction false} BitwiseSelf(op: BitOp, a: nat)
    ensures Bitwise(op, a, a) == if op == XorOp then 0 else a
    decreases a
  {
    if a != 0 {
      BitwiseSelf(op, a / 2);
    }
  }

  /** A bitwise operator with zero clears (AND) or keeps (OR, XOR) the other operand. */
  lemma {:induction false} BitwiseZero(op: BitOp, x: nat)
    ensures Bitwise(op, x, 0) == if op == AndOp then 0 else x
    decreases x
  {
    if x != 0 {
      BitwiseZero(op, x / 2);
    }
  }

  lemma {:induction false} BitwiseCommutes(op: BitOp, a: nat, b: nat)
    ensures Bitwise(op, a, b) == Bitwise(op, b, a)
    decreases a + b
  {
    if !(a == 0 && b == 0) {
      BitwiseCommutes(op, a / 2, b / 2);
    }
  }

  /** Bitwise operators keep values within `n` bits. */
  lemma {:induction false} BitwiseBound(op: BitOp, a: nat, b: nat, n: nat)
    requires a < Pow2(n) && b < Pow2(n)
    ensures Bitwise(op, a, b) < Pow2(n)
    decreases n
  {
    if n > 0 && !(a == 0 && b == 0) {
      BitwiseBound(op, a / 2, b / 2, n - 1);
    }
  }

  /** Bit `i` of a bitwise result is the operator applied to bit `i` of each
      operand. */
  lemma {:induction false} BitwiseBitOf(op: BitOp, a: nat, b: nat, i: nat)
    ensures BitOf(Bitwise(op, a, b), i) == Combine(op, BitOf(a, i), BitOf(b, i))
    decreases i
  {
    if !(a == 0 && b == 0) {
      var r := Bitwise(op, a, b);
      assert r / 2 == Bitwise(op, a / 2, b / 2) && r % 2 == Combine(op, a % 2, b % 2);
      if i > 0 {
        BitwiseBitOf(op, a / 2, b / 2, i - 1);
      }
    }
  }

  /** `x & (2^k - 1)` keeps exactly the low `k` bits. */
  lemma {:induction false} AndLowMask(x: nat, k: nat)
    ensures And(x, Pow2(k) - 1) == Mask(x, k)
    decreases k
  {
    if k == 0 {
      BitwiseZero(AndOp, x);
    } else {
      var m := Pow2(k) - 1;
      assert m / 2 == Pow2(k - 1) - 1 && m % 2 == 1;
      BitwiseStep(AndOp, x, m);
      AndLowMask(x / 2, k - 1);
    }
  }

  /** AND with an even mask: the low bit clears, the rest is AND of the halves. */
  lemma {:induction false} AndEven(x: nat, h: nat)
    ensures And(x, 2 * h) == 2 * And(x / 2, h)
  {
    assert (2 * h) / 2 == h && (2 * h) % 2 == 0;
    BitwiseStep(AndOp, x, 2 * h);
  }

  /** AND with a mask shifted left by `k`: shift the other operand down,
      AND, and shift back. */
  lemma {:induction false} AndShl(x: nat, h: nat, k: nat)
    ensures And(x, Shl(h, k)) == Shl(And(Shr(x, k), h), k)
    decreases k
  {
    if k > 0 {
      AndEven(x, Shl(h, k - 1));
      AndShl(x / 2, h, k - 1);
    }
  }

  /** The ones of bits `k` to `k + m - 1` are `2^m - 1` shifted left by `k`. */
  lemma {:induction false} ShlOnes(m: nat, k: nat, n: nat)
    requires n == m + k
    ensures Pow2(k) <= Pow2(n)
    ensures Shl(Pow2(m) - 1, k) == Pow2(n) - Pow2(k)
    decreases k
  {
    Pow2Monotone(k, n);
    if k > 0 {
      ShlOnes(m, k - 1, n - 1);
    }
  }

  /** Shifting the low `n` bits down by `k` leaves the low `n - k` bits of
      the shifted value. */
  lemma {:induction false} ShrMask(x: int, n: nat, k: nat)
    requires k <= n
    ensures Shr(Mask(x, n), k) == Mask(Shr(x, k), n - k)
    decreases k
  {
    if k > 0 {
      assert Mask(x, n) / 2 == Mask(x / 2, n - 1);
      ShrMask(x / 2, n - 1, k - 1);
    }
  }

  /** Masking any integer with the low `k` ones is taking its low `k` bits. */
  lemma {:induction false} AndMaskLow(x: int, k: nat, ones: nat)
    requires ones == Pow2(k) - 1
    ensures AndMask(x, ones, k) == Mask(x, k)
  {
    AndLowMask(Mask(x, k), k);
    MaskMask(x, k, k);
  }

  /** Masking any integer with the ones of bits `k` to `n - 1` selects that
      `w`-bit field in place, `w = n - k`. */
  lemma {:induction false} AndMaskRange(x: int, k: nat, w: nat, n: nat, ones: nat)
    requires n == k + w && ones == Pow2(n) - Pow2(k)
    ensures AndMask(x, ones, n) == Shl(Field(x, k, w), k)
  {
    AndMaskRangeSymbolic(x, n, k);
  }

  /** `AndMaskRange` with the field width left as `n - k`. */
  lemma {:induction false} AndMaskRangeSymbolic(x: int, n: nat, k: nat)
    requires k <= n
    ensures Pow2(k) <= Pow2(n)
    ensures AndMask(x, Pow2(n) - Pow2(k), n) == Shl(Field(x, k, n - k), k)
  {
    ShlOnes(n - k, k, n);
    var m := Mask(x, n);
    var low := Pow2(n - k) - 1;
    assert AndMask(x, Pow2(n) - Pow2(k), n) == And(m, Shl(low, k));
    AndShl(m, low, k);
    AndLowMask(Shr(m, k), n - k);
    ShrMask(x, n, k);
    assert And(Shr(m, k), low) == Mask(Mask(Shr(x, k), n - k), n - k);
    MaskMask(Shr(x, k), n - k, n - k);
  }

  /** OR of a value shifted past another value's width is their sum. */
  lemma {:induction false} OrDisjoint(hi: nat, lo: nat, k: nat)
    requires lo < Pow2(k)
    ensures Or(Shl(hi, k), lo) == Shl(hi, k) + lo
    decreases k
  {
    if k == 0 {
      BitwiseZero(OrOp, hi);
    } else {
      var s := Shl(hi, k);
      assert s / 2 == Shl(hi, k - 1) && s % 2 == 0;
      BitwiseStep(OrOp, s, lo);
      OrDisjoint(hi, lo / 2, k - 1);
    }
  }

  /** OR-ing a `w`-bit value placed at bit `j` below a value placed at bit
      `at = j + w` concatenates the two. */
  lemma {:induction false} OrPlace(p: nat, v: nat, j: nat, at: nat, w: nat)
    requires v < Pow2(w) && at == j + w
    ensures Or(Shl(p, at), Shl(v, j)) == Shl(Concat(p, v, w), j)
  {
    ShlBound(v, w, j);
    OrDisjoint(p, Shl(v, j), j + w);
    ShlShl(p, w, j, at);
    ShlAdd(Shl(p, w), v, j);
  }

  /** XOR with `2^k` flips bit `k` of a value narrower than `k + 1` bits. */
  lemma {:induction false} XorPow2(a: nat, k: nat)
    requires a < Pow2(k + 1)
    ensures Xor(a, Pow2(k)) == if a < Pow2(k) then a + Pow2(k) else a - Pow2(k)
    decreases k
  {
    if k == 0 {
      BitwiseCons(XorOp, 0, 0, a, 1);
    } else {
      XorPow2(a / 2, k - 1);
      BitwiseCons(XorOp, a / 2, Pow2(k - 1), a % 2, 0);
    }
  }

  /** A value and its `n`-bit complement share no bit and together cover all
      `n` bits. */
  lemma {:induction false} Complement(x: nat, n: nat)
    requires x < Pow2(n)
    ensures And(x, Pow2(n) - 1 - x) == 0
    ensures Or(x, Pow2(n) - 1 - x) == Pow2(n) - 1
    ensures Xor(x, Pow2(n) - 1 - x) == Pow2(n) - 1
    decreases n
  {
    var y := Pow2(n) - 1 - x;
    if n > 0 && !(x == 0 && y == 0) {
      Complement(x / 2, n - 1);
      assert y / 2 == Pow2(n - 1) - 1 - x / 2;
      assert x % 2 + y % 2 == 1;
    }
  }
}
