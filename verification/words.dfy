/** Fixed-width machine words as integers, with the wrap-around written out. */
module Words {
  const TWO31 := 0x8000_0000
  const TWO32 := 0x1_0000_0000
  const TWO63 := 0x8000_0000_0000_0000
  const TWO64 := 0x1_0000_0000_0000_0000

  type u8 = x: int | 0 <= x < 0x100
  type u32 = x: int | 0 <= x < 0x1_0000_0000
  type u64 = x: int | 0 <= x < 0x1_0000_0000_0000_0000
  type i32 = x: int | -0x8000_0000 <= x < 0x8000_0000

  datatype Option<+T> = None | Some(value: T)

  /** Truncation to 64 bits. */
  function W64(x: int): u64 { x % TWO64 }

  /** Truncation to 32 bits. */
  function W32(x: int): u32 { x % TWO32 }

  /** The signed reading of a 64-bit word. */
  function S64(x: u64): int { if x < TWO63 then x else x - TWO64 }

  /** The signed reading of a 32-bit word. */
  function S32(x: u32): int { if x < TWO31 then x else x - TWO32 }

  /** The low 32 bits, sign-extended to 64. */
  function Sext32(x: int): u64 { W64(S32(W32(x))) }

  /** Truncation keeps x modulo the size of the type. */
  lemma Truncates(x: int)
    ensures (x - W64(x)) % TWO64 == 0 && (x - W32(x)) % TWO32 == 0
  {
    assert x - W64(x) == TWO64 * (x / TWO64) && x - W32(x) == TWO32 * (x / TWO32);
  }

  /** The signed reading of a word is the number of its signed type that is congruent to it. */
  lemma SignedReadings(a: u64, b: u32)
    ensures -TWO63 <= S64(a) < TWO63 && (a - S64(a)) % TWO64 == 0
    ensures -TWO31 <= S32(b) < TWO31 && (b - S32(b)) % TWO32 == 0
  {
  }

  /** Sign extension keeps the signed reading of the low half. */
  lemma SignExtends(x: int)
    ensures -TWO31 <= S64(Sext32(x)) < TWO31 && (x - S64(Sext32(x))) % TWO32 == 0
  {
    var low := W32(x);
    assert S64(Sext32(x)) == S32(low);
    var q := x / TWO32 + if low < TWO31 then 0 else 1;
    assert x - S32(low) == TWO32 * q;
    DivModUnique(x - S32(low), TWO32, q, 0);
  }

  function Abs(x: int): (r: nat)
    ensures r == x || r == -x
  {
    if x < 0 then 0 - x else x
  }

  function Pow2(n: nat): (r: nat)
    ensures r > 0
  {
    if n == 0 then 1 else 2 * Pow2(n - 1)
  }

  lemma Pow2Byte(n: nat)
    ensures Pow2(n + 8) == 0x100 * Pow2(n)
  {
    assert Pow2(n + 4) == 16 * Pow2(n) by {
      assert Pow2(n + 2) == 4 * Pow2(n) by { assert Pow2(n + 1) == 2 * Pow2(n); }
      assert Pow2(n + 3) == 2 * Pow2(n + 2);
    }
    assert Pow2(n + 6) == 4 * Pow2(n + 4) by { assert Pow2(n + 5) == 2 * Pow2(n + 4); }
    assert Pow2(n + 7) == 2 * Pow2(n + 6);
  }

  lemma Pow2Values()
    ensures Pow2(31) == TWO31 && Pow2(32) == TWO32 && Pow2(63) == TWO63 && Pow2(64) == TWO64
  {
    Pow2Byte(0); Pow2Byte(8); Pow2Byte(16); Pow2Byte(24);
    Pow2Byte(32); Pow2Byte(40); Pow2Byte(48); Pow2Byte(56);
    assert Pow2(32) == 2 * Pow2(31) && Pow2(64) == 2 * Pow2(63);
  }

  // ---------------------------------------------------------------- bitwise operations

  datatype BitOp = BitAnd | BitOr | BitXor

  function Bit(op: BitOp, a: int, b: int): int
  {
    match op
    case BitAnd => if a == 1 && b == 1 then 1 else 0
    case BitOr => if a == 1 || b == 1 then 1 else 0
    case BitXor => if a != b then 1 else 0
  }

  /** Bit-by-bit combination of the low n bits of a and b. */
  function Bits(op: BitOp, a: nat, b: nat, n: nat): (r: nat)
    ensures r < Pow2(n)
  {
    if n == 0 then 0 else Bit(op, a % 2, b % 2) + 2 * Bits(op, a / 2, b / 2, n - 1)
  }

  function Bits64(op: BitOp, a: u64, b: u64): (r: u64)
  {
    Pow2Values();
    Bits(op, a, b, 64)
  }

  function Bits32(op: BitOp, a: u32, b: u32): (r: u32)
  {
    Pow2Values();
    Bits(op, a, b, 32)
  }

  lemma {:induction false} AndSelf(a: nat, n: nat)
    requires a < Pow2(n)
    ensures Bits(BitAnd, a, a, n) == a
  {
    if n > 0 { AndSelf(a / 2, n - 1); }
  }

  /** A mask of ones selects everything. */
  lemma {:induction false} AndOnes(b: nat, n: nat)
    requires b < Pow2(n)
    ensures Bits(BitAnd, Pow2(n) - 1, b, n) == b
  {
    if n > 0 {
      assert (Pow2(n) - 1) / 2 == Pow2(n - 1) - 1;
      AndOnes(b / 2, n - 1);
    }
  }

  lemma {:induction false} AndZero(b: nat, n: nat)
    ensures Bits(BitAnd, 0, b, n) == 0
  {
    if n > 0 { AndZero(b / 2, n - 1); }
  }

  lemma {:induction false} XorSelf(a: nat, n: nat)
    ensures Bits(BitXor, a, a, n) == 0
  {
    if n > 0 { XorSelf(a / 2, n - 1); }
  }

  lemma {:induction false} BitsSym(op: BitOp, a: nat, b: nat, n: nat)
    ensures Bits(op, a, b, n) == Bits(op, b, a, n)
  {
    if n > 0 { BitsSym(op, a / 2, b / 2, n - 1); }
  }

  /** Bit i of a number. */
  predicate BitSet(x: nat, i: nat) { x / Pow2(i) % 2 == 1 }

  lemma BitAbove(x: nat, i: nat)
    requires i > 0
    ensures BitSet(x, i) == BitSet(x / 2, i - 1)
  {
    var p := Pow2(i - 1);
    var q, r := x / 2 / p, x / 2 % p;
    assert x / 2 == p * q + r;
    assert x == 2 * (x / 2) + x % 2;
    assert x == (2 * p) * q + (2 * r + x % 2) by { assert (2 * p) * q == 2 * (p * q); }
    DivModUnique(x, 2 * p, q, 2 * r + x % 2);
  }

  lemma LowestBit(x: nat)
    ensures BitSet(x, 0) <==> x % 2 == 1
  {
    assert Pow2(0) == 1;
  }

  lemma BitsApart(op: BitOp, a: nat, b: nat, n: nat)
    requires n > 0
    ensures Bits(op, a, b, n) / 2 == Bits(op, a / 2, b / 2, n - 1)
    ensures Bits(op, a, b, n) % 2 == Bit(op, a % 2, b % 2)
  {
  }

  /** Every bit of the result is decided by the two bits at its place: AND needs both, OR either, XOR
      exactly one. */
  lemma {:induction false} BitsAt(op: BitOp, a: nat, b: nat, n: nat, i: nat)
    requires i < n
    ensures op.BitAnd? ==> (BitSet(Bits(op, a, b, n), i) <==> BitSet(a, i) && BitSet(b, i))
    ensures op.BitOr? ==> (BitSet(Bits(op, a, b, n), i) <==> BitSet(a, i) || BitSet(b, i))
    ensures op.BitXor? ==> (BitSet(Bits(op, a, b, n), i) <==> BitSet(a, i) != BitSet(b, i))
  {
    hide Bits, BitSet, Pow2;
    BitsApart(op, a, b, n);
    if i == 0 {
      LowestBit(Bits(op, a, b, n));
      LowestBit(a);
      LowestBit(b);
    } else {
      BitAbove(Bits(op, a, b, n), i);
      BitAbove(a, i);
      BitAbove(b, i);
      BitsAt(op, a / 2, b / 2, n - 1, i - 1);
    }
  }

  /** OR is the sum without what AND counts twice; XOR is what OR has more than AND. */
  lemma {:induction false} BitsAdd(a: nat, b: nat, n: nat)
    requires a < Pow2(n) && b < Pow2(n)
    ensures Bits(BitOr, a, b, n) == a + b - Bits(BitAnd, a, b, n)
    ensures Bits(BitXor, a, b, n) == Bits(BitOr, a, b, n) - Bits(BitAnd, a, b, n)
  {
    if n > 0 { BitsAdd(a / 2, b / 2, n - 1); }
  }

  lemma WordsAdd(a: u64, b: u64)
    ensures Bits64(BitOr, a, b) == a + b - Bits64(BitAnd, a, b)
    ensures Bits64(BitXor, a, b) == Bits64(BitOr, a, b) - Bits64(BitAnd, a, b)
  {
    Pow2Values();
    BitsAdd(a, b, 64);
  }

  /** Masking with ...1110 clears bit 0, which is what JALR does to its target. */
  lemma AndClearLowBit(a: u64)
    ensures Bits64(BitAnd, a, TWO64 - 2) == a - a % 2
  {
    Pow2Values();
    AndOnes(a / 2, 63);
    BitsSym(BitAnd, Pow2(63) - 1, a / 2, 63);
    assert (TWO64 - 2) / 2 == TWO63 - 1;
  }

  // ---------------------------------------------------------------- residues

  lemma MulMonotone(m: int, x: int, y: int)
    requires m > 0 && x <= y
    ensures m * x <= m * y
  {
  }

  /** Quotient and remainder are unique. */
  lemma DivModUnique(x: int, m: int, q: int, r: int)
    requires m > 0 && x == m * q + r && 0 <= r < m
    ensures x / m == q && x % m == r
  {
    var q', r' := x / m, x % m;
    assert x == m * q' + r';
    if q' < q { MulMonotone(m, q' + 1, q); }
    if q < q' { MulMonotone(m, q + 1, q'); }
  }

  lemma ModEq(x: int, y: int, m: int, q: int)
    requires m > 0 && x == y + m * q
    ensures x % m == y % m
  {
    var r := y % m;
    assert x == m * (y / m + q) + r by { assert m * (y / m + q) == m * (y / m) + m * q; }
    DivModUnique(x, m, y / m + q, r);
  }

  /** Multiplication respects congruence. */
  lemma MulCongruent(a: int, b: int, s: int, t: int, m: int, p: int, q: int)
    requires m > 0 && a == s + m * p && b == t + m * q
    ensures (a * b) % m == (s * t) % m
  {
    var k := p * b + s * q;
    assert a * b == s * t + m * k by {
      assert a * b == s * b + (m * p) * b;
      assert s * b == s * t + s * (m * q);
      assert m * k == m * (p * b) + m * (s * q);
      assert (m * p) * b == m * (p * b);
      assert s * (m * q) == m * (s * q);
    }
    ModEq(a * b, s * t, m, k);
  }

  // ---------------------------------------------------------------- little-endian byte strings

  function Le(v: nat, n: nat): (r: seq<u8>)
    ensures |r| == n
  {
    if n == 0 then [] else [v % 0x100] + Le(v / 0x100, n - 1)
  }

  function FromLe(s: seq<u8>): nat
  {
    if |s| == 0 then 0 else s[0] + 0x100 * FromLe(s[1..])
  }

  function Pow256(n: nat): (r: nat)
    ensures r > 0
  {
    if n == 0 then 1 else 0x100 * Pow256(n - 1)
  }

  lemma Pow256Eight()
    ensures Pow256(8) == TWO64
  {
    assert Pow256(2) == 0x1_0000 && Pow256(4) == 0x1_0000 * Pow256(2) by { assert Pow256(3) == 0x100 * Pow256(2); }
    assert Pow256(6) == 0x1_0000 * Pow256(4) by { assert Pow256(5) == 0x100 * Pow256(4); }
    assert Pow256(8) == 0x1_0000 * Pow256(6) by { assert Pow256(7) == 0x100 * Pow256(6); }
  }

  lemma {:induction false} FromLeBound(s: seq<u8>)
    ensures FromLe(s) < Pow256(|s|)
  {
    if |s| > 0 { FromLeBound(s[1..]); }
  }

  lemma {:induction false} LeRoundTrip(v: nat, n: nat)
    requires v < Pow256(n)
    ensures FromLe(Le(v, n)) == v
  {
    if n > 0 {
      LeRoundTrip(v / 0x100, n - 1);
      assert Le(v, n)[1..] == Le(v / 0x100, n - 1);
    }
  }

  lemma {:induction false} FromLeInverse(s: seq<u8>)
    ensures Le(FromLe(s), |s|) == s
  {
    if |s| > 0 {
      FromLeInverse(s[1..]);
      assert FromLe(s) % 0x100 == s[0] && FromLe(s) / 0x100 == FromLe(s[1..]);
    }
  }

  /** s with the bytes of b written over position i. */
  function Splice(s: seq<u8>, i: nat, b: seq<u8>): (r: seq<u8>)
    requires i + |b| <= |s|
    ensures |r| == |s|
  {
    s[..i] + b + s[i + |b|..]
  }
}
