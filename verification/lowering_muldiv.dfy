/** The multiply and divide sequences. The divide sequence never raises a divide error. */
module LoweringMulDiv {
  import opened Words
  import opened X86
  import opened Snippet
  import opened Lowering
  import opened LoweringAlu
  import Ir

  // ---------------------------------------------------------------- multiplication

  lemma ImulLow(a: u64, b: u64)
    ensures (S64(a) * S64(b)) % TWO64 == Ir.MulResult(Ir.Mul, a, b)
  {
    MulCongruent(a, b, S64(a), S64(b), TWO64, if a < TWO63 then 0 else 1, if b < TWO63 then 0 else 1);
  }

  lemma Signed32Congruent(a: u64)
    ensures exists p :: a == S32(W32(a)) + TWO32 * p
  {
    var p := a / TWO32 + (if W32(a) < TWO31 then 0 else 1);
    assert a == S32(W32(a)) + TWO32 * p;
  }

  lemma ImulLow32(a: u64, b: u64)
    ensures Sext32((S32(W32(a)) * S32(W32(b))) % TWO32) == Ir.MulResult(Ir.Mulw, a, b)
  {
    hide S32, W64;
    Signed32Congruent(a);
    Signed32Congruent(b);
    var p :| a == S32(W32(a)) + TWO32 * p;
    var q :| b == S32(W32(b)) + TWO32 * q;
    MulCongruent(a, b, S32(W32(a)), S32(W32(b)), TWO32, p, q);
    Sext32OfW32(a * b);
    Sext32OfW32(S32(W32(a)) * S32(W32(b)));
  }

  lemma DivShift(x: int, m: int, b: int)
    requires m > 0
    ensures (x - m * b) / m == x / m - b
  {
    assert x - m * b == m * (x / m - b) + x % m;
    DivModUnique(x - m * b, m, x / m - b, x % m);
  }

  /** The unsigned high half, less rs2 when rs1 is negative, is the signed-by-unsigned high half. */
  lemma Mulhsu(a: u64, b: u64)
    ensures W64(W64(a * b / TWO64) - (if a < TWO63 then 0 else b)) == Ir.MulResult(Ir.Mulhsu, a, b)
  {
    if a >= TWO63 {
      assert S64(a) * b == a * b - TWO64 * b;
      DivShift(a * b, TWO64, b);
      var x := a * b / TWO64;
      ModEq(x - b, W64(x) - b, TWO64, x / TWO64);
    }
  }

  /** Shifting a sign bit down and masking keeps all of b or nothing. */
  lemma SignMask(a: u64, b: u64)
    ensures Bits64(BitAnd, ShiftValue(SAR, true, a, 63), b) == if a < TWO63 then 0 else b
  {
    Pow2Values();
    var m := ShiftValue(SAR, true, a, 63);
    assert m == W64(S64(a) / TWO63) by { assert Pow2(63 % 64) == TWO63; }
    if a < TWO63 {
      assert m == 0;
      AndZero(b, 64);
    } else {
      assert m == TWO64 - 1;
      AndOnes(b, 64);
    }
  }

  lemma MulExec(e: Env, op: Ir.MulOp, h: Host)
    requires |h.cpu.x| == 32 && (op.Mulh? || op.Mulhu?)
    ensures var r := Exec(e, MulCore(op)[0].ins, h);
            r.Fall? && ScratchOnly(h, r.h) && r.h.r.rdx == Ir.MulResult(op, h.r.rax, h.r.rcx)
  {
    hide Bits64, Bits32, ShiftValue, ReadHost, WriteHost;
  }

  lemma ImulExec(e: Env, w: bool, h: Host)
    requires |h.cpu.x| == 32
    ensures Exec(e, Imul(w, RAX, RCX), h) ==
            Fall(PutF(h, RAX, (Signed(w, h.r.rax) * Signed(w, h.r.rcx)) % Modulus(w)))
  {
    hide Bits64, Bits32, ShiftValue, Grp3Value, ReadHost, WriteHost;
  }

  lemma MovExec(e: Env, dst: Reg, src: Reg, h: Host)
    requires |h.cpu.x| == 32
    ensures Exec(e, MovRr(dst, src).ins, h) == Fall(Put(h, dst, Get(h.r, src)))
  {
    hide Bits64, Bits32, ShiftValue, Grp3Value, ReadHost, WriteHost;
  }

  lemma MulhsuExec(e: Env, h: Host)
    requires |h.cpu.x| == 32
    ensures var r := Exec(e, Grp3(MUL, true, RCX), h);
            r.Fall? && r.h.r.rdx == W64(h.r.rax * h.r.rcx / TWO64) && r.h.r.rsi == h.r.rsi &&
            r.h.r.rcx == h.r.rcx && ScratchOnly(h, r.h)
    ensures Exec(e, ShiftImm(SAR, true, RSI, 63), h) == Fall(PutF(h, RSI, ShiftValue(SAR, true, h.r.rsi, 63)))
    ensures Exec(e, Rr(AND, true, RSI, RCX), h) == Fall(PutF(h, RSI, Bits64(BitAnd, h.r.rsi, h.r.rcx)))
    ensures Exec(e, Rr(SUB, true, RDX, RSI), h) == Fall(PutF(h, RDX, W64(h.r.rdx - h.r.rsi)))
  {
    hide Bits64, Bits32, ShiftValue, ReadHost, WriteHost;
  }

  lemma MulhsuCoreOk(e: Env, h: Host)
    requires |h.cpu.x| == 32
    ensures Computes(e, MulCore(Ir.Mulhsu), h, Ir.MulResult(Ir.Mulhsu, h.r.rax, h.r.rcx))
  {
    hide Run, Exec, Bits64, ShiftValue, Ir.MulResult;
    var code := MulCore(Ir.Mulhsu);
    var a, b := h.r.rax, h.r.rcx;
    var h1 := Put(h, RSI, a);
    MovExec(e, RSI, RAX, h); RunOp(e, code, 0, h, h1);
    MulhsuExec(e, h1);
    var h2 := Exec(e, Grp3(MUL, true, RCX), h1).h;
    RunOp(e, code, 1, h1, h2);
    var h3 := PutF(h2, RSI, ShiftValue(SAR, true, a, 63));
    MulhsuExec(e, h2); RunOp(e, code, 2, h2, h3);
    var h4 := PutF(h3, RSI, Bits64(BitAnd, h3.r.rsi, b));
    MulhsuExec(e, h3); RunOp(e, code, 3, h3, h4);
    var h5 := PutF(h4, RDX, W64(h4.r.rdx - h4.r.rsi));
    MulhsuExec(e, h4); RunOp(e, code, 4, h4, h5);
    var h6 := Put(h5, RAX, h5.r.rdx);
    MovExec(e, RAX, RDX, h5); RunOp(e, code, 5, h5, h6);
    RunEnd(e, code, h6);
    SignMask(a, b);
    Mulhsu(a, b);
  }

  lemma MulCoreOk(e: Env, op: Ir.MulOp, h: Host)
    requires |h.cpu.x| == 32
    ensures Computes(e, MulCore(op), h, Ir.MulResult(op, h.r.rax, h.r.rcx))
  {
    hide Run, Exec, Bits64, ShiftValue, Ir.MulResult;
    var a, b := h.r.rax, h.r.rcx;
    match op
    case Mul =>
      ImulExec(e, true, h);
      ImulLow(a, b);
      RunSingle(e, Imul(true, RAX, RCX), h, PutF(h, RAX, Ir.MulResult(op, a, b)));
    case Mulw =>
      ImulExec(e, false, h);
      ImulLow32(a, b);
      var h1 := PutF(h, RAX, (S32(W32(a)) * S32(W32(b))) % TWO32);
      SignExtendExec(e, h1);
      RunPair(e, Imul(false, RAX, RCX), SignExtendRax().ins, h, h1, Put(h1, RAX, Ir.MulResult(op, a, b)));
    case Mulhsu => MulhsuCoreOk(e, h);
    case _ =>
      MulExec(e, op, h);
      var h1 := Exec(e, MulCore(op)[0].ins, h).h;
      MovExec(e, RAX, RDX, h1);
      RunPair(e, MulCore(op)[0].ins, MovRr(RAX, RDX).ins, h, h1, Put(h1, RAX, h1.r.rdx));
  }

  // ---------------------------------------------------------------- division

  /** The value an operand has at the width of the division. */
  function At(signed: bool, word: bool, a: u64): int
  {
    if word then (if signed then S32(W32(a)) else W32(a)) else (if signed then S64(a) else a)
  }

  function MinOf(word: bool): int { if word then -TWO31 else -TWO63 }

  ghost predicate Overflows(word: bool, a: u64, b: u64)
  {
    At(true, word, a) == MinOf(word) && At(true, word, b) == -1
  }

  function ToRax(word: bool, v: int): u64 { if word then Sext32(v) else W64(v) }

  lemma DivResultIs(signed: bool, word: bool, rem: bool, a: u64, b: u64)
    ensures Ir.DivResult(signed, word, rem, a, b) ==
            ToRax(word, Ir.DivInt(At(signed, word, a), At(signed, word, b), rem, MinOf(word)))
  {
    hide Ir.DivInt, Sext32, W64;
  }

  lemma SignedProduct(n: int, d: int, q: int)
    requires d != 0
    ensures d * (if (n < 0) == (d < 0) then q else -q) == if n < 0 then -(Abs(d) * q) else Abs(d) * q
  {
    assert d * -q == -(d * q);
    if d < 0 { assert Abs(d) * q == -(d * q); }
  }

  /** Rounding toward zero: the remainder is smaller than the divisor and has the
      dividend's sign. */
  lemma TruncDivSpec(n: int, d: int)
    requires d != 0
    ensures var r := n - d * Ir.TruncDiv(n, d);
            Abs(r) < Abs(d) && (n >= 0 ==> r >= 0) && (n <= 0 ==> r <= 0)
  {
    var q, m := Abs(n) / Abs(d), Abs(n) % Abs(d);
    assert Abs(n) == Abs(d) * q + m;
    SignedProduct(n, d, q);
  }

  lemma HalfQuotient(m: nat, k: nat)
    requires k >= 2
    ensures 2 * (m / k) <= m
  {
    assert m == k * (m / k) + m % k;
    assert k * (m / k) == 2 * (m / k) + (k - 2) * (m / k);
  }

  lemma QuotientFits(n: int, d: int, half: int)
    requires half > 0 && -half <= n < half && d != 0 && !(n == -half && d == -1)
    ensures -half <= Ir.TruncDiv(n, d) < half
  {
    if Abs(d) >= 2 { HalfQuotient(Abs(n), Abs(d)); } else { assert Abs(n) / 1 == Abs(n); }
  }

  // ---------------------------------------------------------------- the pieces of the divide sequence

  lemma Test(e: Env, w: bool, h: Host)
    requires |h.cpu.x| == 32
    ensures Exec(e, Rr(TEST, w, RCX, RCX), h) == Fall(h.(f := TestFlags(w, Operand(h, w, RCX), Operand(h, w, RCX))))
  {
    hide TestFlags, Bits64, Bits32, ShiftValue, Grp3Value, ReadHost, WriteHost;
  }

  lemma TestDecides(w: bool, b: u64)
    requires w || b < TWO32
    ensures TestFlags(w, b, b).Flags? && (Holds(NE, TestFlags(w, b, b)) <==> b != 0)
    ensures w ==> (Holds(LE, TestFlags(w, b, b)) <==> S64(b) <= 0)
    ensures Holds(E, TestFlags(w, b, b)) <==> b == 0
  {
    Pow2Values();
    AndSelf(b, if w then 64 else 32);
  }

  lemma CmpEqual(w: bool, a: u64, b: u64)
    requires w || (a < TWO32 && b < TWO32)
    ensures CmpFlags(w, a, b).Flags? && (Holds(NE, CmpFlags(w, a, b)) <==> a != b)
  {
  }

  lemma MovImmExec(e: Env, dst: Reg, v: u64, h: Host)
    requires |h.cpu.x| == 32
    ensures Exec(e, MovImm(dst, v), h) == Fall(Put(h, dst, v))
  {
    hide Bits64, Bits32, ShiftValue, Grp3Value, ReadHost, WriteHost;
  }

  lemma XorSelfExec(e: Env, w: bool, r: Reg, h: Host)
    requires |h.cpu.x| == 32
    ensures Exec(e, Rr(XOR, w, r, r), h) == Fall(PutF(h, r, 0))
  {
    hide BitwiseOf, ShiftValue, Grp3Value, ReadHost, WriteHost;
    XorSelfValue(w, Operand(h, w, r));
  }

  lemma XorSelfValue(w: bool, a: u64)
    ensures BitwiseOf(BitXor, w, a, a) == 0
  {
    XorSelf(if w then a else W32(a), if w then 64 else 32);
  }

  lemma ZeroDivisorOk(e: Env, word: bool, rem: bool, h: Host)
    requires |h.cpu.x| == 32
    ensures Computes(e, ZeroDivisorResult(word, rem), h,
                     if !rem then TWO64 - 1 else if word then Sext32(h.r.rax) else h.r.rax)
  {
    hide Run, Exec, Sext32;
    if !rem {
      MovImmExec(e, RAX, TWO64 - 1, h);
      RunSingle(e, MovImm(RAX, TWO64 - 1), h, Put(h, RAX, TWO64 - 1));
    } else if word {
      SignExtendExec(e, h);
      RunSingle(e, SignExtendRax().ins, h, Put(h, RAX, Sext32(h.r.rax)));
    } else {
      RunEnd(e, [], h);
    }
  }

  lemma OverflowResultOk(e: Env, word: bool, rem: bool, h: Host)
    requires |h.cpu.x| == 32
    ensures Computes(e, OverflowResult(word, rem), h,
                     if rem then 0 else if word then Sext32(h.r.rax) else h.r.rax)
  {
    hide Run, Exec, Sext32;
    if rem {
      XorSelfExec(e, true, RAX, h);
      RunSingle(e, Rr(XOR, true, RAX, RAX), h, PutF(h, RAX, 0));
    } else if word {
      SignExtendExec(e, h);
      RunSingle(e, SignExtendRax().ins, h, Put(h, RAX, Sext32(h.r.rax)));
    } else {
      RunEnd(e, [], h);
    }
  }

  /** Compares RCX with -1. */
  lemma CompareMinusOne(e: Env, w: bool, h: Host)
    requires |h.cpu.x| == 32
    ensures var f := CmpFlags(w, Operand(h, w, RCX), if w then TWO64 - 1 else TWO32 - 1);
            Exec(e, RImm(CMPI, w, RCX, -1), h) == Fall(h.(f := f)) && f.Flags? &&
            (Holds(NE, f) <==> At(true, !w, h.r.rcx) != -1)
  {
    hide Bits64, Bits32, ShiftValue, Grp3Value, ReadHost, WriteHost, CmpFlags, Holds;
    CmpEqual(w, Operand(h, w, RCX), if w then TWO64 - 1 else TWO32 - 1);
  }

  lemma CompareMinExec(e: Env, h: Host)
    requires |h.cpu.x| == 32
    ensures Exec(e, RImm(CMPI, false, RAX, -TWO31), h) == Fall(h.(f := CmpFlags(false, W32(h.r.rax), TWO31)))
    ensures h.r.rsi == TWO63 ==> Exec(e, Rr(CMP, true, RAX, RSI), h) == Fall(h.(f := CmpFlags(true, h.r.rax, TWO63)))
  {
    hide Bits64, Bits32, ShiftValue, Grp3Value, ReadHost, WriteHost, CmpFlags;
  }

  /** Runs the comparison of RAX with the most negative integer. */
  lemma CompareMinOk(e: Env, word: bool, h: Host)
    requires |h.cpu.x| == 32
    ensures var r := Run(e, CompareMin(word), 0, h);
            r.Done? && ScratchOnly(h, r.h) && r.h.r.rax == h.r.rax && r.h.r.rcx == h.r.rcx && r.h.f.Flags? &&
            (Holds(NE, r.h.f) <==> At(true, word, h.r.rax) != MinOf(word))
  {
    hide Run, Exec, CmpFlags, Holds;
    CompareMinExec(e, h);
    if word {
      CmpEqual(false, W32(h.r.rax), TWO31);
      RunSingle(e, RImm(CMPI, false, RAX, -TWO31), h, h.(f := CmpFlags(false, W32(h.r.rax), TWO31)));
    } else {
      var h1 := Put(h, RSI, TWO63);
      MovImmExec(e, RSI, TWO63, h);
      CompareMinExec(e, h1);
      CmpEqual(true, h.r.rax, TWO63);
      RunPair(e, MovImm(RSI, TWO63), Rr(CMP, true, RAX, RSI), h, h1, h1.(f := CmpFlags(true, h.r.rax, TWO63)));
    }
  }

  // ---------------------------------------------------------------- the division itself

  lemma Dividend(w: bool, a: u64, hi: u64)
    requires hi == if Signed(w, a) < 0 then Modulus(w) - 1 else 0
    ensures Signed(w, hi) * Modulus(w) + (if w then a else W32(a)) == Signed(w, a)
  {
  }

  /** Remainder and quotient at a width, as they end up in RDX and RAX. */
  function RemQuot(w: bool, n: int, d: int): (u64, u64)
    requires d != 0
  {
    var q := Ir.TruncDiv(n, d);
    ((n - d * q) % Modulus(w), q % Modulus(w))
  }

  /** IDIV of a sign-extended dividend, away from zero divisors and the overflow. */
  lemma IdivValue(w: bool, hi: u64, lo: u64, v: u64, n: int, d: int)
    requires Signed(w, hi) * Modulus(w) + lo == n && Signed(w, v) == d && d != 0 && v != 0
    requires -(Modulus(w) / 2) <= n < Modulus(w) / 2 && !(n == -(Modulus(w) / 2) && d == -1)
    ensures Grp3Value(IDIV, w, hi, lo, v) == Some(RemQuot(w, n, d))
  {
    hide Ir.TruncDiv, Signed;
    QuotientFits(n, d, Modulus(w) / 2);
  }

  lemma IdivExec(e: Env, w: bool, h: Host)
    requires |h.cpu.x| == 32
    requires At(true, !w, h.r.rcx) != 0 && !Overflows(!w, h.r.rax, h.r.rcx)
    requires h.r.rdx == if At(true, !w, h.r.rax) < 0 then Modulus(w) - 1 else 0
    ensures var p := RemQuot(w, At(true, !w, h.r.rax), At(true, !w, h.r.rcx));
            Exec(e, Grp3(IDIV, w, RCX), h) == Fall(PutF(PutF(h, RDX, p.0), RAX, p.1))
  {
    hide Bits64, Bits32, ShiftValue, ReadHost, WriteHost, Ir.TruncDiv, Grp3Value, RemQuot;
    var n, d := At(true, !w, h.r.rax), At(true, !w, h.r.rcx);
    assert Signed(w, h.r.rax) == n;
    Dividend(w, h.r.rax, h.r.rdx);
    assert Signed(w, Operand(h, w, RDX)) == Signed(w, h.r.rdx);
    assert Signed(w, Operand(h, w, RCX)) == d;
    IdivValue(w, Operand(h, w, RDX), Operand(h, w, RAX), Operand(h, w, RCX), n, d);
  }

  lemma DivValue(w: bool, lo: u64, v: u64)
    requires v != 0 && lo < Modulus(w) && v < Modulus(w)
    ensures Grp3Value(DIV, w, 0, lo, v) == Some(RemQuot(w, lo, v))
  {
    var m := Modulus(w);
    hide Modulus;
    assert Ir.TruncDiv(lo, v) == lo / v;
    assert lo - v * (lo / v) == lo % v;
    DivBelow(lo, v, m);
    assert 0 * m + lo == lo;
  }

  lemma DivExec(e: Env, w: bool, h: Host)
    requires |h.cpu.x| == 32 && h.r.rdx == 0 && Operand(h, w, RCX) != 0
    ensures var p := RemQuot(w, Operand(h, w, RAX), Operand(h, w, RCX));
            Exec(e, Grp3(DIV, w, RCX), h) == Fall(PutF(PutF(h, RDX, p.0), RAX, p.1))
  {
    hide Bits64, Bits32, ShiftValue, ReadHost, WriteHost, Grp3Value, RemQuot;
    DivValue(w, Operand(h, w, RAX), Operand(h, w, RCX));
  }

  lemma CqoExec(e: Env, w: bool, h: Host)
    requires |h.cpu.x| == 32
    ensures Exec(e, Cqo(w), h) == Fall(Put(h, RDX, if At(true, !w, h.r.rax) < 0 then Modulus(w) - 1 else 0))
  {
    hide Bits64, Bits32, ShiftValue, ReadHost, WriteHost, Grp3Value;
  }

  /** The two instructions that divide, signed or unsigned. */
  lemma DividePair(e: Env, signed: bool, word: bool, h: Host) returns (h': Host)
    requires |h.cpu.x| == 32
    requires At(signed, word, h.r.rcx) != 0 && (signed ==> !Overflows(word, h.r.rax, h.r.rcx))
    ensures ScratchOnly(h, h')
    ensures var p := RemQuot(!word, At(signed, word, h.r.rax), At(signed, word, h.r.rcx));
            h'.r.rdx == p.0 && h'.r.rax == p.1
    ensures var code := Divide(signed, word, false)[..2]; Run(e, code, 0, h) == Done(h')
  {
    hide Run, Exec, RemQuot, Overflows;
    if signed {
      var h1 := Put(h, RDX, if At(true, word, h.r.rax) < 0 then Modulus(!word) - 1 else 0);
      CqoExec(e, !word, h);
      IdivExec(e, !word, h1);
      h' := Exec(e, Grp3(IDIV, !word, RCX), h1).h;
      RunPair(e, Cqo(!word), Grp3(IDIV, !word, RCX), h, h1, h');
      assert Divide(signed, word, false)[..2] == [Op(Cqo(!word)), Op(Grp3(IDIV, !word, RCX))];
    } else {
      var h1 := PutF(h, RDX, 0);
      XorSelfExec(e, false, RDX, h);
      DivExec(e, !word, h1);
      h' := Exec(e, Grp3(DIV, !word, RCX), h1).h;
      RunPair(e, Rr(XOR, false, RDX, RDX), Grp3(DIV, !word, RCX), h, h1, h');
      assert Divide(signed, word, false)[..2] == [Op(Rr(XOR, false, RDX, RDX)), Op(Grp3(DIV, !word, RCX))];
    }
  }

  /** The division proper, for a divisor that is neither zero nor overflowing. */
  lemma DivideOk(e: Env, signed: bool, word: bool, rem: bool, h: Host)
    requires |h.cpu.x| == 32
    requires At(signed, word, h.r.rcx) != 0 && (signed ==> !Overflows(word, h.r.rax, h.r.rcx))
    ensures Computes(e, Divide(signed, word, rem), h, Ir.DivResult(signed, word, rem, h.r.rax, h.r.rcx))
  {
    hide Run, Exec, Overflows, RemQuot, Sext32, At, Ir.DivResult;
    var code := Divide(signed, word, rem);
    var pair := Divide(signed, word, false)[..2];
    assert code[0..2] == pair;
    var h1 := DividePair(e, signed, word, h);
    Embed(e, code, 0, pair, 0, h);
    var p := RemQuot(!word, At(signed, word, h.r.rax), At(signed, word, h.r.rcx));
    var h2 := if rem then Put(h1, RAX, p.0) else h1;
    var k := if rem then 3 else 2;
    if rem { MovExec(e, RAX, RDX, h1); RunOp(e, code, 2, h1, h2); }
    var h3 := if word then Put(h2, RAX, Sext32(h2.r.rax)) else h2;
    if word { SignExtendExec(e, h2); RunOp(e, code, k, h2, h3); }
    RunEnd(e, code, h3);
    assert h3.r.rax == (var v := if rem then p.0 else p.1; if word then Sext32(v) else v);
    DivideValue(signed, word, rem, h.r.rax, h.r.rcx);
  }

  lemma DivideValue(signed: bool, word: bool, rem: bool, a: u64, b: u64)
    requires At(signed, word, b) != 0 && (signed ==> !Overflows(word, a, b))
    ensures var p := RemQuot(!word, At(signed, word, a), At(signed, word, b));
            Ir.DivResult(signed, word, rem, a, b) ==
            (var v := if rem then p.0 else p.1; if word then Sext32(v) else v)
  {
    hide Ir.TruncDiv, Sext32, Ir.DivResult;
    DivResultIs(signed, word, rem, a, b);
    var n, d := At(signed, word, a), At(signed, word, b);
    var q := Ir.TruncDiv(n, d);
    assert Ir.DivInt(n, d, rem, MinOf(word)) == if rem then n - d * q else q;
    Sext32OfW32(q);
    Sext32OfW32(n - d * q);
  }

  // ---------------------------------------------------------------- the whole divide sequence

  /** A zero divisor leaves the RISC-V result and skips to the end; any other divisor falls
      through to the next piece. */
  lemma ZeroCheckOk(e: Env, signed: bool, word: bool, rem: bool, h: Host)
    requires |h.cpu.x| == 32
    ensures var code := DivCore(signed, word, rem); var n := |ZeroCheck(signed, word, rem)|;
            if At(signed, word, h.r.rcx) == 0
            then Computes(e, code, h, Ir.DivResult(signed, word, rem, h.r.rax, h.r.rcx))
            else exists h1 :: ScratchOnly(h, h1) && h1.r.rax == h.r.rax && h1.r.rcx == h.r.rcx &&
                              Run(e, code, 0, h) == Run(e, code, n, h1)
  {
    hide Run, Exec, At, TestFlags, Holds, Ir.DivResult, ZeroDivisorResult, OverflowCheck, Divide;
    var code := DivCore(signed, word, rem);
    var z := ZeroDivisorResult(word, rem);
    var b := Operand(h, !word, RCX);
    var h1 := h.(f := TestFlags(!word, b, b));
    assert code[0] == ZeroCheck(signed, word, rem)[0] && code[1] == ZeroCheck(signed, word, rem)[1];
    Test(e, !word, h);
    TestDecides(!word, b);
    RunOp(e, code, 0, h, h1);
    RunJcc(e, code, 1, NE, |z| + 2, h1);
    assert At(signed, word, h.r.rcx) == 0 <==> b == 0 by { ZeroAt(signed, word, h.r.rcx); }
    if b == 0 {
      assert code[2..2 + |z|] == z;
      ZeroDivisorOk(e, word, rem, h1);
      Embed(e, code, 2, z, 0, h1);
      var h2 := Run(e, z, 0, h1).h;
      assert code[2 + |z|] == ZeroCheck(signed, word, rem)[2 + |z|];
      RunJmp(e, code, 2 + |z|, |code| - (2 + |z|), h2);
      RunEnd(e, code, h2);
      ZeroValue(signed, word, rem, h.r.rax, h.r.rcx);
    }
  }

  lemma ZeroAt(signed: bool, word: bool, b: u64)
    ensures At(signed, word, b) == 0 <==> (if word then W32(b) else b) == 0
  {
  }

  lemma ZeroValue(signed: bool, word: bool, rem: bool, a: u64, b: u64)
    requires At(signed, word, b) == 0
    ensures Ir.DivResult(signed, word, rem, a, b) ==
            if !rem then TWO64 - 1 else if word then Sext32(a) else a
  {
    DivResultIs(signed, word, rem, a, b);
  }

  lemma OverflowValue(word: bool, rem: bool, a: u64, b: u64)
    requires Overflows(word, a, b)
    ensures Ir.DivResult(true, word, rem, a, b) ==
            if rem then 0 else if word then Sext32(a) else a
  {
    DivResultIs(true, word, rem, a, b);
  }

  /** The same for the signed overflow. */
  lemma OverflowCheckOk(e: Env, word: bool, rem: bool, h: Host)
    requires |h.cpu.x| == 32
    ensures var oc := OverflowCheck(true, word, rem); var code := oc + Divide(true, word, rem);
            if Overflows(word, h.r.rax, h.r.rcx)
            then Computes(e, code, h, Ir.DivResult(true, word, rem, h.r.rax, h.r.rcx))
            else exists h1 :: ScratchOnly(h, h1) && h1.r.rax == h.r.rax && h1.r.rcx == h.r.rcx &&
                              Run(e, code, 0, h) == Run(e, code, |oc|, h1)
  {
    hide Run, Exec, At, CmpFlags, Holds, Ir.DivResult, CompareMin, OverflowResult, Divide;
    var oc := OverflowCheck(true, word, rem);
    var code := oc + Divide(true, word, rem);
    var c, o := CompareMin(word), OverflowResult(word, rem);
    assert forall i | 0 <= i < |oc| :: code[i] == oc[i];
    var w := !word;
    var h1 := h.(f := CmpFlags(w, Operand(h, w, RCX), if w then TWO64 - 1 else TWO32 - 1));
    CompareMinusOne(e, w, h);
    RunOp(e, code, 0, h, h1);
    RunJcc(e, code, 1, NE, |c| + |o| + 3, h1);
    if !Holds(NE, h1.f) {
      assert code[2..2 + |c|] == c;
      CompareMinOk(e, word, h1);
      Embed(e, code, 2, c, 0, h1);
      var h2 := Run(e, c, 0, h1).h;
      assert oc[2 + |c|] == JccTo(NE, Local(|o| + 2));
      RunJcc(e, code, 2 + |c|, NE, |o| + 2, h2);
      if !Holds(NE, h2.f) {
        assert code[3 + |c|..3 + |c| + |o|] == o;
        OverflowResultOk(e, word, rem, h2);
        Embed(e, code, 3 + |c|, o, 0, h2);
        var h3 := Run(e, o, 0, h2).h;
        assert oc[3 + |c| + |o|] == JmpTo(Local(1 + |Divide(true, word, rem)|));
        RunJmp(e, code, 3 + |c| + |o|, 1 + |Divide(true, word, rem)|, h3);
        RunEnd(e, code, h3);
        OverflowValue(word, rem, h.r.rax, h.r.rcx);
      }
    }
  }

  /** The divide sequence computes the RISC-V result for all operands, and in particular
      never divides by zero or produces a quotient that does not fit. */
  lemma DivCoreOk(e: Env, signed: bool, word: bool, rem: bool, h: Host)
    requires |h.cpu.x| == 32
    ensures Computes(e, DivCore(signed, word, rem), h, Ir.DivResult(signed, word, rem, h.r.rax, h.r.rcx))
  {
    hide Run, Exec, At, Overflows, Ir.DivResult, ZeroCheck, OverflowCheck, Divide;
    var zc, oc, d := ZeroCheck(signed, word, rem), OverflowCheck(signed, word, rem), Divide(signed, word, rem);
    var code := DivCore(signed, word, rem);
    ZeroCheckOk(e, signed, word, rem, h);
    if At(signed, word, h.r.rcx) != 0 {
      var h1 :| ScratchOnly(h, h1) && h1.r.rax == h.r.rax && h1.r.rcx == h.r.rcx &&
                Run(e, code, 0, h) == Run(e, code, |zc|, h1);
      assert code[|zc|..|zc| + |oc + d|] == oc + d;
      if signed {
        OverflowCheckOk(e, word, rem, h1);
        if Overflows(word, h.r.rax, h.r.rcx) {
          Embed(e, code, |zc|, oc + d, 0, h1);
          RunEnd(e, code, Run(e, oc + d, 0, h1).h);
        } else {
          var h2 :| ScratchOnly(h1, h2) && h2.r.rax == h.r.rax && h2.r.rcx == h.r.rcx &&
                    Run(e, oc + d, 0, h1) == Run(e, oc + d, |oc|, h2);
          FinishDivide(e, signed, word, rem, oc + d, |oc|, h2);
          Embed(e, code, |zc|, oc + d, 0, h1);
          RunEnd(e, code, Run(e, oc + d, 0, h1).h);
        }
      } else {
        assert oc == [] by { NoOverflowCheck(word, rem); }
        FinishDivide(e, signed, word, rem, code, |zc|, h1);
      }
    }
  }

  lemma NoOverflowCheck(word: bool, rem: bool)
    ensures OverflowCheck(false, word, rem) == []
  {
  }

  lemma FinishDivide(e: Env, signed: bool, word: bool, rem: bool, code: seq<Item>, k: nat, h: Host)
    requires |h.cpu.x| == 32
    requires k + |Divide(signed, word, rem)| == |code| && code[k..] == Divide(signed, word, rem)
    requires At(signed, word, h.r.rcx) != 0 && (signed ==> !Overflows(word, h.r.rax, h.r.rcx))
    ensures var r := Run(e, code, k, h);
            r.Done? && ScratchOnly(h, r.h) && r.h.r.rax == Ir.DivResult(signed, word, rem, h.r.rax, h.r.rcx)
  {
    hide Run, Exec, At, Overflows, Ir.DivResult, Divide;
    var d := Divide(signed, word, rem);
    DivideOk(e, signed, word, rem, h);
    Embed(e, code, k, d, 0, h);
    RunEnd(e, code, Run(e, d, 0, h).h);
  }
}
