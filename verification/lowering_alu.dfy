/** The arithmetic sequences compute what the IR operations mean. */
module LoweringAlu {
  import opened Words
  import opened X86
  import opened Snippet
  import opened Lowering
  import Ir

  /** Only scratch registers and flags differ. */
  ghost predicate ScratchOnly(h: Host, h': Host)
  {
    && h'.cpu == h.cpu && h'.stack == h.stack && h'.data == h.data && h'.native == h.native
    && SameReserved(h.r, h'.r)
  }

  /** The registers that hold addresses and bounds for the whole run, and the stack pointer. */
  ghost predicate SameReserved(r: Regs, s: Regs)
  {
    s.rbx == r.rbx && s.rbp == r.rbp && s.rsp == r.rsp &&
    s.r12 == r.r12 && s.r13 == r.r13 && s.r14 == r.r14 && s.r15 == r.r15
  }

  /** The code runs to its end and leaves v in RAX. */
  ghost predicate Computes(e: Env, code: seq<Item>, h: Host, v: u64)
  {
    var r := Run(e, code, 0, h);
    r.Done? && ScratchOnly(h, r.h) && r.h.r.rax == v
  }

  // ---------------------------------------------------------------- running short straight-line code

  lemma RunSingle(e: Env, i: Instr, h: Host, h': Host)
    requires |h.cpu.x| == 32 && Exec(e, i, h) == Fall(h')
    ensures Run(e, [Op(i)], 0, h) == Done(h')
  {
    hide Exec;
    RunOp(e, [Op(i)], 0, h, h');
    RunEnd(e, [Op(i)], h');
  }

  lemma RunPair(e: Env, i: Instr, j: Instr, h: Host, h1: Host, h2: Host)
    requires |h.cpu.x| == 32 && |h1.cpu.x| == 32 && Exec(e, i, h) == Fall(h1) && Exec(e, j, h1) == Fall(h2)
    ensures Run(e, [Op(i), Op(j)], 0, h) == Done(h2)
  {
    hide Exec;
    var code := [Op(i), Op(j)];
    RunOp(e, code, 0, h, h1);
    RunOp(e, code, 1, h1, h2);
    RunEnd(e, code, h2);
  }

  lemma RunTriple(e: Env, i: Instr, j: Instr, m: Instr, h: Host, h1: Host, h2: Host, h3: Host)
    requires |h.cpu.x| == 32 && |h1.cpu.x| == 32 && |h2.cpu.x| == 32
    requires Exec(e, i, h) == Fall(h1) && Exec(e, j, h1) == Fall(h2) && Exec(e, m, h2) == Fall(h3)
    ensures Run(e, [Op(i), Op(j), Op(m)], 0, h) == Done(h3)
  {
    hide Exec;
    var code := [Op(i), Op(j), Op(m)];
    RunOp(e, code, 0, h, h1);
    RunOp(e, code, 1, h1, h2);
    RunOp(e, code, 2, h2, h3);
    RunEnd(e, code, h3);
  }

  // ---------------------------------------------------------------- word facts

  lemma DivBelow(a: int, k: int, m: int)
    requires 0 <= a < m && k >= 1
    ensures 0 <= a / k < m
  {
  }

  lemma CountMask(count: u64)
    ensures count % 0x100 % 64 == count % 64 && count % 0x100 % 32 == count % 32
  {
    var q := count / 0x100;
    ModEq(count, count % 0x100, 64, 4 * q);
    ModEq(count, count % 0x100, 32, 8 * q);
  }

  function AluShift(op: ShiftOp): Ir.AluOp
  {
    match op
    case SHL => Ir.Sll
    case SHR => Ir.Srl
    case SAR => Ir.Sra
  }

  lemma Shift64(op: ShiftOp, a: u64, count: u64)
    ensures ShiftValue(op, true, a, count % 0x100) == Ir.AluResult(AluShift(op), a, count)
  {
    hide Pow2;
    CountMask(count);
    DivBelow(a, Pow2(count % 64), TWO64);
  }

  lemma AluExec(e: Env, op: Ir.AluOp, h: Host)
    requires |h.cpu.x| == 32 && !op.Sll? && !op.Srl? && !op.Sra?
    ensures Exec(e, AluCore(op)[0].ins, h) == Fall(PutF(h, RAX, Ir.AluResult(op, h.r.rax, h.r.rcx)))
  {
    hide Bits64, Bits32, ShiftValue, Grp3Value, ReadHost, WriteHost;
  }

  lemma ShiftExec(e: Env, op: Ir.AluOp, h: Host)
    requires |h.cpu.x| == 32 && (op.Sll? || op.Srl? || op.Sra?)
    ensures Exec(e, AluCore(op)[0].ins, h) == Fall(PutF(h, RAX, Ir.AluResult(op, h.r.rax, h.r.rcx)))
  {
    hide Bits64, Bits32, ShiftValue, Grp3Value, ReadHost, WriteHost, Ir.AluResult;
    Shift64(if op.Sll? then SHL else if op.Srl? then SHR else SAR, h.r.rax, h.r.rcx);
  }

  lemma AluCoreOk(e: Env, op: Ir.AluOp, h: Host)
    requires |h.cpu.x| == 32
    ensures Computes(e, AluCore(op), h, Ir.AluResult(op, h.r.rax, h.r.rcx))
  {
    hide Run, Exec, Ir.AluResult;
    var v := Ir.AluResult(op, h.r.rax, h.r.rcx);
    if op.Sll? || op.Srl? || op.Sra? { ShiftExec(e, op, h); } else { AluExec(e, op, h); }
    RunSingle(e, AluCore(op)[0].ins, h, PutF(h, RAX, v));
  }

  // ---------------------------------------------------------------- 32-bit forms

  /** A 64-bit value and its low half agree modulo 2^32. */
  lemma W32Of64(x: int)
    ensures W32(W64(x)) == W32(x)
  {
    ModEq(x, W64(x), TWO32, TWO32 * (x / TWO64));
  }

  lemma Shl32(a: u64, count: u64)
    ensures ShiftValue(SHL, false, W32(a), count % 0x100) == W32(a * Pow2(count % 32))
  {
    hide Pow2;
    CountMask(count);
    var k := Pow2(count % 32);
    MulCongruent(a, k, W32(a), k, TWO32, a / TWO32, 0);
  }

  lemma Shr32(a: u64, count: u64)
    ensures ShiftValue(SHR, false, W32(a), count % 0x100) == W32(W32(a) / Pow2(count % 32))
  {
    hide Pow2;
    CountMask(count);
  }

  lemma Sar32(a: u64, count: u64)
    ensures ShiftValue(SAR, false, W32(a), count % 0x100) == W32(S32(W32(a)) / Pow2(count % 32))
  {
    hide Pow2;
    CountMask(count);
    assert Signed(false, W32(a)) == S32(W32(a));
  }

  /** What the 32-bit instruction leaves in RAX before the sign extension. */
  function AluWRaw(op: Ir.AluWOp, a: u64, b: u64): u64
  {
    match op
    case AddW => AluValue(ADD, false, W32(a), W32(b))
    case SubW => AluValue(SUB, false, W32(a), W32(b))
    case SllW => ShiftValue(SHL, false, W32(a), b % 0x100)
    case SrlW => ShiftValue(SHR, false, W32(a), b % 0x100)
    case SraW => ShiftValue(SAR, false, W32(a), b % 0x100)
  }

  lemma AddW32(a: u64, b: u64)
    ensures AluValue(ADD, false, W32(a), W32(b)) == W32(a + b)
    ensures AluValue(SUB, false, W32(a), W32(b)) == W32(a - b)
  {
    ModEq(a + b, W32(a) + W32(b), TWO32, a / TWO32 + b / TWO32);
    ModEq(a - b, W32(a) - W32(b), TWO32, a / TWO32 - b / TWO32);
  }

  lemma Sext32OfW32(x: int)
    ensures Sext32(W32(x)) == Sext32(x)
  {
  }

  lemma AluWRawOk(op: Ir.AluWOp, a: u64, b: u64)
    ensures Sext32(AluWRaw(op, a, b)) == Ir.AluWResult(op, a, b)
  {
    hide Pow2, ShiftValue, AluValue, Bits64, Bits32, Sext32, W32, S32;
    match op
    case AddW => AddW32(a, b); Sext32OfW32(a + b);
    case SubW => AddW32(a, b); Sext32OfW32(a - b);
    case SllW => Shl32(a, b); Sext32OfW32(a * Pow2(b % 32));
    case SrlW => Shr32(a, b); Sext32OfW32(W32(a) / Pow2(b % 32));
    case SraW => Sar32(a, b); Sext32OfW32(S32(W32(a)) / Pow2(b % 32));
  }

  lemma AluWExec(e: Env, op: Ir.AluWOp, h: Host)
    requires |h.cpu.x| == 32
    ensures Exec(e, AluWCore(op)[0].ins, h) == Fall(PutF(h, RAX, AluWRaw(op, h.r.rax, h.r.rcx)))
  {
    hide Bits64, Bits32, ShiftValue, Grp3Value, ReadHost, WriteHost;
  }

  lemma SignExtendExec(e: Env, h: Host)
    requires |h.cpu.x| == 32
    ensures Exec(e, SignExtendRax().ins, h) == Fall(Put(h, RAX, Sext32(h.r.rax)))
  {
    hide Bits64, Bits32, ShiftValue, Grp3Value, ReadHost, WriteHost;
  }

  lemma AluWCoreOk(e: Env, op: Ir.AluWOp, h: Host)
    requires |h.cpu.x| == 32
    ensures Computes(e, AluWCore(op), h, Ir.AluWResult(op, h.r.rax, h.r.rcx))
  {
    hide Run, Exec, Ir.AluWResult, AluWRaw;
    var raw := AluWRaw(op, h.r.rax, h.r.rcx);
    var h1 := PutF(h, RAX, raw);
    AluWExec(e, op, h);
    SignExtendExec(e, h1);
    AluWRawOk(op, h.r.rax, h.r.rcx);
    RunPair(e, AluWCore(op)[0].ins, SignExtendRax().ins, h, h1, Put(h1, RAX, Sext32(raw)));
  }

  // ---------------------------------------------------------------- immediate forms

  /** An immediate form is the register form with the sign-extended immediate in RCX. */
  lemma AluImmExec(e: Env, op: Ir.AluOp, imm: i32, h: Host)
    requires |h.cpu.x| == 32 && (op.Add? || op.Xor? || op.Or? || op.And?)
    ensures Exec(e, AluImmCore(op, imm)[0].ins, h) == Fall(PutF(h, RAX, Ir.AluResult(op, h.r.rax, W64(imm))))
  {
    hide Bits64, Bits32, ShiftValue, Grp3Value, ReadHost, WriteHost;
  }

  lemma ShiftImmExec(e: Env, op: Ir.AluOp, imm: i32, h: Host)
    requires |h.cpu.x| == 32 && (op.Sll? || op.Srl? || op.Sra?) && 0 <= imm < 64
    ensures Exec(e, AluImmCore(op, imm)[0].ins, h) == Fall(PutF(h, RAX, Ir.AluResult(op, h.r.rax, W64(imm))))
  {
    hide Bits64, Bits32, ShiftValue, Grp3Value, ReadHost, WriteHost, Ir.AluResult;
    assert W64(imm) == imm && imm % 0x100 == imm;
    Shift64(if op.Sll? then SHL else if op.Srl? then SHR else SAR, h.r.rax, imm);
  }

  lemma AluImmCoreOk(e: Env, op: Ir.AluOp, imm: i32, h: Host)
    requires |h.cpu.x| == 32 && !op.Sub? && (op.Sll? || op.Srl? || op.Sra? ==> 0 <= imm < 64)
    ensures Computes(e, AluImmCore(op, imm), h, Ir.AluResult(op, h.r.rax, W64(imm)))
  {
    hide Run, Exec, Ir.AluResult;
    if op.Sll? || op.Srl? || op.Sra? { ShiftImmExec(e, op, imm, h); } else { AluImmExec(e, op, imm, h); }
    RunSingle(e, AluImmCore(op, imm)[0].ins, h, PutF(h, RAX, Ir.AluResult(op, h.r.rax, W64(imm))));
  }

  lemma AluWImmExec(e: Env, op: Ir.AluWOp, imm: i32, h: Host)
    requires |h.cpu.x| == 32 && !op.SubW? && (!op.AddW? ==> 0 <= imm < 32)
    ensures Exec(e, AluWImmCore(op, imm)[0].ins, h) == Fall(PutF(h, RAX, AluWRaw(op, h.r.rax, W64(imm))))
  {
    hide Bits64, Bits32, ShiftValue, Grp3Value, ReadHost, WriteHost;
    W32Of64(imm);
  }

  lemma AluWImmCoreOk(e: Env, op: Ir.AluWOp, imm: i32, h: Host)
    requires |h.cpu.x| == 32 && !op.SubW? && (!op.AddW? ==> 0 <= imm < 32)
    ensures Computes(e, AluWImmCore(op, imm), h, Ir.AluWResult(op, h.r.rax, W64(imm)))
  {
    hide Run, Exec, Ir.AluWResult, AluWRaw;
    var raw := AluWRaw(op, h.r.rax, W64(imm));
    var h1 := PutF(h, RAX, raw);
    AluWImmExec(e, op, imm, h);
    SignExtendExec(e, h1);
    AluWRawOk(op, h.r.rax, W64(imm));
    RunPair(e, AluWImmCore(op, imm)[0].ins, SignExtendRax().ins, h, h1, Put(h1, RAX, Sext32(raw)));
  }

  // ---------------------------------------------------------------- comparison

  /** The flags of a comparison decide every condition the generator uses, signed and unsigned. */
  lemma CmpDecides(a: u64, b: u64, c: Cond)
    ensures Holds(c, CmpFlags(true, a, b)) <==>
            (match c
             case B => a < b
             case AE => a >= b
             case E => a == b
             case NE => a != b
             case A => a > b
             case L => S64(a) < S64(b)
             case GE => S64(a) >= S64(b)
             case LE => S64(a) <= S64(b))
  {
  }

  lemma SetRaxExec(e: Env, h: Host, c: Cond)
    requires |h.cpu.x| == 32 && h.f.Flags?
    ensures var h1 := Put(h, RAX, SetByte(h.r.rax, Low(RAX), if Holds(c, h.f) then 1 else 0));
            Exec(e, SetRax(c)[0].ins, h) == Fall(h1) &&
            Exec(e, SetRax(c)[1].ins, h1) == Fall(Put(h1, RAX, if Holds(c, h.f) then 1 else 0))
  {
    hide Bits64, Bits32, ShiftValue, Grp3Value, ReadHost, WriteHost;
    var b := if Holds(c, h.f) then 1 else 0;
    DivModUnique(h.r.rax - h.r.rax % 0x100 + b, 0x100, h.r.rax / 0x100, b);
  }

  lemma CmpExec(e: Env, h: Host)
    requires |h.cpu.x| == 32
    ensures Exec(e, Rr(CMP, true, RAX, RCX), h) == Fall(h.(f := CmpFlags(true, h.r.rax, h.r.rcx)))
  {
    hide CmpFlags, Bits64, Bits32, ShiftValue, Grp3Value, ReadHost, WriteHost;
  }

  lemma CmpImmExec(e: Env, h: Host, imm: i32)
    requires |h.cpu.x| == 32
    ensures Exec(e, RImm(CMPI, true, RAX, imm), h) == Fall(h.(f := CmpFlags(true, h.r.rax, W64(imm))))
  {
    hide CmpFlags, Bits64, Bits32, ShiftValue, Grp3Value, ReadHost, WriteHost;
  }

  lemma SltTail(e: Env, i: Instr, signed: bool, a: u64, b: u64, h: Host)
    requires |h.cpu.x| == 32 && Exec(e, i, h) == Fall(h.(f := CmpFlags(true, a, b)))
    ensures Computes(e, [Op(i)] + SetRax(SltCond(signed)), h, Ir.SltResult(signed, a, b))
  {
    hide Run, Exec, CmpFlags, SetByte;
    var c := SltCond(signed);
    var h1 := h.(f := CmpFlags(true, a, b));
    CmpDecides(a, b, c);
    assert h1.f.Flags? by { CmpFlagsKnown(true, a, b); }
    SetRaxExec(e, h1, c);
    var bit := if Holds(c, h1.f) then 1 else 0;
    var h2 := Put(h1, RAX, SetByte(h1.r.rax, Low(RAX), bit));
    RunTriple(e, i, SetRax(c)[0].ins, SetRax(c)[1].ins, h, h1, h2, Put(h2, RAX, bit));
    assert [Op(i)] + SetRax(c) == [Op(i), SetRax(c)[0], SetRax(c)[1]];
  }

  lemma CmpFlagsKnown(w: bool, a: u64, b: u64)
    ensures CmpFlags(w, a, b).Flags?
  {
  }

  lemma SltCoreOk(e: Env, signed: bool, h: Host)
    requires |h.cpu.x| == 32
    ensures Computes(e, SltCore(signed), h, Ir.SltResult(signed, h.r.rax, h.r.rcx))
  {
    hide Run, Exec, CmpFlags;
    CmpExec(e, h);
    SltTail(e, Rr(CMP, true, RAX, RCX), signed, h.r.rax, h.r.rcx, h);
  }

  lemma SltImmCoreOk(e: Env, signed: bool, imm: i32, h: Host)
    requires |h.cpu.x| == 32
    ensures Computes(e, SltImmCore(signed, imm), h, Ir.SltResult(signed, h.r.rax, W64(imm)))
  {
    hide Run, Exec, CmpFlags;
    CmpImmExec(e, h, imm);
    SltTail(e, RImm(CMPI, true, RAX, imm), signed, h.r.rax, W64(imm), h);
  }
}
