/** The 16-bit instructions against their 32-bit expansions, chapter 16 of the RISC-V
    Unprivileged ISA (20191213). */
module Compressed {
  import opened Words
  import opened Ir
  import opened Decode
  import opened Reference
  import opened Translate
  import opened Isa
  import opened Rv64

  // ---------------------------------------------------------------- immediates, bit by bit

  /** The bit of weight w. */
  function Bit(c: Half, w: int): int
    requires w > 0
  {
    c / w % 2
  }

  // Where the manual puts each bit of each immediate.

  function OffsetLw(c: Half): int
  {
    Bit(c, 0x1000) * 0x20 + Bit(c, 0x800) * 0x10 + Bit(c, 0x400) * 8 + Bit(c, 0x40) * 4 + Bit(c, 0x20) * 0x40
  }

  function OffsetLd(c: Half): int
  {
    Bit(c, 0x1000) * 0x20 + Bit(c, 0x800) * 0x10 + Bit(c, 0x400) * 8 + Bit(c, 0x40) * 0x80 + Bit(c, 0x20) * 0x40
  }

  function OffsetLwsp(c: Half): int
  {
    Bit(c, 0x1000) * 0x20 + Bit(c, 0x40) * 0x10 + Bit(c, 0x20) * 8 + Bit(c, 0x10) * 4 + Bit(c, 8) * 0x80 + Bit(c, 4) * 0x40
  }

  function OffsetLdsp(c: Half): int
  {
    Bit(c, 0x1000) * 0x20 + Bit(c, 0x40) * 0x10 + Bit(c, 0x20) * 8 + Bit(c, 0x10) * 0x100 + Bit(c, 8) * 0x80 + Bit(c, 4) * 0x40
  }

  function OffsetSwsp(c: Half): int
  {
    Bit(c, 0x1000) * 0x20 + Bit(c, 0x800) * 0x10 + Bit(c, 0x400) * 8 + Bit(c, 0x200) * 4 + Bit(c, 0x100) * 0x80 + Bit(c, 0x80) * 0x40
  }

  function OffsetSdsp(c: Half): int
  {
    Bit(c, 0x1000) * 0x20 + Bit(c, 0x800) * 0x10 + Bit(c, 0x400) * 8 + Bit(c, 0x200) * 0x100 + Bit(c, 0x100) * 0x80 + Bit(c, 0x80) * 0x40
  }

  function OffsetJ(c: Half): int
  {
    Bit(c, 0x1000) * -0x800 + Bit(c, 0x800) * 0x10 + Bit(c, 0x400) * 0x200 + Bit(c, 0x200) * 0x100 + Bit(c, 0x100) * 0x400
    + Bit(c, 0x80) * 0x40 + Bit(c, 0x40) * 0x80 + Bit(c, 0x20) * 8 + Bit(c, 0x10) * 4 + Bit(c, 8) * 2 + Bit(c, 4) * 0x20
  }

  function OffsetB(c: Half): int
  {
    Bit(c, 0x1000) * -0x100 + Bit(c, 0x800) * 0x10 + Bit(c, 0x400) * 8 + Bit(c, 0x40) * 0x80 + Bit(c, 0x20) * 0x40
    + Bit(c, 0x10) * 4 + Bit(c, 8) * 2 + Bit(c, 4) * 0x20
  }

  function ImmAddi16sp(c: Half): int
  {
    Bit(c, 0x1000) * -0x200 + Bit(c, 0x40) * 0x10 + Bit(c, 0x20) * 0x40 + Bit(c, 0x10) * 0x100 + Bit(c, 8) * 0x80 + Bit(c, 4) * 0x20
  }

  function ImmAddi4spn(c: Half): int
  {
    Bit(c, 0x1000) * 0x20 + Bit(c, 0x800) * 0x10 + Bit(c, 0x400) * 0x200 + Bit(c, 0x200) * 0x100 + Bit(c, 0x100) * 0x80
    + Bit(c, 0x80) * 0x40 + Bit(c, 0x40) * 4 + Bit(c, 0x20) * 8
  }

  function Imm6(c: Half): int
  {
    Bit(c, 0x1000) * -0x20 + Bit(c, 0x40) * 0x10 + Bit(c, 0x20) * 8 + Bit(c, 0x10) * 4 + Bit(c, 8) * 2 + Bit(c, 4)
  }

  function Shamt6(c: Half): int
  {
    Bit(c, 0x1000) * 0x20 + Bit(c, 0x40) * 0x10 + Bit(c, 0x20) * 8 + Bit(c, 0x10) * 4 + Bit(c, 8) * 2 + Bit(c, 4)
  }

  lemma Halve(c: int, w: int)
    requires c >= 0 && w > 0
    ensures c / (2 * w) == c / w / 2
  {
    var h := c / w;
    DivModUnique(c, 2 * w, h / 2, h % 2 * w + c % w);
  }

  /** A field is the sum of its bits. */
  lemma FieldBits(c: Half, w: int)
    requires w > 0
    ensures c / w % 4 == Bit(c, w) + Bit(c, 2 * w) * 2
    ensures c / w % 8 == Bit(c, w) + Bit(c, 2 * w) * 2 + Bit(c, 4 * w) * 4
    ensures c / w % 0x10 == Bit(c, w) + Bit(c, 2 * w) * 2 + Bit(c, 4 * w) * 4 + Bit(c, 8 * w) * 8
    ensures c / w % 0x20 == Bit(c, w) + Bit(c, 2 * w) * 2 + Bit(c, 4 * w) * 4 + Bit(c, 8 * w) * 8 + Bit(c, 0x10 * w) * 0x10
  {
    Halve(c, w);
    Halve(c, 2 * w);
    Halve(c, 4 * w);
    Halve(c, 8 * w);
    var h := c / w;
    assert c / (2 * w) == h / 2 && c / (4 * w) == h / 2 / 2 && c / (8 * w) == h / 2 / 2 / 2;
    FiveBits(h);
  }

  lemma FiveBits(h: int)
    requires h >= 0
    ensures h % 4 == h % 2 + h / 2 % 2 * 2
    ensures h % 8 == h % 2 + h / 2 % 2 * 2 + h / 2 / 2 % 2 * 4
    ensures h % 0x10 == h % 2 + h / 2 % 2 * 2 + h / 2 / 2 % 2 * 4 + h / 2 / 2 / 2 % 2 * 8
    ensures h % 0x20 == h % 2 + h / 2 % 2 * 2 + h / 2 / 2 % 2 * 4 + h / 2 / 2 / 2 % 2 * 8 + h / 2 / 2 / 2 / 2 % 2 * 0x10
  {
    LowBit(h, 2);
    LowBit(h, 4);
    LowBit(h, 8);
    LowBit(h, 0x10);
    LowBit(h / 2, 2);
    LowBit(h / 2, 4);
    LowBit(h / 2, 8);
    LowBit(h / 2 / 2, 2);
    LowBit(h / 2 / 2, 4);
    LowBit(h / 2 / 2 / 2, 2);
  }

  lemma LowBit(h: int, m: int)
    requires h >= 0 && m > 0
    ensures h % (2 * m) == h % 2 + h / 2 % m * 2
  {
    var g := h / 2;
    DivModUnique(h, 2 * m, g / m, h % 2 + g % m * 2);
  }

  /** The field macros assemble exactly the immediates of the manual. */
  lemma ImmediatesMatch(c: Half)
    ensures CImmLw(c) == OffsetLw(c) && CImmLd(c) == OffsetLd(c) && CImmLwsp(c) == OffsetLwsp(c)
    ensures CImmLdsp(c) == OffsetLdsp(c) && CImmSwsp(c) == OffsetSwsp(c) && CImmSdsp(c) == OffsetSdsp(c)
    ensures CImmJ(c) == OffsetJ(c) && CImmB(c) == OffsetB(c) && CImmAddi16sp(c) == ImmAddi16sp(c)
    ensures CImmAddi4spn(c) == ImmAddi4spn(c) && CImm(c) == Imm6(c) && CShamt(c) == Shamt6(c)
  {
    FieldBits(c, 4);
    FieldBits(c, 8);
    FieldBits(c, 0x10);
    FieldBits(c, 0x20);
    FieldBits(c, 0x80);
    FieldBits(c, 0x200);
    FieldBits(c, 0x400);
    FieldBits(c, 0x800);
  }

  lemma RegisterFields(c: Half)
    ensures CRd(c) == Bit(c, 0x80) + Bit(c, 0x100) * 2 + Bit(c, 0x200) * 4 + Bit(c, 0x400) * 8 + Bit(c, 0x800) * 0x10
    ensures CRs2(c) == Bit(c, 4) + Bit(c, 8) * 2 + Bit(c, 0x10) * 4 + Bit(c, 0x20) * 8 + Bit(c, 0x40) * 0x10
    ensures CRs1P(c) == 8 + Bit(c, 0x80) + Bit(c, 0x100) * 2 + Bit(c, 0x200) * 4
    ensures CRs2P(c) == 8 + Bit(c, 4) + Bit(c, 8) * 2 + Bit(c, 0x10) * 4
  {
    hide Bit;
    FieldBits(c, 4);
    FieldBits(c, 0x80);
  }

  lemma TopField(c: Half)
    ensures CFunct3(c) == Bit(c, 0x2000) + Bit(c, 0x4000) * 2 + Bit(c, 0x8000) * 4
  {
    Halve(c, 0x2000);
    Halve(c, 0x4000);
    var t := c / 0x2000;
    assert t / 2 / 2 < 2;
  }

  lemma MinorFields(c: Half)
    ensures CMisc(c) == Bit(c, 0x400) + Bit(c, 0x800) * 2 && CAlu(c) == Bit(c, 0x20) + Bit(c, 0x40) * 2
  {
    hide Bit;
    FieldBits(c, 0x20);
    FieldBits(c, 0x400);
  }

  /** The fields are where the manual's formats have them: funct3 in bits 15 to 13, rd or rs1 in 11 to 7,
      rs2 in 6 to 2, the short registers x8 to x15 in 9 to 7 and 4 to 2, and the minor functions in 12,
      11 to 10 and 6 to 5; an encoding is long exactly if its two lowest bits are set. */
  lemma FieldsMatch(c: Half)
    ensures CFunct3(c) == Bit(c, 0x2000) + Bit(c, 0x4000) * 2 + Bit(c, 0x8000) * 4
    ensures CRd(c) == Bit(c, 0x80) + Bit(c, 0x100) * 2 + Bit(c, 0x200) * 4 + Bit(c, 0x400) * 8 + Bit(c, 0x800) * 0x10
    ensures CRs2(c) == Bit(c, 4) + Bit(c, 8) * 2 + Bit(c, 0x10) * 4 + Bit(c, 0x20) * 8 + Bit(c, 0x40) * 0x10
    ensures CRs1P(c) == 8 + Bit(c, 0x80) + Bit(c, 0x100) * 2 + Bit(c, 0x200) * 4
    ensures CRs2P(c) == 8 + Bit(c, 4) + Bit(c, 8) * 2 + Bit(c, 0x10) * 4
    ensures CMisc(c) == Bit(c, 0x400) + Bit(c, 0x800) * 2 && CAlu(c) == Bit(c, 0x20) + Bit(c, 0x40) * 2
    ensures CBit12(c) == Bit(c, 0x1000) && (!Is16Bit(c) <==> Bit(c, 1) == 1 && Bit(c, 2) == 1)
  {
    hide CFunct3, CRd, CRs2, CRs1P, CRs2P, CMisc, CAlu;
    RegisterFields(c);
    TopField(c);
    MinorFields(c);
  }

  // ---------------------------------------------------------------- expansions

  function If(c: bool, a: Insn): Option<Insn> { if c then Some(a) else None }

  function Expand00(c: Half): Option<Insn>
  {
    var f3, rd, rs1 := CFunct3(c), CRs2P(c), CRs1P(c);
    if f3 == 0 then If(ImmAddi4spn(c) != 0, Immediate(ADDI, rd, 2, ImmAddi4spn(c)))
    else if f3 == 2 then Some(LoadFrom(LW, rd, rs1, OffsetLw(c)))
    else if f3 == 3 then Some(LoadFrom(LD, rd, rs1, OffsetLd(c)))
    else if f3 == 6 then Some(StoreTo(SW, rs1, rd, OffsetLw(c)))
    else if f3 == 7 then Some(StoreTo(SD, rs1, rd, OffsetLd(c)))
    else None
  }

  function ExpandAlu(c: Half): Option<Insn>
  {
    var f2, f, r, rs2 := CMisc(c), CAlu(c), CRs1P(c), CRs2P(c);
    if f2 == 0 then Some(Shift(SRLI, r, r, Shamt6(c)))
    else if f2 == 1 then Some(Shift(SRAI, r, r, Shamt6(c)))
    else if f2 == 2 then Some(Immediate(ANDI, r, r, Imm6(c)))
    else if CBit12(c) == 0 then
      Some(Register(if f == 0 then SUB else if f == 1 then XOR else if f == 2 then OR else AND, r, r, rs2))
    else If(f < 2, Register(if f == 0 then SUBW else ADDW, r, r, rs2))
  }

  function Expand01(c: Half): Option<Insn>
  {
    var f3, rd := CFunct3(c), CRd(c);
    if f3 == 0 then Some(Immediate(ADDI, rd, rd, Imm6(c)))
    else if f3 == 1 then If(rd != 0, Immediate(ADDIW, rd, rd, Imm6(c)))
    else if f3 == 2 then Some(Immediate(ADDI, rd, 0, Imm6(c)))
    else if f3 == 3 then
      if rd == 2 then If(ImmAddi16sp(c) != 0, Immediate(ADDI, 2, 2, ImmAddi16sp(c)))
      else If(Imm6(c) != 0, LoadUpper(rd, Imm6(c)))
    else if f3 == 4 then ExpandAlu(c)
    else if f3 == 5 then Some(JumpAndLink(0, OffsetJ(c)))
    else Some(BranchIf(if f3 == 6 then BEQ else BNE, CRs1P(c), 0, OffsetB(c)))
  }

  function Expand10(c: Half): Option<Insn>
  {
    var f3, rd, rs2 := CFunct3(c), CRd(c), CRs2(c);
    if f3 == 0 then Some(Shift(SLLI, rd, rd, Shamt6(c)))
    else if f3 == 2 then If(rd != 0, LoadFrom(LW, rd, 2, OffsetLwsp(c)))
    else if f3 == 3 then If(rd != 0, LoadFrom(LD, rd, 2, OffsetLdsp(c)))
    else if f3 == 4 then
      if CBit12(c) == 0 then
        if rs2 == 0 then If(rd != 0, JumpAndLinkReg(0, rd, 0)) else Some(Register(ADD, rd, 0, rs2))
      else if rs2 != 0 then Some(Register(ADD, rd, rd, rs2))
      else if rd == 0 then Some(EnvironmentBreak)
      else Some(JumpAndLinkReg(1, rd, 0))
    else if f3 == 6 then Some(StoreTo(SW, 2, rs2, OffsetSwsp(c)))
    else if f3 == 7 then Some(StoreTo(SD, 2, rs2, OffsetSdsp(c)))
    else None
  }

  /** The instruction a 16-bit encoding stands for; None if it is reserved or belongs to the
      floating-point extension. */
  function Expand(c: Half): (a: Option<Insn>)
    requires Is16Bit(c)
    ensures a.Some? ==> Legal(a.value)
  {
    ExpandLegal(c);
    if c % 4 == 0 then Expand00(c) else if c % 4 == 1 then Expand01(c) else Expand10(c)
  }

  lemma ExpandLegal(c: Half)
    ensures Expand00(c).Some? ==> Legal(Expand00(c).value)
    ensures Expand01(c).Some? ==> Legal(Expand01(c).value)
    ensures Expand10(c).Some? ==> Legal(Expand10(c).value)
  {
    hide OffsetJ, OffsetB, OffsetLw, OffsetLd, OffsetLwsp, OffsetLdsp, OffsetSwsp, OffsetSdsp, Imm6, Shamt6, ImmAddi16sp, ImmAddi4spn;
    hide CImmJ, CImmB, CImmLw, CImmLd, CImmLwsp, CImmLdsp, CImmSwsp, CImmSdsp, CImm, CShamt, CImmAddi16sp, CImmAddi4spn;
    hide CRd, CRs2, CRs1P, CRs2P, CFunct3, CBit12, CMisc, CAlu;
    ImmediatesMatch(c);
    OffsetsEven(c);
  }

  lemma OffsetsEven(c: Half)
    ensures CImmJ(c) % 2 == 0 && CImmB(c) % 2 == 0
  {
    hide CBit12;
    EvenSum(CBit12(c), 0x400, 0x80);
    EightEven(Sign(CBit12(c), 0x400), c / 0x100 % 2, c / 0x200 % 4, c / 0x40 % 2, c / 0x80 % 2, c / 4 % 2, c / 0x800 % 2, c / 8 % 8);
    FiveEven(Sign(CBit12(c), 0x80), c / 0x20 % 4, c / 4 % 2, c / 0x400 % 4, c / 8 % 4);
  }

  lemma EightEven(s: int, a: int, b: int, d: int, e: int, f: int, g: int, h: int)
    ensures (2 * s + a * 0x400 + b * 0x100 + d * 0x80 + e * 0x40 + f * 0x20 + g * 0x10 + h * 2) % 2 == 0
  {
    DivModUnique(2 * s + a * 0x400 + b * 0x100 + d * 0x80 + e * 0x40 + f * 0x20 + g * 0x10 + h * 2, 2,
                 s + a * 0x200 + b * 0x80 + d * 0x40 + e * 0x20 + f * 0x10 + g * 8 + h, 0);
  }

  lemma FiveEven(s: int, a: int, b: int, d: int, e: int)
    ensures (2 * s + a * 0x40 + b * 0x20 + d * 8 + e * 2) % 2 == 0
  {
    DivModUnique(2 * s + a * 0x40 + b * 0x20 + d * 8 + e * 2, 2, s + a * 0x20 + b * 0x10 + d * 4 + e, 0);
  }

  lemma EvenSum(bit: int, m: int, n: int)
    ensures Sign(bit, 2 * m) == 2 * Sign(bit, m) && Sign(bit, 2 * n) == 2 * Sign(bit, n)
  {
  }

  /** Compressed jump to a register. */
  predicate IsCJr(c: Half)
  {
    c % 4 == 2 && CFunct3(c) == 4 && CBit12(c) == 0 && CRs2(c) == 0 && CRd(c) != 0
  }

  /** Compressed jump-and-link to a register. */
  predicate IsCJalr(c: Half)
  {
    c % 4 == 2 && CFunct3(c) == 4 && CBit12(c) == 1 && CRs2(c) == 0 && CRd(c) != 0
  }

  // ---------------------------------------------------------------- same effect

  /** These operations do what the operations of the instruction do. */
  ghost predicate Same(sp: Space, ops: seq<Instr>, a: Insn, pc: u64, g: Guest)
    requires GuestFits(sp, g)
  {
    OpsOk(ops) && OpsOk(Operations(a, pc)) && RunOps(sp, ops, g) == RunOps(sp, Operations(a, pc), g)
  }

  lemma SameOps(sp: Space, ops: seq<Instr>, a: Insn, pc: u64, g: Guest)
    requires GuestFits(sp, g) && Legal(a) && ops == Operations(a, pc)
    ensures Same(sp, ops, a, pc, g)
  {
    hide Operations, Assemble, Rv32, InstrOk;
    Decodes(a, pc);
    Rv32Shape(Assemble(a), pc);
  }

  lemma Same00(sp: Space, c: Half, pc: u64, g: Guest)
    requires c % 4 == 0 && Expand00(c).Some? && GuestFits(sp, g)
    ensures Same(sp, Rvc00(c, pc), Expand00(c).value, pc, g)
  {
    hide CRs1P, CRs2P, CFunct3, OffsetLw, OffsetLd, ImmAddi4spn, CImmLw, CImmLd, CImmAddi4spn, Same;
    ImmediatesMatch(c);
    SameOps(sp, Rvc00(c, pc), Expand00(c).value, pc, g);
  }

  /** Operations that change nothing: a discarded result, a shift by zero. */
  lemma Idle(sp: Space, i: Instr, g: Guest)
    requires GuestFits(sp, g) && InstrOk(i)
    requires Discarded(i) || (i.op.AluImm? && (i.op.aluImm.Sll? || i.op.aluImm.Srl? || i.op.aluImm.Sra?) && i.imm == 0 && i.rs1 == i.rd)
    ensures OpsOk([i]) && RunOps(sp, [i], g) == Next(g)
  {
    hide Bits64;
    RunOne(sp, i, g);
    if !Discarded(i) { ShiftByZero(i.op.aluImm, g.x[i.rd]); }
  }

  lemma ShiftByZero(op: AluOp, a: u64)
    requires op.Sll? || op.Srl? || op.Sra?
    ensures AluResult(op, a, 0) == a
  {
    assert Pow2(0) == 1;
  }

  /** Nothing at all, and an instruction that changes nothing. */
  lemma SameNothing(sp: Space, a: Insn, pc: u64, g: Guest)
    requires GuestFits(sp, g) && Legal(a) && |Operations(a, pc)| == 1
    requires var i := Operations(a, pc)[0];
             Discarded(i) || (i.op.AluImm? && (i.op.aluImm.Sll? || i.op.aluImm.Srl? || i.op.aluImm.Sra?) && i.imm == 0 && i.rs1 == i.rd)
    ensures Same(sp, [], a, pc, g)
  {
    hide Operations, Assemble, Rv32, RunOps, Discarded, InstrOk;
    SameOps(sp, Operations(a, pc), a, pc, g);
    assert Operations(a, pc) == [Operations(a, pc)[0]];
    Idle(sp, Operations(a, pc)[0], g);
    RunNone(sp, g);
  }

  lemma SameAlu(sp: Space, c: Half, pc: u64, g: Guest)
    requires c % 4 == 1 && CFunct3(c) == 4 && ExpandAlu(c).Some? && GuestFits(sp, g) && Legal(ExpandAlu(c).value)
    ensures Same(sp, RvcMiscAlu(c, pc), ExpandAlu(c).value, pc, g)
  {
    hide CRs1P, CRs2P, CMisc, CAlu, CBit12, Imm6, Shamt6, CImm, CShamt, CFunct3, Same;
    hide CImmJ, CImmB, CImmLw, CImmLd, CImmLwsp, CImmLdsp, CImmSwsp, CImmSdsp, CImmAddi16sp, CImmAddi4spn;
    hide OffsetJ, OffsetB, OffsetLw, OffsetLd, OffsetLwsp, OffsetLdsp, OffsetSwsp, OffsetSdsp, ImmAddi16sp, ImmAddi4spn;
    ImmediatesMatch(c);
    AluRange(c);
    if CMisc(c) < 2 && CShamt(c) == 0 {
      SameNothing(sp, ExpandAlu(c).value, pc, g);
    } else {
      SameOps(sp, RvcMiscAlu(c, pc), ExpandAlu(c).value, pc, g);
    }
  }

  lemma AluRange(c: Half)
    ensures 0 <= CAlu(c) < 4 && 0 <= CMisc(c) < 4 && 0 <= CBit12(c) < 2 && 0 <= CFunct3(c) < 8
  {
  }

  lemma Same01(sp: Space, c: Half, pc: u64, g: Guest)
    requires c % 4 == 1 && Expand01(c).Some? && GuestFits(sp, g)
    ensures Same(sp, Rvc01(c, pc), Expand01(c).value, pc, g)
  {
    hide CRs1P, CRd, CFunct3, Imm6, OffsetJ, OffsetB, ImmAddi16sp, CImm, CImmJ, CImmB, CImmAddi16sp, ExpandAlu, RvcMiscAlu, Same;
    hide CImmLw, CImmLd, CImmLwsp, CImmLdsp, CImmSwsp, CImmSdsp, CImmAddi4spn;
    hide OffsetLw, OffsetLd, OffsetLwsp, OffsetLdsp, OffsetSwsp, OffsetSdsp, ImmAddi4spn;
    ImmediatesMatch(c);
    AluRange(c);
    ExpandLegal(c);
    var f3, rd, a := CFunct3(c), CRd(c), Expand01(c).value;
    if f3 == 4 {
      SameAlu(sp, c, pc, g);
    } else if f3 == 5 {
      JumpIsJal(sp, CImmJ(c), pc, g);
    } else if f3 == 6 {
      BeqzIsBeq(sp, a, pc, g);
    } else if f3 < 4 && rd == 0 {
      SameNothing(sp, a, pc, g);
    } else if f3 == 2 {
      LiIsAddi(sp, a, pc, g);
    } else {
      SameOps(sp, Rvc01(c, pc), a, pc, g);
    }
  }

  lemma LiIsAddi(sp: Space, a: Insn, pc: u64, g: Guest)
    requires GuestFits(sp, g) && Legal(a) && a.Immediate? && a.i == ADDI && a.rd != 0 && a.rs1 == 0
    ensures Same(sp, One(Li, a.rd, 0, 0, a.imm, pc), a, pc, g)
  {
    RunOne(sp, One(Li, a.rd, 0, 0, a.imm, pc)[0], g);
    RunOne(sp, Operations(a, pc)[0], g);
  }

  lemma BeqzIsBeq(sp: Space, a: Insn, pc: u64, g: Guest)
    requires GuestFits(sp, g) && Legal(a) && a.BranchIf? && a.b == BEQ && a.rs2 == 0
    ensures Same(sp, One(Beqz, 0, a.rs1, 0, pc + a.offset, pc), a, pc, g)
  {
    RunOne(sp, One(Beqz, 0, a.rs1, 0, pc + a.offset, pc)[0], g);
    RunOne(sp, Operations(a, pc)[0], g);
  }

  lemma JumpIsJal(sp: Space, offset: int, pc: u64, g: Guest)
    requires GuestFits(sp, g)
    ensures Same(sp, One(Jmp, 0, 0, 0, pc + offset, pc), JumpAndLink(0, offset), pc, g)
  {
    var ops := Operations(JumpAndLink(0, offset), pc);
    assert ops[1..] == One(Jmp, 0, 0, 0, pc + offset, pc);
    assert Step(sp, ops[0], g) == Next(g);
  }

  lemma Same10(sp: Space, c: Half, pc: u64, g: Guest)
    requires c % 4 == 2 && c != C_EBREAK && Expand10(c).Some? && GuestFits(sp, g) && !IsCJalr(c)
    requires IsCJr(c) ==> g.x[CRd(c)] % 2 == 0
    ensures Same(sp, Rvc10(c, pc), Expand10(c).value, pc, g)
  {
    hide CRd, CRs2, CFunct3, CBit12, Shamt6, OffsetLwsp, OffsetLdsp, OffsetSwsp, OffsetSdsp, Same;
    hide CShamt, CImmLwsp, CImmLdsp, CImmSwsp, CImmSdsp, RvcJump;
    ImmediatesMatch(c);
    ExpandLegal(c);
    var f3, rd := CFunct3(c), CRd(c);
    if f3 == 0 && (rd == 0 || CShamt(c) == 0) {
      SameNothing(sp, Expand10(c).value, pc, g);
    } else if f3 == 4 {
      SameJump(sp, c, pc, g);
    } else {
      SameOps(sp, Rvc10(c, pc), Expand10(c).value, pc, g);
    }
  }

  lemma SameJump(sp: Space, c: Half, pc: u64, g: Guest)
    requires c % 4 == 2 && CFunct3(c) == 4 && c != C_EBREAK && Expand10(c).Some? && GuestFits(sp, g) && !IsCJalr(c)
    requires IsCJr(c) ==> g.x[CRd(c)] % 2 == 0
    ensures Same(sp, RvcJump(c, pc), Expand10(c).value, pc, g)
  {
    hide CRd, CRs2, CFunct3, CBit12, Same;
    AluRange(c);
    ExpandLegal(c);
    var rd, rs2, a := CRd(c), CRs2(c), Expand10(c).value;
    if CBit12(c) == 0 && rs2 == 0 {
      JrIsJalr(sp, rd, pc, g);
    } else {
      if CBit12(c) == 1 { OnlyEbreak(c); }
      if rd == 0 { SameNothing(sp, a, pc, g); }
      else if CBit12(c) == 0 { MvIsAdd(sp, a, pc, g); }
      else { SameOps(sp, RvcJump(c, pc), a, pc, g); }
    }
  }

  /** The all-zero operand form of the add encoding is the breakpoint. */
  lemma OnlyEbreak(c: Half)
    requires c % 4 == 2 && CFunct3(c) == 4 && CBit12(c) == 1
    ensures CRs2(c) == 0 && CRd(c) == 0 <==> c == C_EBREAK
  {
    var h := c / 4;
    assert c == 4 * h + 2 && c / 0x80 == h / 0x20 && c / 0x1000 == h / 0x20 / 0x20 && c / 0x2000 == h / 0x20 / 0x20 / 2;
  }

  lemma MvIsAdd(sp: Space, a: Insn, pc: u64, g: Guest)
    requires GuestFits(sp, g) && Legal(a) && a.Register? && a.r == ADD && a.rd != 0 && a.rs1 == 0
    ensures Same(sp, One(Mov, a.rd, 0, a.rs2, 0, pc), a, pc, g)
  {
    RunOne(sp, One(Mov, a.rd, 0, a.rs2, 0, pc)[0], g);
    RunOne(sp, Operations(a, pc)[0], g);
  }

  /** A jump to a register keeps bit 0 of the address, its expansion clears it. */
  lemma JrIsJalr(sp: Space, rs1: nat, pc: u64, g: Guest)
    requires GuestFits(sp, g) && rs1 < 32
    ensures OpsOk(One(JmpReg, 0, rs1, 0, 0, pc)) && OpsOk(Operations(JumpAndLinkReg(0, rs1, 0), pc))
    ensures Same(sp, One(JmpReg, 0, rs1, 0, 0, pc), JumpAndLinkReg(0, rs1, 0), pc, g) <==> g.x[rs1] % 2 == 0
  {
    RunOne(sp, One(JmpReg, 0, rs1, 0, 0, pc)[0], g);
    RunOne(sp, Operations(JumpAndLinkReg(0, rs1, 0), pc)[0], g);
  }

  /** No expansion loads into x0. */
  lemma KeepsFaults(sp: Space, c: Half, g: Guest)
    requires Is16Bit(c) && Expand(c).Some? && GuestFits(sp, g)
    ensures !LostFault(sp, Expand(c).value, g)
  {
    hide CRd, CRs2, CFunct3, CBit12, CMisc, CAlu, OffsetJ, OffsetB, OffsetLw, OffsetLd, OffsetLwsp, OffsetLdsp, OffsetSwsp, OffsetSdsp;
    hide Imm6, Shamt6, ImmAddi16sp, ImmAddi4spn, Find;
  }

  /** What a 16-bit instruction does is what its expansion does, decoded as a 32-bit one, and what
      the manual says the expansion does. */
  ghost predicate Faithful(sp: Space, c: Half, pc: u64, g: Guest)
    requires Is16Bit(c) && Expand(c).Some? && GuestFits(sp, g)
  {
    var a := Expand(c).value;
    && OpsOk(Rvc(c, pc)) && OpsOk(Rv32(Assemble(a), pc))
    && RunOps(sp, Rvc(c, pc), g) == RunOps(sp, Rv32(Assemble(a), pc), g) == Perform(sp, a, pc, g)
  }

  lemma FaithfulIffSame(sp: Space, c: Half, pc: u64, g: Guest)
    requires Is16Bit(c) && Expand(c).Some? && GuestFits(sp, g)
    ensures Faithful(sp, c, pc, g) <==> Same(sp, Rvc(c, pc), Expand(c).value, pc, g)
  {
    hide Expand, Rvc, Rv32, Assemble, Operations, RunOps, Perform, LostFault, InstrOk;
    var a := Expand(c).value;
    Decodes(a, pc);
    KeepsFaults(sp, c, g);
    DoesWhatTheManualSays(sp, a, pc, g);
    RvcShape(c, pc);
  }

  /** Every supported 16-bit instruction does what its expansion does, from every state and with
      every outcome: the next instruction, a jump, a fault, a trap. */
  lemma ExpansionAgrees(sp: Space, c: Half, pc: u64, g: Guest)
    requires Is16Bit(c) && Expand(c).Some? && GuestFits(sp, g) && !IsCJalr(c)
    requires IsCJr(c) ==> g.x[CRd(c)] % 2 == 0
    ensures Faithful(sp, c, pc, g)
  {
    hide Rvc00, Rvc10, Expand00, Expand01, Expand10, CRd, CRs2, CBit12, Same, Faithful;
    FaithfulIffSame(sp, c, pc, g);
    if c == C_NOP {
      Same01(sp, c, pc, g);
      NopIsNone(pc);
    } else if c == C_EBREAK {
      EbreakExpands();
      SameOps(sp, Rvc(c, pc), EnvironmentBreak, pc, g);
    } else if c % 4 == 0 {
      Same00(sp, c, pc, g);
    } else if c % 4 == 1 {
      Same01(sp, c, pc, g);
    } else {
      Same10(sp, c, pc, g);
    }
  }

  lemma NopIsNone(pc: u64)
    ensures Rvc01(C_NOP, pc) == []
  {
  }

  lemma EbreakExpands()
    ensures Expand(C_EBREAK) == Some(EnvironmentBreak)
  {
  }

  /** A compressed jump to a register agrees with its expansion exactly when the address is even. */
  lemma JumpRegisterIff(sp: Space, c: Half, pc: u64, g: Guest)
    requires Is16Bit(c) && IsCJr(c) && GuestFits(sp, g)
    ensures Expand(c).Some? && (Faithful(sp, c, pc, g) <==> g.x[CRd(c)] % 2 == 0)
  {
    hide CRd, CRs2, CFunct3, CBit12, Same, Faithful;
    JrIsNotEbreak(c);
    FaithfulIffSame(sp, c, pc, g);
    JrIsJalr(sp, CRd(c), pc, g);
  }

  lemma JrIsNotEbreak(c: Half)
    requires IsCJr(c)
    ensures c != C_EBREAK && c != C_NOP
  {
  }

  /** A compressed jump-and-link to a register is translated to nothing: control just goes on,
      whatever the state, where the expansion jumps. */
  lemma JumpAndLinkLost(sp: Space, c: Half, pc: u64, g: Guest)
    requires Is16Bit(c) && IsCJalr(c) && GuestFits(sp, g)
    ensures Rvc(c, pc) == [] && RunOps(sp, Rvc(c, pc), g) == Next(g)
    ensures Expand(c) == Some(JumpAndLinkReg(1, CRd(c), 0)) && Perform(sp, Expand(c).value, pc, g).Indirect? && !Faithful(sp, c, pc, g)
  {
    hide CRd, CRs2, CFunct3, CBit12, Same, RunOps;
    JalrIsNotEbreak(c);
    RunNone(sp, g);
  }

  lemma JalrIsNotEbreak(c: Half)
    requires IsCJalr(c)
    ensures c != C_EBREAK && c != C_NOP
  {
  }

  /** Reserved forms of supported instructions are not checked for: a zero immediate, or x0 where a
      register is required. */
  predicate Unchecked(c: Half)
  {
    var f3 := CFunct3(c);
    if c % 4 == 0 then f3 == 0 else if c % 4 == 1 then f3 == 1 || f3 == 3 else f3 == 2 || f3 == 3 || f3 == 4
  }

  /** An encoding without an expansion kills the process unless it is one of these. */
  lemma ReservedTrapsIff(c: Half, pc: u64)
    requires Is16Bit(c) && Expand(c).None?
    ensures Rvc(c, pc) == Invalid(pc) <==> !Unchecked(c)
  {
    hide CRd, CRs2, CRs1P, CRs2P, CImmAddi16sp, CImmAddi4spn, CImm, CImmJ, CImmB, CShamt;
    hide OffsetJ, OffsetB, OffsetLw, OffsetLd, OffsetLwsp, OffsetLdsp, OffsetSwsp, OffsetSdsp, Imm6, Shamt6, ImmAddi16sp, ImmAddi4spn;
    ImmediatesMatch(c);
    AluRange(c);
    if c == C_NOP || c == C_EBREAK { NamedExpand(); }
  }

  lemma NamedExpand()
    ensures Expand(C_NOP).Some? && Expand(C_EBREAK).Some?
  {
  }

  // ---------------------------------------------------------------- instructions in the text

  /** The instruction in the text at pc, read as the manual reads it, apart from the compressed
      jumps to a register above. */
  ghost predicate Holds(sp: Space, dm: DataMap, pc: u64, g: Guest, a: Insn)
    requires TextOk(sp, dm) && Known(sp, dm, pc) && GuestFits(sp, g) && Legal(a)
  {
    KnownInside(sp, dm, pc);
    var i := Fetch(sp.text, pc - sp.textAddr);
    FetchShort(sp.text, pc - sp.textAddr);
    if Is16Bit(i) then Expand(i) == Some(a) && !IsCJalr(i) && (IsCJr(i) ==> g.x[CRd(i)] % 2 == 0) else i == Assemble(a)
  }

  /** One step of the guest machine, on which the whole-run theorems rest, is the step the manual
      describes, but for a load into x0 that should fault. */
  lemma ExecutesByTheManual(sp: Space, dm: DataMap, pc: u64, g: Guest, a: Insn)
    requires TextOk(sp, dm) && Known(sp, dm, pc) && GuestFits(sp, g) && Legal(a) && Holds(sp, dm, pc, g, a)
    ensures Execute(sp, dm, pc, g) == Perform(sp, a, pc, g) <==> !LostFault(sp, a, g)
  {
    hide Expand, Rvc, Rv32, Assemble, RunOps, Perform, LostFault, Fetch, IsCJr, IsCJalr, Known;
    KnownInside(sp, dm, pc);
    var i := Fetch(sp.text, pc - sp.textAddr);
    FetchShort(sp.text, pc - sp.textAddr);
    if Is16Bit(i) {
      ExpansionAgrees(sp, i, pc, g);
      KeepsFaults(sp, i, g);
    } else {
      DoesWhatTheManualSays(sp, a, pc, g);
    }
  }
}
