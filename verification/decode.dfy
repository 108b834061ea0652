/** Decoding guest instructions into IR operations. Words are plain integers; a field is a
    quotient and a remainder, and or-ing fields that do not overlap is adding them. */
module Decode {
  import opened Words
  import opened Ir

  type Word = x: int | 0 <= x < 0x1_0000_0000

  /** A sign bit that stands for 2 to the n, as a negative weight. */
  function Sign(bit: int, weight: int): int { if bit == 1 then -weight else 0 }

  // ---------------------------------------------------------------- 32-bit fields

  function Opcode(i: Word): int { i % 0x80 }
  function Rd(i: Word): (r: nat) ensures r < 32 { i / 0x80 % 0x20 }
  function Funct3(i: Word): int { i / 0x1000 % 8 }
  function Rs1(i: Word): (r: nat) ensures r < 32 { i / 0x8000 % 0x20 }
  function Rs2(i: Word): (r: nat) ensures r < 32 { i / 0x10_0000 % 0x20 }
  function Funct7(i: Word): int { i / 0x200_0000 }
  function Shamt32(i: Word): int { i / 0x10_0000 % 0x20 }
  function Shamt64(i: Word): int { i / 0x10_0000 % 0x40 }
  function Funct6(i: Word): int { i / 0x400_0000 }

  function ImmI(i: Word): (r: int)
    ensures -2048 <= r < 2048
  {
    Sign(i / 0x8000_0000, 0x1000) + i / 0x10_0000
  }

  function ImmS(i: Word): (r: int)
    ensures -2048 <= r < 2048
  {
    Sign(i / 0x8000_0000, 0x1000) + Funct7(i) * 0x20 + Rd(i)
  }

  function ImmB(i: Word): (r: int)
    ensures -4096 <= r < 4096
  {
    Sign(i / 0x8000_0000, 0x1000) + i / 0x80 % 2 * 0x800 + i / 0x200_0000 % 0x40 * 0x20 + i / 0x100 % 0x10 * 2
  }

  function ImmU(i: Word): int { S32(i - i % 0x1000) }

  function ImmJ(i: Word): (r: int)
    ensures -0x10_0000 <= r < 0x10_0000
  {
    Sign(i / 0x8000_0000, 0x10_0000) + i / 0x1000 % 0x100 * 0x1000 + i / 0x10_0000 % 2 * 0x800 + i / 0x20_0000 % 0x400 * 2
  }

  // ---------------------------------------------------------------- 32-bit instructions

  function One(op: Op, rd: nat, rs1: nat, rs2: nat, imm: int, pc: u64): seq<Instr>
  {
    [Instr(op, rd, rs1, rs2, imm, pc)]
  }

  /** An unknown encoding becomes an instruction that kills the process. */
  function Invalid(pc: u64): seq<Instr> { One(Ud2, 0, 0, 0, 0, pc) }

  function OneIf(op: Option<Op>, rd: nat, rs1: nat, rs2: nat, imm: int, pc: u64): seq<Instr>
  {
    if op.Some? then One(op.value, rd, rs1, rs2, imm, pc) else Invalid(pc)
  }

  function StoreOp(f3: int): Option<Op>
  {
    if f3 == 0 then Some(Store(St8)) else if f3 == 1 then Some(Store(St16))
    else if f3 == 2 then Some(Store(St32)) else if f3 == 3 then Some(Store(St64)) else None
  }

  function LoadOp(f3: int): Option<Op>
  {
    if f3 == 0 then Some(Load(L8)) else if f3 == 1 then Some(Load(L16)) else if f3 == 2 then Some(Load(L32))
    else if f3 == 3 then Some(Load(L64)) else if f3 == 4 then Some(Load(L8U)) else if f3 == 5 then Some(Load(L16U))
    else if f3 == 6 then Some(Load(L32U)) else None
  }

  function BranchOp(f3: int): Option<Op>
  {
    if f3 == 0 then Some(Branch(Eq)) else if f3 == 1 then Some(Branch(Ne)) else if f3 == 4 then Some(Branch(Lt))
    else if f3 == 5 then Some(Branch(Ge)) else if f3 == 6 then Some(Branch(Ltu)) else if f3 == 7 then Some(Branch(Geu))
    else None
  }

  function ImmOp(f3: int): Option<Op>
  {
    if f3 == 0 then Some(AluImm(Add)) else if f3 == 2 then Some(SltImm(true)) else if f3 == 3 then Some(SltImm(false))
    else if f3 == 4 then Some(AluImm(Xor)) else if f3 == 6 then Some(AluImm(Or)) else if f3 == 7 then Some(AluImm(And))
    else None
  }

  function OpImm(i: Word, pc: u64): seq<Instr>
  {
    if Funct3(i) == 1 then One(AluImm(Sll), Rd(i), Rs1(i), 0, Shamt64(i), pc)
    else if Funct3(i) == 5 then
      if Funct6(i) == 0 then One(AluImm(Srl), Rd(i), Rs1(i), 0, Shamt64(i), pc)
      else if Funct6(i) == 0x10 then One(AluImm(Sra), Rd(i), Rs1(i), 0, Shamt64(i), pc)
      else Invalid(pc)
    else OneIf(ImmOp(Funct3(i)), Rd(i), Rs1(i), 0, ImmI(i), pc)
  }

  function OpImm32(i: Word, pc: u64): seq<Instr>
  {
    var f3, f7 := Funct3(i), Funct7(i);
    if f3 == 0 then One(AluWImm(AddW), Rd(i), Rs1(i), 0, ImmI(i), pc)
    else if f3 == 1 && f7 == 0 then One(AluWImm(SllW), Rd(i), Rs1(i), 0, Shamt32(i), pc)
    else if f3 == 5 && f7 == 0 then One(AluWImm(SrlW), Rd(i), Rs1(i), 0, Shamt32(i), pc)
    else if f3 == 5 && f7 == 0x20 then One(AluWImm(SraW), Rd(i), Rs1(i), 0, Shamt32(i), pc)
    else Invalid(pc)
  }

  function MulDivOp(f3: int): Option<Op>
  {
    if f3 == 0 then Some(Op.MulOp(Mul)) else if f3 == 1 then Some(Op.MulOp(Mulh))
    else if f3 == 2 then Some(Op.MulOp(Mulhsu)) else if f3 == 3 then Some(Op.MulOp(Mulhu))
    else if f3 == 4 then Some(DivRem(true, false, false)) else if f3 == 5 then Some(DivRem(false, false, false))
    else if f3 == 6 then Some(DivRem(true, false, true)) else if f3 == 7 then Some(DivRem(false, false, true)) else None
  }

  function MulDivWOp(f3: int): Option<Op>
  {
    if f3 == 0 then Some(Op.MulOp(Mulw))
    else if f3 == 4 then Some(DivRem(true, true, false)) else if f3 == 5 then Some(DivRem(false, true, false))
    else if f3 == 6 then Some(DivRem(true, true, true)) else if f3 == 7 then Some(DivRem(false, true, true)) else None
  }

  function ByFunct7(f7: int, base: Op, alt: Op): Option<Op>
  {
    if f7 == 0 then Some(base) else if f7 == 0x20 then Some(alt) else None
  }

  function RegOp(f3: int, f7: int): Option<Op>
  {
    if f7 == 1 then MulDivOp(f3)
    else if f3 == 0 then ByFunct7(f7, Alu(Add), Alu(Sub))
    else if f3 == 5 then ByFunct7(f7, Alu(Srl), Alu(Sra))
    else if f7 != 0 then None
    else if f3 == 1 then Some(Alu(Sll)) else if f3 == 2 then Some(Slt(true)) else if f3 == 3 then Some(Slt(false))
    else if f3 == 4 then Some(Alu(Xor)) else if f3 == 6 then Some(Alu(Or)) else if f3 == 7 then Some(Alu(And)) else None
  }

  function RegWOp(f3: int, f7: int): Option<Op>
  {
    if f7 == 1 then MulDivWOp(f3)
    else if f3 == 0 then ByFunct7(f7, AluW(AddW), AluW(SubW))
    else if f3 == 1 && f7 == 0 then Some(AluW(SllW))
    else if f3 == 5 then ByFunct7(f7, AluW(SrlW), AluW(SraW)) else None
  }

  function System(i: Word, pc: u64): seq<Instr>
  {
    if Funct3(i) != 0 then Invalid(pc)
    else if ImmI(i) == 0 then One(Ecall, 0, 0, 0, 0, pc)
    else if ImmI(i) == 1 then One(Ebreak, 0, 0, 0, 0, pc)
    else Invalid(pc)
  }

  function Jal(i: Word, pc: u64): seq<Instr>
  {
    [Instr(Li, Rd(i), 0, 0, pc + 4, pc), Instr(Jmp, 0, 0, 0, pc + ImmJ(i), pc)]
  }

  /** The operations of a 32-bit instruction. */
  function Rv32(i: Word, pc: u64): seq<Instr>
  {
    var op := Opcode(i);
    if op == 0x03 then OneIf(LoadOp(Funct3(i)), Rd(i), Rs1(i), 0, ImmI(i), pc)
    else if op == 0x23 then OneIf(StoreOp(Funct3(i)), 0, Rs1(i), Rs2(i), ImmS(i), pc)
    else if op == 0x73 then System(i, pc)
    else if op == 0x13 then OpImm(i, pc)
    else if op == 0x37 then One(Li, Rd(i), 0, 0, ImmU(i), pc)
    else if op == 0x17 then One(Li, Rd(i), 0, 0, pc + ImmU(i), pc)
    else if op == 0x33 then OneIf(RegOp(Funct3(i), Funct7(i)), Rd(i), Rs1(i), Rs2(i), 0, pc)
    else if op == 0x1B then OpImm32(i, pc)
    else if op == 0x3B then OneIf(RegWOp(Funct3(i), Funct7(i)), Rd(i), Rs1(i), Rs2(i), 0, pc)
    else if op == 0x63 then OneIf(BranchOp(Funct3(i)), 0, Rs1(i), Rs2(i), pc + ImmB(i), pc)
    else if op == 0x6F then Jal(i, pc)
    else if op == 0x67 then One(Jalr, Rd(i), Rs1(i), 0, ImmI(i), pc)
    else if op == 0x0F then One(Nop, 0, 0, 0, 0, pc)
    else Invalid(pc)
  }

  // ---------------------------------------------------------------- 16-bit fields

  type Half = x: int | 0 <= x < 0x1_0000

  function CFunct3(c: Half): int { c / 0x2000 }
  function CRd(c: Half): (r: nat) ensures r < 32 { c / 0x80 % 0x20 }
  function CRs2(c: Half): (r: nat) ensures r < 32 { c / 4 % 0x20 }
  function CBit12(c: Half): int { c / 0x1000 % 2 }
  function CMisc(c: Half): int { c / 0x400 % 4 }
  function CAlu(c: Half): int { c / 0x20 % 4 }

  /** The three-bit registers x8 to x15. */
  function CRs1P(c: Half): (r: nat) ensures 8 <= r < 16 { 8 + c / 0x80 % 8 }
  function CRs2P(c: Half): (r: nat) ensures 8 <= r < 16 { 8 + c / 4 % 8 }

  function CImm(c: Half): (r: int)
    ensures -32 <= r < 32
  {
    Sign(CBit12(c), 0x20) + c / 4 % 0x20
  }

  function CShamt(c: Half): (r: int)
    ensures 0 <= r < 64
  {
    CBit12(c) * 0x20 + c / 4 % 0x20
  }

  function CImmJ(c: Half): (r: int)
    ensures -2048 <= r < 2048
  {
    Sign(CBit12(c), 0x800) + c / 0x100 % 2 * 0x400 + c / 0x200 % 4 * 0x100 + c / 0x40 % 2 * 0x80 + c / 0x80 % 2 * 0x40
    + c / 4 % 2 * 0x20 + c / 0x800 % 2 * 0x10 + c / 8 % 8 * 2
  }

  function CImmB(c: Half): (r: int)
    ensures -256 <= r < 256
  {
    Sign(CBit12(c), 0x100) + c / 0x20 % 4 * 0x40 + c / 4 % 2 * 0x20 + c / 0x400 % 4 * 8 + c / 8 % 4 * 2
  }

  function CImmLw(c: Half): (r: int)
    ensures 0 <= r < 128
  {
    c / 0x20 % 2 * 0x40 + c / 0x400 % 8 * 8 + c / 0x40 % 2 * 4
  }

  function CImmLd(c: Half): (r: int)
    ensures 0 <= r < 256
  {
    c / 0x400 % 8 * 8 + c / 0x20 % 4 * 0x40
  }

  function CImmLwsp(c: Half): (r: int)
    ensures 0 <= r < 256
  {
    c / 4 % 4 * 0x40 + CBit12(c) * 0x20 + c / 0x10 % 8 * 4
  }

  function CImmLdsp(c: Half): (r: int)
    ensures 0 <= r < 512
  {
    CBit12(c) * 0x20 + c / 0x20 % 4 * 8 + c / 4 % 8 * 0x40
  }

  function CImmSwsp(c: Half): (r: int)
    ensures 0 <= r < 256
  {
    c / 0x80 % 4 * 0x40 + c / 0x200 % 0x10 * 4
  }

  function CImmSdsp(c: Half): (r: int)
    ensures 0 <= r < 512
  {
    c / 0x400 % 8 * 8 + c / 0x80 % 8 * 0x40
  }

  function CImmAddi4spn(c: Half): (r: int)
    ensures 0 <= r < 1024
  {
    c / 0x80 % 0x10 * 0x40 + c / 0x800 % 4 * 0x10 + c / 0x20 % 2 * 8 + c / 0x40 % 2 * 4
  }

  function CImmAddi16sp(c: Half): (r: int)
    ensures -512 <= r < 512
  {
    Sign(CBit12(c), 0x200) + c / 8 % 4 * 0x80 + c / 0x20 % 2 * 0x40 + c / 4 % 2 * 0x20 + c / 0x40 % 2 * 0x10
  }

  // ---------------------------------------------------------------- 16-bit instructions

  const SP := 2

  /** Nothing is emitted unless the condition holds. */
  function Only(c: bool, s: seq<Instr>): seq<Instr> { if c then s else [] }

  function Rvc00(c: Half, pc: u64): seq<Instr>
  {
    var f3, rd, rs1 := CFunct3(c), CRs2P(c), CRs1P(c);
    if f3 == 0 then Only(CImmAddi4spn(c) != 0, One(AluImm(Add), rd, SP, 0, CImmAddi4spn(c), pc))
    else if f3 == 2 then One(Load(L32), rd, rs1, 0, CImmLw(c), pc)
    else if f3 == 3 then One(Load(L64), rd, rs1, 0, CImmLd(c), pc)
    else if f3 == 6 then One(Store(St32), 0, rs1, CRs2P(c), CImmLw(c), pc)
    else if f3 == 7 then One(Store(St64), 0, rs1, CRs2P(c), CImmLd(c), pc)
    else Invalid(pc)
  }

  /** Register-register forms; two of the bit-12 encodings are reserved. */
  function CAluOp(bit12: int, funct2: int): Option<Op>
  {
    if bit12 == 0 then
      Some(Alu(if funct2 == 0 then Sub else if funct2 == 1 then Xor else if funct2 == 2 then Or else And))
    else if funct2 == 0 then Some(AluW(SubW))
    else if funct2 == 1 then Some(AluW(AddW))
    else None
  }

  function RvcMiscAlu(c: Half, pc: u64): seq<Instr>
  {
    var f2, r := CMisc(c), CRs1P(c);
    if f2 == 0 then Only(CShamt(c) != 0, One(AluImm(Srl), r, r, 0, CShamt(c), pc))
    else if f2 == 1 then Only(CShamt(c) != 0, One(AluImm(Sra), r, r, 0, CShamt(c), pc))
    else if f2 == 2 then One(AluImm(And), r, r, 0, CImm(c), pc)
    else OneIf(CAluOp(CBit12(c), CAlu(c)), r, r, CRs2P(c), 0, pc)
  }

  function Rvc01(c: Half, pc: u64): seq<Instr>
  {
    var f3, rd := CFunct3(c), CRd(c);
    if f3 == 0 then Only(rd != 0, One(AluImm(Add), rd, rd, 0, CImm(c), pc))
    else if f3 == 1 then Only(rd != 0, One(AluWImm(AddW), rd, rd, 0, CImm(c), pc))
    else if f3 == 2 then Only(rd != 0, One(Li, rd, 0, 0, CImm(c), pc))
    else if f3 == 3 then
      if rd == SP then One(AluImm(Add), SP, SP, 0, CImmAddi16sp(c), pc)
      else Only(rd != 0, One(Li, rd, 0, 0, CImm(c) * 0x1000, pc))
    else if f3 == 4 then RvcMiscAlu(c, pc)
    else if f3 == 5 then One(Jmp, 0, 0, 0, pc + CImmJ(c), pc)
    else if f3 == 6 then One(Beqz, 0, CRs1P(c), 0, pc + CImmB(c), pc)
    else One(Branch(Ne), 0, CRs1P(c), 0, pc + CImmB(c), pc)
  }

  /** Jump, move and add share an encoding. A compressed jump-and-link to a register falls
      through every test and emits nothing. */
  function RvcJump(c: Half, pc: u64): seq<Instr>
  {
    var rd, rs2 := CRd(c), CRs2(c);
    if CBit12(c) == 0 then
      if rs2 == 0 then One(JmpReg, 0, rd, 0, 0, pc)
      else Only(rd != 0, One(Mov, rd, 0, rs2, 0, pc))
    else Only(rd != 0 && rs2 != 0, One(Alu(Add), rd, rd, rs2, 0, pc))
  }

  function Rvc10(c: Half, pc: u64): seq<Instr>
  {
    var f3, rd := CFunct3(c), CRd(c);
    if f3 == 0 then Only(rd != 0 && CShamt(c) != 0, One(AluImm(Sll), rd, rd, 0, CShamt(c), pc))
    else if f3 == 2 then Only(rd != 0, One(Load(L32), rd, SP, 0, CImmLwsp(c), pc))
    else if f3 == 3 then Only(rd != 0, One(Load(L64), rd, SP, 0, CImmLdsp(c), pc))
    else if f3 == 4 then RvcJump(c, pc)
    else if f3 == 6 then One(Store(St32), 0, SP, CRs2(c), CImmSwsp(c), pc)
    else if f3 == 7 then One(Store(St64), 0, SP, CRs2(c), CImmSdsp(c), pc)
    else Invalid(pc)
  }

  const C_NOP := 0x0001
  const C_EBREAK := 0x9002

  predicate Is16Bit(i: Word) { i % 4 != 3 }

  /** The operations of a 16-bit instruction. */
  function Rvc(c: Half, pc: u64): seq<Instr>
    requires Is16Bit(c)
  {
    if c == C_NOP then []
    else if c == C_EBREAK then One(Ebreak, 0, 0, 0, 0, pc)
    else if c % 4 == 0 then Rvc00(c, pc)
    else if c % 4 == 1 then Rvc01(c, pc)
    else Rvc10(c, pc)
  }
}
