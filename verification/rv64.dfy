/** The RV64IM instructions, as chapters 2, 5, 7 and 24 of the RISC-V Unprivileged ISA (20191213)
    list and describe them, against what the front end makes of their encodings. */
module Rv64 {
  import opened Words
  import opened Ir
  import opened Decode
  import opened Reference
  import opened Isa
  import opened Rv64Encoding
  import LoweringMulDiv

  // ---------------------------------------------------------------- the listing

  datatype RegName =
    | ADD | SUB | SLL | SLT | SLTU | XOR | SRL | SRA | OR | AND | ADDW | SUBW | SLLW | SRLW | SRAW
    | MUL | MULH | MULHSU | MULHU | DIV | DIVU | REM | REMU | MULW | DIVW | DIVUW | REMW | REMUW
  datatype ImmName = ADDI | SLTI | SLTIU | XORI | ORI | ANDI | ADDIW
  datatype ShiftName = SLLI | SRLI | SRAI | SLLIW | SRLIW | SRAIW
  datatype LoadName = LB | LH | LW | LD | LBU | LHU | LWU
  datatype StoreName = SB | SH | SW | SD
  datatype BranchName = BEQ | BNE | BLT | BGE | BLTU | BGEU

  datatype Insn =
    | Register(r: RegName, rd: nat, rs1: nat, rs2: nat)
    | Immediate(i: ImmName, rd: nat, rs1: nat, imm: int)
    | Shift(sh: ShiftName, rd: nat, rs1: nat, shamt: nat)
    | LoadFrom(l: LoadName, rd: nat, rs1: nat, imm: int)
    | StoreTo(s: StoreName, rs1: nat, rs2: nat, imm: int)
    | BranchIf(b: BranchName, rs1: nat, rs2: nat, offset: int)
    | LoadUpper(rd: nat, upper: int)
    | AddUpper(rd: nat, upper: int)
    | JumpAndLink(rd: nat, offset: int)
    | JumpAndLinkReg(rd: nat, rs1: nat, imm: int)
    | Fence(rd: nat, rs1: nat, imm: int)
    | EnvironmentCall
    | EnvironmentBreak

  /** Opcode, funct3 and funct7. */
  function RegCode(n: RegName): (int, int, int)
  {
    match n
    case ADD => (OP, 0, 0) case SUB => (OP, 0, 0x20) case SLL => (OP, 1, 0) case SLT => (OP, 2, 0)
    case SLTU => (OP, 3, 0) case XOR => (OP, 4, 0) case SRL => (OP, 5, 0) case SRA => (OP, 5, 0x20)
    case OR => (OP, 6, 0) case AND => (OP, 7, 0)
    case ADDW => (OP_32, 0, 0) case SUBW => (OP_32, 0, 0x20) case SLLW => (OP_32, 1, 0)
    case SRLW => (OP_32, 5, 0) case SRAW => (OP_32, 5, 0x20)
    case MUL => (OP, 0, 1) case MULH => (OP, 1, 1) case MULHSU => (OP, 2, 1) case MULHU => (OP, 3, 1)
    case DIV => (OP, 4, 1) case DIVU => (OP, 5, 1) case REM => (OP, 6, 1) case REMU => (OP, 7, 1)
    case MULW => (OP_32, 0, 1) case DIVW => (OP_32, 4, 1) case DIVUW => (OP_32, 5, 1)
    case REMW => (OP_32, 6, 1) case REMUW => (OP_32, 7, 1)
  }

  function ImmCode(n: ImmName): (int, int)
  {
    match n
    case ADDI => (OP_IMM, 0) case SLTI => (OP_IMM, 2) case SLTIU => (OP_IMM, 3) case XORI => (OP_IMM, 4)
    case ORI => (OP_IMM, 6) case ANDI => (OP_IMM, 7) case ADDIW => (OP_IMM_32, 0)
  }

  /** Opcode, funct3, and what stands above the shift amount in the upper twelve bits. */
  function ShiftCode(n: ShiftName): (int, int, int)
  {
    match n
    case SLLI => (OP_IMM, 1, 0) case SRLI => (OP_IMM, 5, 0) case SRAI => (OP_IMM, 5, 0x400)
    case SLLIW => (OP_IMM_32, 1, 0) case SRLIW => (OP_IMM_32, 5, 0) case SRAIW => (OP_IMM_32, 5, 0x400)
  }

  function LoadCode(n: LoadName): int
  {
    match n
    case LB => 0 case LH => 1 case LW => 2 case LD => 3 case LBU => 4 case LHU => 5 case LWU => 6
  }

  function StoreCode(n: StoreName): int
  {
    match n
    case SB => 0 case SH => 1 case SW => 2 case SD => 3
  }

  function BranchCode(n: BranchName): int
  {
    match n
    case BEQ => 0 case BNE => 1 case BLT => 4 case BGE => 5 case BLTU => 6 case BGEU => 7
  }

  predicate FitsI(v: int) { -0x800 <= v < 0x800 }

  /** Operands an assembler accepts. */
  predicate Legal(a: Insn)
  {
    match a
    case Register(_, rd, rs1, rs2) => rd < 32 && rs1 < 32 && rs2 < 32
    case Immediate(_, rd, rs1, imm) => rd < 32 && rs1 < 32 && FitsI(imm)
    case Shift(n, rd, rs1, shamt) => rd < 32 && rs1 < 32 && shamt < if ShiftCode(n).0 == OP_IMM then 64 else 32
    case LoadFrom(_, rd, rs1, imm) => rd < 32 && rs1 < 32 && FitsI(imm)
    case StoreTo(_, rs1, rs2, imm) => rs1 < 32 && rs2 < 32 && FitsI(imm)
    case BranchIf(_, rs1, rs2, offset) => rs1 < 32 && rs2 < 32 && -0x1000 <= offset < 0x1000 && offset % 2 == 0
    case LoadUpper(rd, upper) => rd < 32 && -0x8_0000 <= upper < 0x8_0000
    case AddUpper(rd, upper) => rd < 32 && -0x8_0000 <= upper < 0x8_0000
    case JumpAndLink(rd, offset) => rd < 32 && -0x10_0000 <= offset < 0x10_0000 && offset % 2 == 0
    case JumpAndLinkReg(rd, rs1, imm) => rd < 32 && rs1 < 32 && FitsI(imm)
    case Fence(rd, rs1, imm) => rd < 32 && rs1 < 32 && FitsI(imm)
    case _ => true
  }

  function Assemble(a: Insn): Word
    requires Legal(a)
  {
    match a
    case Register(n, rd, rs1, rs2) => var c := RegCode(n); EncodeR(c.0, rd, c.1, rs1, rs2, c.2)
    case Immediate(n, rd, rs1, imm) => var c := ImmCode(n); EncodeI(c.0, rd, c.1, rs1, imm)
    case Shift(n, rd, rs1, shamt) => var c := ShiftCode(n); EncodeI(c.0, rd, c.1, rs1, c.2 + shamt)
    case LoadFrom(n, rd, rs1, imm) => EncodeI(LOAD, rd, LoadCode(n), rs1, imm)
    case StoreTo(n, rs1, rs2, imm) => EncodeS(STORE, StoreCode(n), rs1, rs2, imm)
    case BranchIf(n, rs1, rs2, offset) => EncodeB(BRANCH, BranchCode(n), rs1, rs2, offset)
    case LoadUpper(rd, upper) => EncodeU(LUI, rd, upper)
    case AddUpper(rd, upper) => EncodeU(AUIPC, rd, upper)
    case JumpAndLink(rd, offset) => EncodeJ(JAL, rd, offset)
    case JumpAndLinkReg(rd, rs1, imm) => EncodeI(JALR, rd, 0, rs1, imm)
    case Fence(rd, rs1, imm) => EncodeI(MISC_MEM, rd, 0, rs1, imm)
    case EnvironmentCall => EncodeI(SYSTEM, 0, 0, 0, 0)
    case EnvironmentBreak => EncodeI(SYSTEM, 0, 0, 0, 1)
  }

  // ---------------------------------------------------------------- what they do

  /** Division rounding towards zero. */
  function Quotient(n: int, d: int): int
    requires d != 0
  {
    if n >= 0 then n / d else -((-n) / d)
  }

  /** Table 7.1: semantics for division by zero and division overflow, where least is the most
      negative value, if the operands are signed. */
  function Divided(n: int, d: int, least: int): int
  {
    if d == 0 then -1 else if n == least && d == -1 then n else Quotient(n, d)
  }

  function Leftover(n: int, d: int, least: int): int
  {
    if d == 0 then n else if n == least && d == -1 then 0 else n - d * Quotient(n, d)
  }

  function Truth(b: bool): u64 { if b then 1 else 0 }

  function Computed(n: RegName, a: u64, b: u64): u64
  {
    match n
    case ADD => W64(a + b)
    case SUB => W64(a - b)
    case SLL => W64(a * Pow2(b % 64))
    case SLT => Truth(S64(a) < S64(b))
    case SLTU => Truth(a < b)
    case XOR => Bits64(BitXor, a, b)
    case SRL => W64(a / Pow2(b % 64))
    case SRA => W64(S64(a) / Pow2(b % 64))
    case OR => Bits64(BitOr, a, b)
    case AND => Bits64(BitAnd, a, b)
    case ADDW => Sext32(a + b)
    case SUBW => Sext32(a - b)
    case SLLW => Sext32(a * Pow2(b % 32))
    case SRLW => Sext32(W32(a) / Pow2(b % 32))
    case SRAW => Sext32(S32(W32(a)) / Pow2(b % 32))
    case MUL => W64(S64(a) * S64(b))
    case MULH => W64(S64(a) * S64(b) / TWO64)
    case MULHSU => W64(S64(a) * b / TWO64)
    case MULHU => W64(a * b / TWO64)
    case DIV => W64(Divided(S64(a), S64(b), -TWO63))
    case DIVU => W64(Divided(a, b, -TWO63))
    case REM => W64(Leftover(S64(a), S64(b), -TWO63))
    case REMU => W64(Leftover(a, b, -TWO63))
    case MULW => Sext32(S32(W32(a)) * S32(W32(b)))
    case DIVW => Sext32(Divided(S32(W32(a)), S32(W32(b)), -TWO31))
    case DIVUW => Sext32(Divided(W32(a), W32(b), -TWO31))
    case REMW => Sext32(Leftover(S32(W32(a)), S32(W32(b)), -TWO31))
    case REMUW => Sext32(Leftover(W32(a), W32(b), -TWO31))
  }

  /** The register form an immediate form stands for. */
  function Plain(n: ImmName): RegName
  {
    match n
    case ADDI => ADD case SLTI => SLT case SLTIU => SLTU case XORI => XOR case ORI => OR case ANDI => AND case ADDIW => ADDW
  }

  function PlainShift(n: ShiftName): RegName
  {
    match n
    case SLLI => SLL case SRLI => SRL case SRAI => SRA case SLLIW => SLLW case SRLIW => SRLW case SRAIW => SRAW
  }

  function Width(n: LoadName): nat
  {
    match n
    case LB => 1 case LBU => 1 case LH => 2 case LHU => 2 case LW => 4 case LWU => 4 case LD => 8
  }

  function Loaded(n: LoadName, v: nat): u64
  {
    var sign := if Width(n) == 1 then 0x80 else if Width(n) == 2 then 0x8000 else TWO31;
    W64(if (n.LB? || n.LH? || n.LW?) && v >= sign then v - 2 * sign else v)
  }

  function StoreWidth(n: StoreName): nat
  {
    match n
    case SB => 1 case SH => 2 case SW => 4 case SD => 8
  }

  predicate Condition(n: BranchName, a: u64, b: u64)
  {
    match n
    case BEQ => a == b
    case BNE => a != b
    case BLT => S64(a) < S64(b)
    case BGE => S64(a) >= S64(b)
    case BLTU => a < b
    case BGEU => a >= b
  }

  /** The bytes at a place. */
  function BytesAt(sp: Space, g: Guest, p: Place, n: nat): seq<u8>
    requires GuestFits(sp, g)
  {
    match p
    case InStack(i) => if i + n <= |g.stack| then g.stack[i..i + n] else []
    case InData(i) => if i + n <= |g.data| then g.data[i..i + n] else []
    case InText(i) => if i + n <= |sp.text| then sp.text[i..i + n] else []
    case Nowhere => []
  }

  function Fetched(sp: Space, g: Guest, p: Place, n: LoadName, rd: nat): Effect
    requires GuestFits(sp, g)
  {
    if p.Nowhere? then Faulted(Read) else Next(SetRd(g, rd, Loaded(n, FromLe(BytesAt(sp, g, p, Width(n))))))
  }

  function Stored(g: Guest, p: Place, bytes: seq<u8>): Effect
  {
    match p
    case InStack(i) => if i + |bytes| <= |g.stack| then Next(g.(stack := Splice(g.stack, i, bytes))) else Faulted(Write)
    case InData(i) => if i + |bytes| <= |g.data| then Next(g.(data := Splice(g.data, i, bytes))) else Faulted(Write)
    case _ => Faulted(Write)
  }

  /** One instruction, by the manual. */
  function Perform(sp: Space, a: Insn, pc: u64, g: Guest): Effect
    requires Legal(a) && GuestFits(sp, g)
  {
    match a
    case Register(n, rd, rs1, rs2) => Next(SetRd(g, rd, Computed(n, g.x[rs1], g.x[rs2])))
    case Immediate(n, rd, rs1, imm) => Next(SetRd(g, rd, Computed(Plain(n), g.x[rs1], W64(imm))))
    case Shift(n, rd, rs1, shamt) => Next(SetRd(g, rd, Computed(PlainShift(n), g.x[rs1], shamt)))
    case LoadFrom(n, rd, rs1, imm) =>
      Fetched(sp, g, Find(sp, W64(g.x[rs1] + imm), Width(n), false), n, rd)
    case StoreTo(n, rs1, rs2, imm) =>
      Stored(g, Find(sp, W64(g.x[rs1] + imm), StoreWidth(n), true), Le(g.x[rs2], StoreWidth(n)))
    case BranchIf(n, rs1, rs2, offset) =>
      if Condition(n, g.x[rs1], g.x[rs2]) then Direct(g, W64(pc + offset)) else Next(g)
    case LoadUpper(rd, upper) => Next(SetRd(g, rd, W64(upper * 0x1000)))
    case AddUpper(rd, upper) => Next(SetRd(g, rd, W64(pc + upper * 0x1000)))
    case JumpAndLink(rd, offset) => Direct(SetRd(g, rd, W64(pc + 4)), W64(pc + offset))
    case JumpAndLinkReg(rd, rs1, imm) =>
      var t := W64(g.x[rs1] + imm); Indirect(SetRd(g, rd, W64(pc + 4)), t - t % 2)
    case Fence(_, _, _) => Next(g)
    case EnvironmentCall => Next(DoEcall(sp, g))
    case EnvironmentBreak => Trapped
  }

  // ---------------------------------------------------------------- decoding the listing

  function RegOpOf(n: RegName): Op
  {
    match n
    case ADD => Alu(Add) case SUB => Alu(Sub) case SLL => Alu(Sll) case SLT => Slt(true) case SLTU => Slt(false)
    case XOR => Alu(Xor) case SRL => Alu(Srl) case SRA => Alu(Sra) case OR => Alu(Or) case AND => Alu(And)
    case ADDW => AluW(AddW) case SUBW => AluW(SubW) case SLLW => AluW(SllW) case SRLW => AluW(SrlW) case SRAW => AluW(SraW)
    case MUL => Op.MulOp(Mul) case MULH => Op.MulOp(Mulh) case MULHSU => Op.MulOp(Mulhsu) case MULHU => Op.MulOp(Mulhu)
    case DIV => DivRem(true, false, false) case DIVU => DivRem(false, false, false)
    case REM => DivRem(true, false, true) case REMU => DivRem(false, false, true)
    case MULW => Op.MulOp(Mulw)
    case DIVW => DivRem(true, true, false) case DIVUW => DivRem(false, true, false)
    case REMW => DivRem(true, true, true) case REMUW => DivRem(false, true, true)
  }

  function ImmOpOf(n: ImmName): Op
  {
    match n
    case ADDI => AluImm(Add) case SLTI => SltImm(true) case SLTIU => SltImm(false) case XORI => AluImm(Xor)
    case ORI => AluImm(Or) case ANDI => AluImm(And) case ADDIW => AluWImm(AddW)
  }

  function ShiftOpOf(n: ShiftName): Op
  {
    match n
    case SLLI => AluImm(Sll) case SRLI => AluImm(Srl) case SRAI => AluImm(Sra)
    case SLLIW => AluWImm(SllW) case SRLIW => AluWImm(SrlW) case SRAIW => AluWImm(SraW)
  }

  function LoadKindOf(n: LoadName): LoadKind
  {
    match n
    case LB => L8 case LH => L16 case LW => L32 case LD => L64 case LBU => L8U case LHU => L16U case LWU => L32U
  }

  function StoreKindOf(n: StoreName): StoreKind
  {
    match n
    case SB => St8 case SH => St16 case SW => St32 case SD => St64
  }

  function CondOf(n: BranchName): BranchCond
  {
    match n
    case BEQ => Eq case BNE => Ne case BLT => Lt case BGE => Ge case BLTU => Ltu case BGEU => Geu
  }

  /** The operations an instruction is translated to. */
  function Operations(a: Insn, pc: u64): seq<Instr>
  {
    match a
    case Register(n, rd, rs1, rs2) => One(RegOpOf(n), rd, rs1, rs2, 0, pc)
    case Immediate(n, rd, rs1, imm) => One(ImmOpOf(n), rd, rs1, 0, imm, pc)
    case Shift(n, rd, rs1, shamt) => One(ShiftOpOf(n), rd, rs1, 0, shamt, pc)
    case LoadFrom(n, rd, rs1, imm) => One(Load(LoadKindOf(n)), rd, rs1, 0, imm, pc)
    case StoreTo(n, rs1, rs2, imm) => One(Store(StoreKindOf(n)), 0, rs1, rs2, imm, pc)
    case BranchIf(n, rs1, rs2, offset) => One(Branch(CondOf(n)), 0, rs1, rs2, pc + offset, pc)
    case LoadUpper(rd, upper) => One(Li, rd, 0, 0, upper * 0x1000, pc)
    case AddUpper(rd, upper) => One(Li, rd, 0, 0, pc + upper * 0x1000, pc)
    case JumpAndLink(rd, offset) => [Instr(Li, rd, 0, 0, pc + 4, pc), Instr(Jmp, 0, 0, 0, pc + offset, pc)]
    case JumpAndLinkReg(rd, rs1, imm) => One(Jalr, rd, rs1, 0, imm, pc)
    case Fence(_, _, _) => One(Nop, 0, 0, 0, 0, pc)
    case EnvironmentCall => One(Ecall, 0, 0, 0, 0, pc)
    case EnvironmentBreak => One(Ebreak, 0, 0, 0, 0, pc)
  }

  lemma DecodesRegister(a: Insn, pc: u64)
    requires Legal(a) && a.Register?
    ensures Rv32(Assemble(a), pc) == Operations(a, pc)
  {
    hide EncodeR, Opcode, Rd, Funct3, Rs1, Rs2, Funct7;
    var c := RegCode(a.r);
    FieldsR(c.0, a.rd, c.1, a.rs1, a.rs2, c.2);
  }

  lemma DecodesImmediate(a: Insn, pc: u64)
    requires Legal(a) && (a.Immediate? || a.LoadFrom? || a.JumpAndLinkReg? || a.Fence? || a.EnvironmentCall? || a.EnvironmentBreak?)
    ensures Rv32(Assemble(a), pc) == Operations(a, pc)
  {
    hide EncodeI, Opcode, Rd, Funct3, Rs1, Rs2, Funct7, ImmI, Funct6, Shamt64, Shamt32;
    match a
    case Immediate(n, rd, rs1, imm) => FieldsI(ImmCode(n).0, rd, ImmCode(n).1, rs1, imm);
    case LoadFrom(n, rd, rs1, imm) => FieldsI(LOAD, rd, LoadCode(n), rs1, imm);
    case JumpAndLinkReg(rd, rs1, imm) => FieldsI(JALR, rd, 0, rs1, imm);
    case Fence(rd, rs1, imm) => FieldsI(MISC_MEM, rd, 0, rs1, imm);
    case EnvironmentCall => FieldsI(SYSTEM, 0, 0, 0, 0);
    case EnvironmentBreak => FieldsI(SYSTEM, 0, 0, 0, 1);
  }

  lemma DecodesShift(a: Insn, pc: u64)
    requires Legal(a) && a.Shift?
    ensures Rv32(Assemble(a), pc) == Operations(a, pc)
  {
    hide EncodeI, EncodeR, Opcode, Rd, Funct3, Rs1, Rs2, Funct7, Funct6, Shamt64, Shamt32;
    var c := ShiftCode(a.sh);
    FieldsShift(c.0, a.rd, c.1, a.rs1, c.2 / 64, a.shamt);
    if c.0 == OP_IMM_32 {
      FieldsR(c.0, a.rd, c.1, a.rs1, a.shamt, c.2 / 32);
      ShiftAmount(c.0, a.rd, c.1, a.rs1, a.shamt, c.2);
      ShamtIsRs2(Assemble(a));
    }
  }

  /** A shift by less than 32 is laid out like a register form. */
  lemma ShiftAmount(op: int, rd: nat, f3: int, rs1: nat, shamt: nat, high: int)
    requires 0 <= op < 0x80 && rd < 32 && 0 <= f3 < 8 && rs1 < 32 && shamt < 32 && (high == 0 || high == 0x400)
    ensures EncodeI(op, rd, f3, rs1, high + shamt) == EncodeR(op, rd, f3, rs1, shamt, high / 32)
  {
    hide Opcode, Rd, Funct3, Rs1, Rs2;
    assert (high + shamt) % 0x1000 == high + shamt;
    assert high == 0 || high / 32 == 0x20;
  }

  lemma ShamtIsRs2(i: Word)
    ensures Shamt32(i) == Rs2(i)
  {
  }

  /** The front end reads every listed instruction as what it is. */
  lemma Decodes(a: Insn, pc: u64)
    requires Legal(a)
    ensures Rv32(Assemble(a), pc) == Operations(a, pc)
  {
    hide EncodeS, EncodeB, EncodeU, EncodeJ, Opcode, Rd, Funct3, Rs1, Rs2, ImmS, ImmB, ImmU, ImmJ;
    match a
    case Register(_, _, _, _) => DecodesRegister(a, pc);
    case Shift(_, _, _, _) => DecodesShift(a, pc);
    case StoreTo(n, rs1, rs2, imm) => FieldsS(STORE, StoreCode(n), rs1, rs2, imm);
    case BranchIf(n, rs1, rs2, offset) => FieldsB(BRANCH, BranchCode(n), rs1, rs2, offset);
    case LoadUpper(rd, upper) => FieldsU(LUI, rd, upper);
    case AddUpper(rd, upper) => FieldsU(AUIPC, rd, upper);
    case JumpAndLink(rd, offset) => FieldsJ(JAL, rd, offset);
    case _ => DecodesImmediate(a, pc);
  }

  // ---------------------------------------------------------------- running them

  lemma RunNone(sp: Space, g: Guest)
    requires GuestFits(sp, g)
    ensures OpsOk([]) && RunOps(sp, [], g) == Next(g)
  {
  }

  lemma QuotientIs(n: int, d: int)
    requires d != 0
    ensures Quotient(n, d) == TruncDiv(n, d)
  {
    if d < 0 { NegativeDivisor(Abs(n), d); }
  }

  lemma NegativeDivisor(n: nat, d: int)
    requires d < 0
    ensures n / d == -(n / -d)
  {
    var q := n / -d;
    assert n == -d * q + n % -d;
    assert d * -q == -d * q;
  }

  lemma DivisionIs(n: int, d: int, least: int)
    ensures Divided(n, d, least) == DivInt(n, d, false, least) && Leftover(n, d, least) == DivInt(n, d, true, least)
  {
    hide Quotient, TruncDiv;
    if d != 0 { QuotientIs(n, d); }
  }

  lemma ComputesRegister(n: RegName, a: u64, b: u64)
    ensures var o := RegOpOf(n);
            && (o.Alu? ==> AluResult(o.alu, a, b) == Computed(n, a, b))
            && (o.AluW? ==> AluWResult(o.aluw, a, b) == Computed(n, a, b))
            && (o.Slt? ==> SltResult(o.sltSigned, a, b) == Computed(n, a, b))
  {
    hide Bits64;
  }

  lemma LowProducts(a: u64, b: u64)
    ensures W64(S64(a) * S64(b)) == MulResult(Mul, a, b)
    ensures Sext32(S32(W32(a)) * S32(W32(b))) == MulResult(Mulw, a, b)
  {
    hide MulResult, S64, S32;
    LoweringMulDiv.ImulLow(a, b);
    LoweringMulDiv.ImulLow32(a, b);
  }

  lemma ComputesProduct(n: RegName, a: u64, b: u64)
    requires RegOpOf(n).MulOp?
    ensures MulResult(RegOpOf(n).mul, a, b) == Computed(n, a, b)
  {
    hide W64, S64, W32, S32, Sext32;
    LowProducts(a, b);
  }

  lemma ComputesDivision(n: RegName, a: u64, b: u64)
    requires RegOpOf(n).DivRem?
    ensures var o := RegOpOf(n); DivResult(o.signed, o.word, o.rem, a, b) == Computed(n, a, b)
  {
    hide Divided, Leftover, DivInt;
    DivisionIs(S64(a), S64(b), -TWO63);
    DivisionIs(a, b, -TWO63);
    DivisionIs(S32(W32(a)), S32(W32(b)), -TWO31);
    DivisionIs(W32(a), W32(b), -TWO31);
  }

  lemma RunsRegister(sp: Space, a: Insn, pc: u64, g: Guest)
    requires Legal(a) && a.Register? && GuestFits(sp, g)
    ensures OpsOk(Operations(a, pc)) && RunOps(sp, Operations(a, pc), g) == Perform(sp, a, pc, g)
  {
    hide Computed, RunOps, AluResult, AluWResult, SltResult, MulResult, DivResult, SetRd;
    RunOne(sp, Operations(a, pc)[0], g);
    var u, v, o := g.x[a.rs1], g.x[a.rs2], RegOpOf(a.r);
    if o.MulOp? { ComputesProduct(a.r, u, v); }
    else if o.DivRem? { ComputesDivision(a.r, u, v); }
    else { ComputesRegister(a.r, u, v); }
    DropsNothing(g, a.rd, Computed(a.r, u, v));
  }

  lemma DropsNothing(g: Guest, rd: nat, v: u64)
    requires |g.x| == 32
    ensures rd == 0 ==> SetRd(g, rd, v) == g
  {
  }

  lemma RunsImmediate(sp: Space, a: Insn, pc: u64, g: Guest)
    requires Legal(a) && a.Immediate? && GuestFits(sp, g)
    ensures OpsOk(Operations(a, pc)) && RunOps(sp, Operations(a, pc), g) == Perform(sp, a, pc, g)
  {
    hide Computed, RunOps, AluResult, AluWResult, SltResult, SetRd;
    RunOne(sp, Operations(a, pc)[0], g);
    ComputesRegister(Plain(a.i), g.x[a.rs1], W64(a.imm));
    DropsNothing(g, a.rd, Computed(Plain(a.i), g.x[a.rs1], W64(a.imm)));
  }

  lemma RunsShift(sp: Space, a: Insn, pc: u64, g: Guest)
    requires Legal(a) && a.Shift? && GuestFits(sp, g)
    ensures OpsOk(Operations(a, pc)) && RunOps(sp, Operations(a, pc), g) == Perform(sp, a, pc, g)
  {
    hide Computed, RunOps, AluResult, AluWResult, SetRd;
    RunOne(sp, Operations(a, pc)[0], g);
    ComputesRegister(PlainShift(a.sh), g.x[a.rs1], a.shamt);
    DropsNothing(g, a.rd, Computed(PlainShift(a.sh), g.x[a.rs1], a.shamt));
  }

  /** A load into x0 from an address that is nowhere: the manual wants the exception, but the
      operation is dropped. */
  predicate LostFault(sp: Space, a: Insn, g: Guest)
    requires Legal(a) && GuestFits(sp, g)
  {
    a.LoadFrom? && a.rd == 0 && Find(sp, W64(g.x[a.rs1] + a.imm), Width(a.l), false).Nowhere?
  }

  lemma LoadsSame(n: LoadName, v: nat)
    ensures LoadBytes(LoadKindOf(n)) == Width(n) && Extend(LoadKindOf(n), v) == Loaded(n, v)
  {
  }

  lemma FetchesSame(sp: Space, n: LoadName, at: u64, rd: nat, g: Guest)
    requires GuestFits(sp, g)
    ensures LoadEffect(sp, LoadKindOf(n), at, rd, g) == Fetched(sp, g, Find(sp, at, Width(n), false), n, rd)
  {
    hide FromLe, Extend, Loaded, SetRd, LoadKindOf, Width;
    var p := Find(sp, at, Width(n), false);
    LoadsSame(n, FromLe(BytesAt(sp, g, p, Width(n))));
  }

  lemma RunsLoad(sp: Space, a: Insn, pc: u64, g: Guest)
    requires Legal(a) && a.LoadFrom? && GuestFits(sp, g)
    ensures OpsOk(Operations(a, pc))
    ensures RunOps(sp, Operations(a, pc), g) == Perform(sp, a, pc, g) <==> !LostFault(sp, a, g)
    ensures LostFault(sp, a, g) ==> RunOps(sp, Operations(a, pc), g) == Next(g)
  {
    hide RunOps, LoadEffect, Loaded, LoadKindOf, Width, Find, BytesAt;
    RunOne(sp, Operations(a, pc)[0], g);
    var at := W64(g.x[a.rs1] + a.imm);
    FetchesSame(sp, a.l, at, a.rd, g);
    DropsNothing(g, a.rd, Loaded(a.l, FromLe(BytesAt(sp, g, Find(sp, at, Width(a.l), false), Width(a.l)))));
  }

  lemma RunsStore(sp: Space, a: Insn, pc: u64, g: Guest)
    requires Legal(a) && a.StoreTo? && GuestFits(sp, g)
    ensures OpsOk(Operations(a, pc)) && RunOps(sp, Operations(a, pc), g) == Perform(sp, a, pc, g)
  {
    hide RunOps;
    RunOne(sp, Operations(a, pc)[0], g);
    assert StoreBytes(StoreKindOf(a.s)) == StoreWidth(a.s);
  }

  lemma RunsJumpAndLink(sp: Space, a: Insn, pc: u64, g: Guest)
    requires Legal(a) && a.JumpAndLink? && GuestFits(sp, g)
    ensures OpsOk(Operations(a, pc)) && RunOps(sp, Operations(a, pc), g) == Perform(sp, a, pc, g)
  {
    var ops := Operations(a, pc);
    var g' := SetRd(g, a.rd, W64(pc + 4));
    DropsNothing(g, a.rd, W64(pc + 4));
    assert Step(sp, ops[0], g) == Next(g');
    RunOne(sp, ops[1], g');
    assert ops[1..] == [ops[1]];
  }

  lemma RunsUpper(sp: Space, a: Insn, pc: u64, g: Guest)
    requires Legal(a) && (a.LoadUpper? || a.AddUpper?) && GuestFits(sp, g)
    ensures OpsOk(Operations(a, pc)) && RunOps(sp, Operations(a, pc), g) == Perform(sp, a, pc, g)
  {
    hide RunOps, SetRd;
    RunOne(sp, Operations(a, pc)[0], g);
    DropsNothing(g, a.rd, W64(if a.LoadUpper? then a.upper * 0x1000 else pc + a.upper * 0x1000));
  }

  lemma RunsBranch(sp: Space, a: Insn, pc: u64, g: Guest)
    requires Legal(a) && a.BranchIf? && GuestFits(sp, g)
    ensures OpsOk(Operations(a, pc)) && RunOps(sp, Operations(a, pc), g) == Perform(sp, a, pc, g)
  {
    hide RunOps, DoEcall, SetRd, AluResult, AluWResult, SltResult, MulResult, DivResult, LoadEffect, StoreEffect, Computed, Find;
    RunOne(sp, Operations(a, pc)[0], g);
  }

  lemma RunsOther(sp: Space, a: Insn, pc: u64, g: Guest)
    requires Legal(a) && (a.JumpAndLinkReg? || a.Fence? || a.EnvironmentCall? || a.EnvironmentBreak?) && GuestFits(sp, g)
    ensures OpsOk(Operations(a, pc)) && RunOps(sp, Operations(a, pc), g) == Perform(sp, a, pc, g)
  {
    hide RunOps, DoEcall, SetRd, AluResult, AluWResult, SltResult, MulResult, DivResult, LoadEffect, StoreEffect, Computed, Find;
    RunOne(sp, Operations(a, pc)[0], g);
  }

  /** Every instruction of the listing, from every state, is translated to operations that do what
      the manual says, with one exception: a load into x0 from nowhere does not fault. */
  lemma DoesWhatTheManualSays(sp: Space, a: Insn, pc: u64, g: Guest)
    requires Legal(a) && GuestFits(sp, g)
    ensures OpsOk(Rv32(Assemble(a), pc))
    ensures RunOps(sp, Rv32(Assemble(a), pc), g) == Perform(sp, a, pc, g) <==> !LostFault(sp, a, g)
    ensures LostFault(sp, a, g) ==> RunOps(sp, Rv32(Assemble(a), pc), g) == Next(g)
  {
    hide Assemble, Rv32, Operations, RunOps, Perform, Find;
    Decodes(a, pc);
    match a
    case Register(_, _, _, _) => RunsRegister(sp, a, pc, g);
    case Immediate(_, _, _, _) => RunsImmediate(sp, a, pc, g);
    case Shift(_, _, _, _) => RunsShift(sp, a, pc, g);
    case LoadFrom(_, _, _, _) => RunsLoad(sp, a, pc, g);
    case StoreTo(_, _, _, _) => RunsStore(sp, a, pc, g);
    case JumpAndLink(_, _) => RunsJumpAndLink(sp, a, pc, g);
    case LoadUpper(_, _) => RunsUpper(sp, a, pc, g);
    case AddUpper(_, _) => RunsUpper(sp, a, pc, g);
    case BranchIf(_, _, _, _) => RunsBranch(sp, a, pc, g);
    case _ => RunsOther(sp, a, pc, g);
  }

  // ---------------------------------------------------------------- what else is accepted

  ghost predicate Listed(i: Word) { exists a: Insn :: Legal(a) && Assemble(a) == i }

  /** Words that are not listed, but not rejected either: fields are ignored that the listing
      fixes. */
  predicate Lenient(i: Word)
  {
    var op, f3 := Opcode(i), Funct3(i);
    || (op == JALR && f3 != 0)
    || (op == MISC_MEM && f3 != 0)
    || (op == OP_IMM && f3 == 1 && Funct6(i) != 0)
    || (op == SYSTEM && f3 == 0 && 0 <= ImmI(i) <= 1 && (Rd(i) != 0 || Rs1(i) != 0))
  }

  function RegNameOf(o: Op): RegName
  {
    match o
    case Alu(Add) => ADD case Alu(Sub) => SUB case Alu(Sll) => SLL case Alu(Xor) => XOR case Alu(Srl) => SRL
    case Alu(Sra) => SRA case Alu(Or) => OR case Alu(And) => AND
    case AluW(AddW) => ADDW case AluW(SubW) => SUBW case AluW(SllW) => SLLW case AluW(SrlW) => SRLW case AluW(SraW) => SRAW
    case Slt(s) => if s then SLT else SLTU
    case MulOp(Mul) => MUL case MulOp(Mulh) => MULH case MulOp(Mulhsu) => MULHSU case MulOp(Mulhu) => MULHU
    case MulOp(Mulw) => MULW
    case DivRem(s, w, r) =>
      if w then (if r then (if s then REMW else REMUW) else if s then DIVW else DIVUW)
      else if r then (if s then REM else REMU) else if s then DIV else DIVU
    case _ => ADD
  }

  lemma RegTables(f3: int, f7: int)
    ensures RegOp(f3, f7).Some? ==> RegCode(RegNameOf(RegOp(f3, f7).value)) == (OP, f3, f7)
    ensures RegWOp(f3, f7).Some? ==> RegCode(RegNameOf(RegWOp(f3, f7).value)) == (OP_32, f3, f7)
  {
  }

  lemma RegisterListed(i: Word, pc: u64)
    requires Opcode(i) == OP || Opcode(i) == OP_32
    ensures Rv32(i, pc) != Invalid(pc) ==> Listed(i)
  {
    hide EncodeR, Opcode, Rd, Funct3, Rs1, Rs2, Funct7;
    RegTables(Funct3(i), Funct7(i));
    FormatR(i);
    var o := if Opcode(i) == OP then RegOp(Funct3(i), Funct7(i)) else RegWOp(Funct3(i), Funct7(i));
    if o.Some? {
      assert Assemble(Register(RegNameOf(o.value), Rd(i), Rs1(i), Rs2(i))) == i;
    }
  }

  lemma OtherListed(i: Word, pc: u64)
    requires Opcode(i) == STORE || Opcode(i) == BRANCH || Opcode(i) == LUI || Opcode(i) == AUIPC || Opcode(i) == JAL
    ensures Rv32(i, pc) != Invalid(pc) ==> Listed(i)
  {
    hide EncodeS, EncodeB, EncodeU, EncodeJ, Opcode, Rd, Funct3, Rs1, Rs2, ImmS, ImmB, ImmU, ImmJ;
    var op, f3 := Opcode(i), Funct3(i);
    if op == STORE && f3 < 4 {
      FormatS(i);
      var n := if f3 == 0 then SB else if f3 == 1 then SH else if f3 == 2 then SW else SD;
      assert Assemble(StoreTo(n, Rs1(i), Rs2(i), ImmS(i))) == i;
    } else if op == BRANCH && BranchOp(f3).Some? {
      FormatB(i);
      var n := if f3 == 0 then BEQ else if f3 == 1 then BNE else if f3 == 4 then BLT else if f3 == 5 then BGE
               else if f3 == 6 then BLTU else BGEU;
      assert Assemble(BranchIf(n, Rs1(i), Rs2(i), ImmB(i))) == i;
    } else if op == LUI {
      FormatU(i);
      assert Assemble(LoadUpper(Rd(i), ImmU(i) / 0x1000)) == i;
    } else if op == AUIPC {
      FormatU(i);
      assert Assemble(AddUpper(Rd(i), ImmU(i) / 0x1000)) == i;
    } else if op == JAL {
      FormatJ(i);
      assert Assemble(JumpAndLink(Rd(i), ImmJ(i))) == i;
    }
  }

  lemma LoadListed(i: Word, pc: u64)
    requires Opcode(i) == LOAD || Opcode(i) == JALR || Opcode(i) == MISC_MEM || Opcode(i) == SYSTEM
    ensures Rv32(i, pc) != Invalid(pc) && !Lenient(i) ==> Listed(i)
  {
    hide EncodeI, Opcode, Rd, Funct3, Rs1, Rs2, ImmI;
    var op, f3 := Opcode(i), Funct3(i);
    FormatI(i);
    if op == LOAD && LoadOp(f3).Some? {
      var n := if f3 == 0 then LB else if f3 == 1 then LH else if f3 == 2 then LW else if f3 == 3 then LD
               else if f3 == 4 then LBU else if f3 == 5 then LHU else LWU;
      assert Assemble(LoadFrom(n, Rd(i), Rs1(i), ImmI(i))) == i;
    } else if op == JALR && f3 == 0 {
      assert Assemble(JumpAndLinkReg(Rd(i), Rs1(i), ImmI(i))) == i;
    } else if op == MISC_MEM && f3 == 0 {
      assert Assemble(Fence(Rd(i), Rs1(i), ImmI(i))) == i;
    } else if op == SYSTEM && f3 == 0 && Rd(i) == 0 && Rs1(i) == 0 {
      if ImmI(i) == 0 { assert Assemble(EnvironmentCall) == i; }
      if ImmI(i) == 1 { assert Assemble(EnvironmentBreak) == i; }
    }
  }

  /** The upper twelve bits of a shift. */
  lemma ShiftFields(i: Word)
    ensures Funct6(i) == 0 ==> ImmI(i) % 0x1000 == Shamt64(i)
    ensures Funct6(i) == 0x10 ==> ImmI(i) % 0x1000 == 0x400 + Shamt64(i)
    ensures Funct7(i) == 0 ==> ImmI(i) % 0x1000 == Shamt32(i)
    ensures Funct7(i) == 0x20 ==> ImmI(i) % 0x1000 == 0x400 + Shamt32(i)
    ensures 0 <= Shamt64(i) < 64 && 0 <= Shamt32(i) < 32
  {
    hide Opcode, Rd, Funct3, Funct6, Funct7, Rs1, Rs2, ImmI, Shamt32;
    WordFields(i);
    FormatI(i);
  }

  lemma ShiftEncodes(i: Word, high: int, shamt: nat)
    requires ImmI(i) % 0x1000 == high + shamt
    ensures 0 <= Opcode(i) < 0x80 && 0 <= Funct3(i) < 8
    ensures EncodeI(Opcode(i), Rd(i), Funct3(i), Rs1(i), high + shamt) == i
  {
    hide Opcode, Rd, Funct3, Rs1, ImmI;
    FormatI(i);
  }

  lemma ArithmeticListed(i: Word, pc: u64)
    requires Opcode(i) == OP_IMM || Opcode(i) == OP_IMM_32
    ensures Rv32(i, pc) != Invalid(pc) && !Lenient(i) ==> Listed(i)
  {
    hide EncodeI, Opcode, Rd, Funct3, Rs1, Rs2, ImmI, Funct6, Funct7, Shamt32, Shamt64;
    var op, f3, w := Opcode(i), Funct3(i), Opcode(i) == OP_IMM_32;
    FormatI(i);
    if (if w then f3 == 0 else ImmOp(f3).Some?) {
      var n := if w then ADDIW else if f3 == 0 then ADDI else if f3 == 2 then SLTI else if f3 == 3 then SLTIU
               else if f3 == 4 then XORI else if f3 == 6 then ORI else ANDI;
      assert Assemble(Immediate(n, Rd(i), Rs1(i), ImmI(i))) == i;
    } else if f3 == 1 || f3 == 5 {
      ShiftFields(i);
      var shamt := if w then Shamt32(i) else Shamt64(i);
      var base, alt := if w then Funct7(i) == 0 else Funct6(i) == 0, if w then Funct7(i) == 0x20 else Funct6(i) == 0x10;
      if base || (alt && f3 == 5) {
        var n := if f3 == 1 then (if w then SLLIW else SLLI) else if base then (if w then SRLIW else SRLI)
                 else if w then SRAIW else SRAI;
        ShiftEncodes(i, if base then 0 else 0x400, shamt);
        assert Assemble(Shift(n, Rd(i), Rs1(i), shamt)) == i;
      }
    }
  }

  lemma ListedAccepted(i: Word, pc: u64)
    requires Listed(i)
    ensures Rv32(i, pc) != Invalid(pc)
  {
    hide Rv32, Assemble, Legal;
    var a: Insn :| Legal(a) && Assemble(a) == i;
    Decodes(a, pc);
  }

  lemma LenientAccepted(i: Word, pc: u64)
    requires Lenient(i)
    ensures Rv32(i, pc) != Invalid(pc)
  {
    hide Opcode, Rd, Funct3, Rs1, Rs2, ImmI, Funct6, Shamt64;
  }

  /** The front end rejects exactly the words that are neither listed nor among the lenient ones. */
  lemma AcceptedIff(i: Word, pc: u64)
    ensures Rv32(i, pc) != Invalid(pc) <==> Listed(i) || Lenient(i)
  {
    hide Opcode, Rd, Funct3, Rs1, Rs2, ImmI, Lenient, Listed, OpImm, OpImm32, RegOp, RegWOp, System, Jal, OneIf, One;
    var op := Opcode(i);
    if Listed(i) { ListedAccepted(i, pc); }
    if Lenient(i) { LenientAccepted(i, pc); }
    if op == OP || op == OP_32 { RegisterListed(i, pc); }
    else if op == OP_IMM || op == OP_IMM_32 { ArithmeticListed(i, pc); }
    else if op == LOAD || op == JALR || op == MISC_MEM || op == SYSTEM { LoadListed(i, pc); }
    else if op == STORE || op == BRANCH || op == LUI || op == AUIPC || op == JAL { OtherListed(i, pc); }
  }
}
