/** The code each IR operation is lowered to, with jumps still symbolic. */
module Lowering {
  import opened Words
  import opened X86
  import opened Snippet
  import Ir

  // ---------------------------------------------------------------- building blocks

  function LoadReg(host: Reg, guest: nat): Item
    requires guest < 32
  {
    Op(LoadM(Ir.L64, host, R15, 8 * guest))
  }

  function StoreReg(guest: nat, host: Reg): Item
    requires guest < 32
  {
    Op(StoreM(Ir.St64, R15, 8 * guest, host))
  }

  function MovRr(dst: Reg, src: Reg): Item { Op(Rr(MOV, true, dst, src)) }

  function SignExtendRax(): Item { Op(Movsxd(RAX, RAX)) }

  function ZeroX0(): seq<Item>
  {
    [Op(MovImm(RAX, 0)), StoreReg(0, RAX)]
  }

  function LoadOperands(rs1: nat, rs2: nat): seq<Item>
    requires rs1 < 32 && rs2 < 32
  {
    [LoadReg(RAX, rs1), LoadReg(RCX, rs2)]
  }

  function When(c: bool, s: seq<Item>): seq<Item> { if c then s else [] }

  // ---------------------------------------------------------------- arithmetic on RAX and RCX

  function AluCore(op: Ir.AluOp): seq<Item>
  {
    match op
    case Add => [Op(Rr(ADD, true, RAX, RCX))]
    case Sub => [Op(Rr(SUB, true, RAX, RCX))]
    case Xor => [Op(Rr(XOR, true, RAX, RCX))]
    case Or => [Op(Rr(OR, true, RAX, RCX))]
    case And => [Op(Rr(AND, true, RAX, RCX))]
    case Sll => [Op(ShiftCl(SHL, true, RAX))]
    case Srl => [Op(ShiftCl(SHR, true, RAX))]
    case Sra => [Op(ShiftCl(SAR, true, RAX))]
  }

  function AluWCore(op: Ir.AluWOp): seq<Item>
  {
    match op
    case AddW => [Op(Rr(ADD, false, RAX, RCX)), SignExtendRax()]
    case SubW => [Op(Rr(SUB, false, RAX, RCX)), SignExtendRax()]
    case SllW => [Op(ShiftCl(SHL, false, RAX)), SignExtendRax()]
    case SrlW => [Op(ShiftCl(SHR, false, RAX)), SignExtendRax()]
    case SraW => [Op(ShiftCl(SAR, false, RAX)), SignExtendRax()]
  }

  /** Immediate forms. There is no subtract-immediate in the IR. */
  function AluImmCore(op: Ir.AluOp, imm: i32): seq<Item>
  {
    match op
    case Add => [Op(RImm(ADDI, true, RAX, imm))]
    case Xor => [Op(RImm(XORI, true, RAX, imm))]
    case Or => [Op(RImm(ORI, true, RAX, imm))]
    case And => [Op(RImm(ANDI, true, RAX, imm))]
    case Sll => [Op(ShiftImm(SHL, true, RAX, imm % 0x100))]
    case Srl => [Op(ShiftImm(SHR, true, RAX, imm % 0x100))]
    case Sra => [Op(ShiftImm(SAR, true, RAX, imm % 0x100))]
    case Sub => []
  }

  function AluWImmCore(op: Ir.AluWOp, imm: i32): seq<Item>
  {
    match op
    case AddW => [Op(RImm(ADDI, false, RAX, imm)), SignExtendRax()]
    case SllW => [Op(ShiftImm(SHL, false, RAX, imm % 0x100)), SignExtendRax()]
    case SrlW => [Op(ShiftImm(SHR, false, RAX, imm % 0x100)), SignExtendRax()]
    case SraW => [Op(ShiftImm(SAR, false, RAX, imm % 0x100)), SignExtendRax()]
    case SubW => []
  }

  function SetRax(c: Cond): seq<Item>
  {
    [Op(Setcc(c, Low(RAX))), Op(MovzxB(RAX, RAX))]
  }

  function SltCond(signed: bool): Cond { if signed then L else B }

  function SltCore(signed: bool): seq<Item>
  {
    [Op(Rr(CMP, true, RAX, RCX))] + SetRax(SltCond(signed))
  }

  function SltImmCore(signed: bool, imm: i32): seq<Item>
  {
    [Op(RImm(CMPI, true, RAX, imm))] + SetRax(SltCond(signed))
  }

  function MulCore(op: Ir.MulOp): seq<Item>
  {
    match op
    case Mul => [Op(Imul(true, RAX, RCX))]
    case Mulw => [Op(Imul(false, RAX, RCX)), SignExtendRax()]
    case Mulh => [Op(Grp3(IMUL, true, RCX)), MovRr(RAX, RDX)]
    case Mulhu => [Op(Grp3(MUL, true, RCX)), MovRr(RAX, RDX)]
    case Mulhsu =>
      [MovRr(RSI, RAX), Op(Grp3(MUL, true, RCX)), Op(ShiftImm(SAR, true, RSI, 63)),
       Op(Rr(AND, true, RSI, RCX)), Op(Rr(SUB, true, RDX, RSI)), MovRr(RAX, RDX)]
  }

  // ---------------------------------------------------------------- division

  /** What a zero divisor leaves in RAX. */
  function ZeroDivisorResult(word: bool, rem: bool): seq<Item>
  {
    if rem then When(word, [SignExtendRax()]) else [Op(MovImm(RAX, TWO64 - 1))]
  }

  /** Compares RAX with the most negative integer of the width. */
  function CompareMin(word: bool): seq<Item>
  {
    if word then [Op(RImm(CMPI, false, RAX, -TWO31))]
    else [Op(MovImm(RSI, TWO63)), Op(Rr(CMP, true, RAX, RSI))]
  }

  function OverflowResult(word: bool, rem: bool): seq<Item>
  {
    if rem then [Op(Rr(XOR, true, RAX, RAX))] else When(word, [SignExtendRax()])
  }

  function Divide(signed: bool, word: bool, rem: bool): seq<Item>
  {
    (if signed then [Op(Cqo(!word)), Op(Grp3(IDIV, !word, RCX))]
     else [Op(Rr(XOR, false, RDX, RDX)), Op(Grp3(DIV, !word, RCX))])
    + When(rem, [MovRr(RAX, RDX)])
    + When(word, [SignExtendRax()])
  }

  /** Skips the division when the divisor is zero. */
  function ZeroCheck(signed: bool, word: bool, rem: bool): seq<Item>
  {
    var z := ZeroDivisorResult(word, rem);
    [Op(Rr(TEST, !word, RCX, RCX)), JccTo(NE, Local(|z| + 2))] + z
    + [JmpTo(Local(1 + |OverflowCheck(signed, word, rem)| + |Divide(signed, word, rem)|))]
  }

  /** Skips the division for the one signed quotient that does not fit. */
  function OverflowCheck(signed: bool, word: bool, rem: bool): seq<Item>
  {
    var c, o := CompareMin(word), OverflowResult(word, rem);
    When(signed,
         [Op(RImm(CMPI, !word, RCX, -1)), JccTo(NE, Local(|c| + |o| + 3))] + c
         + [JccTo(NE, Local(|o| + 2))] + o
         + [JmpTo(Local(1 + |Divide(signed, word, rem)|))])
  }

  function DivCore(signed: bool, word: bool, rem: bool): seq<Item>
  {
    ZeroCheck(signed, word, rem) + OverflowCheck(signed, word, rem) + Divide(signed, word, rem)
  }

  // ---------------------------------------------------------------- memory

  /** The guest address is in RCX; the checks leave the host address there. */
  function AddOffset(imm: i32): seq<Item>
  {
    When(imm != 0, [Op(RImm(ADDI, true, RCX, imm))])
  }

  function StackCheck(n: int, toStackHit: nat): seq<Item>
    requires 0 < n <= 8
  {
    [Op(RImm(CMPI, true, RCX, Ir.STACK_GUARD)), JccTo(B, Local(5)),
     MovRr(RDX, R13), Op(RImm(ADDI, true, RDX, -n)), Op(Rr(CMP, true, RDX, RCX)), JccTo(AE, Local(toStackHit))]
  }

  function DataCheck(e: Env, n: int, toAccess: nat): seq<Item>
  {
    When(e.sp.dataSize != 0,
         [Op(MovImm(RSI, e.sp.dataAddr)), Op(Rr(CMP, true, RCX, RSI)), JccTo(B, Local(7)),
          Op(MovImm(RSI, W64(e.sp.dataAddr + e.sp.dataSize - n))), Op(Rr(CMP, true, RCX, RSI)), JccTo(A, Local(4)),
          Op(MovImm(RSI, W64(e.dataAt - e.sp.dataAddr))), Op(Rr(ADD, true, RCX, RSI)), JmpTo(Local(toAccess))])
  }

  /** Loads may also read the text; a store that missed so far faults. */
  function TextCheck(store: bool, n: int): seq<Item>
    requires 0 < n <= 8
  {
    if store then [JmpTo(Local(3))]
    else
      [Op(Rr(CMP, true, RCX, RBX)), JccTo(B, Local(12)),
       MovRr(RDX, RBP), Op(RImm(ADDI, true, RDX, -n)), Op(Rr(CMP, true, RDX, RCX)), JccTo(B, Local(8)),
       MovRr(RDX, RCX), Op(Rr(SUB, true, RDX, RBX)), Op(Rr(ADD, true, RDX, R12)), MovRr(RCX, RDX), JmpTo(Local(4))]
  }

  function StackHit(): seq<Item>
  {
    [Op(Rr(ADD, true, RCX, R14)), JmpTo(Local(2))]
  }

  function FaultOf(store: bool): Ir.FaultKind { if store then Ir.Write else Ir.Read }

  function Checks(e: Env, store: bool, n: int, k: nat): seq<Item>
    requires 0 < n <= 8
  {
    var text := TextCheck(store, n);
    var data := DataCheck(e, n, |text| + 4);
    StackCheck(n, 1 + |data| + |text|) + data + text + StackHit() + [JmpTo(Stub(FaultOf(store), k))]
  }

  function LoadCore(e: Env, kind: Ir.LoadKind, imm: i32, k: nat): seq<Item>
  {
    AddOffset(imm) + Checks(e, false, Ir.LoadBytes(kind), k) + [Op(LoadM(kind, RAX, RCX, 0))]
  }

  function StoreCore(e: Env, kind: Ir.StoreKind, imm: i32, k: nat): seq<Item>
  {
    AddOffset(imm) + Checks(e, true, Ir.StoreBytes(kind), k) + [Op(StoreM(kind, RCX, 0, RAX))]
  }

  // ---------------------------------------------------------------- control

  function FuelCheck(k: nat): seq<Item>
  {
    [Op(LoadM(Ir.L64, RAX, R15, OFF_FUEL)), Op(RImm(ADDI, true, RAX, -1)), Op(StoreM(Ir.St64, R15, OFF_FUEL, RAX)),
     Op(Rr(TEST, true, RAX, RAX)), JccTo(LE, Stub(Ir.Timeout, k))]
  }

  function BranchCode(c: Ir.BranchCond): Cond
  {
    match c
    case Eq => E
    case Ne => NE
    case Lt => L
    case Ge => GE
    case Ltu => B
    case Geu => AE
  }

  function StorePc(host: Reg): Item { Op(StoreM(Ir.St64, R15, OFF_PC, host)) }

  function JalrBody(ins: Ir.Instr): seq<Item>
    requires Ir.InstrOk(ins) && ins.op.Jalr?
  {
    [LoadReg(RAX, ins.rs1), Op(RImm(ADDI, true, RAX, ins.imm)), Op(RImm(ANDI, true, RAX, -2))]
    + When(ins.rd != 0, [Op(MovImm(RCX, W64(ins.pc + 4))), StoreReg(ins.rd, RCX)])
    + [StorePc(RAX), JmpTo(Epilogue)]
  }

  function EcallBody(e: Env): seq<Item>
  {
    [Op(Push(RAX)), Op(MovImm(RDI, e.jitAt)), Op(MovImm(RAX, e.ecallAt)), Op(CallR(RAX)), Op(Pop(RAX))]
  }

  // ---------------------------------------------------------------- one operation

  /** The middle of an operation that computes RAX from RAX and RCX. */
  function BinaryCore(op: Ir.Op): seq<Item>
    requires op.Alu? || op.AluW? || op.Slt? || op.MulOp? || op.DivRem?
  {
    match op
    case Alu(a) => AluCore(a)
    case AluW(a) => AluWCore(a)
    case Slt(s) => SltCore(s)
    case MulOp(m) => MulCore(m)
    case DivRem(s, w, r) => DivCore(s, w, r)
  }

  /** The middle of an operation that computes RAX from RAX and an immediate. */
  function UnaryCore(op: Ir.Op, imm: i32): seq<Item>
    requires op.AluImm? || op.AluWImm? || op.SltImm?
  {
    match op
    case AluImm(a) => AluImmCore(a, imm)
    case AluWImm(a) => AluWImmCore(a, imm)
    case SltImm(s) => SltImmCore(s, imm)
  }

  predicate IsBinary(op: Ir.Op) { op.Alu? || op.AluW? || op.Slt? || op.MulOp? || op.DivRem? }

  predicate IsUnary(op: Ir.Op) { op.AluImm? || op.AluWImm? || op.SltImm? }

  function Body(e: Env, ins: Ir.Instr, k: nat): seq<Item>
    requires Ir.InstrOk(ins)
  {
    if IsBinary(ins.op) then LoadOperands(ins.rs1, ins.rs2) + BinaryCore(ins.op) + [StoreReg(ins.rd, RAX)]
    else if IsUnary(ins.op) then [LoadReg(RAX, ins.rs1)] + UnaryCore(ins.op, ins.imm) + [StoreReg(ins.rd, RAX)]
    else
      match ins.op
      case FuelCheck => FuelCheck(k)
      case Mov => [LoadReg(RAX, ins.rs2), StoreReg(ins.rd, RAX)]
      case Li => [Op(MovImm(RAX, W64(ins.imm))), StoreReg(ins.rd, RAX)]
      case Load(kind) => [LoadReg(RCX, ins.rs1)] + LoadCore(e, kind, ins.imm, k) + [StoreReg(ins.rd, RAX)]
      case Store(kind) => [LoadReg(RCX, ins.rs1), LoadReg(RAX, ins.rs2)] + StoreCore(e, kind, ins.imm, k)
      case Beqz =>
        [LoadReg(RAX, ins.rs1), Op(Rr(TEST, true, RAX, RAX)), JccTo(E, GuestPc(W64(ins.imm)))]
      case Branch(c) =>
        LoadOperands(ins.rs1, ins.rs2)
        + [Op(Rr(CMP, true, RAX, RCX)), JccTo(BranchCode(c), GuestPc(W64(ins.imm)))]
      case Jmp => [JmpTo(GuestPc(W64(ins.imm)))]
      case JmpReg => [LoadReg(RAX, ins.rs1), StorePc(RAX), JmpTo(Epilogue)]
      case Jalr => JalrBody(ins)
      case Ecall => EcallBody(e)
      case Ebreak => [Op(Int3)]
      case Ud2 => [Op(X86.Ud2)]
      case _ => []
  }

  /** Everything emitted for one IR operation; k numbers its fault stub. */
  function Lower(e: Env, ins: Ir.Instr, k: nat): seq<Item>
    requires Ir.InstrOk(ins)
  {
    ZeroX0() + When(!Ir.Discarded(ins), Body(e, ins, k))
  }
}
