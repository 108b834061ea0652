/** The intermediate representation and what each of its operations does to the guest. */
module Ir {
  import opened Words

  // ---------------------------------------------------------------- guest state

  /** The guest-visible machine: 32 integer registers and the two writable memory regions. */
  datatype Guest = Guest(x: seq<u64>, stack: seq<u8>, data: seq<u8>)

  /** One call of riscv_jit_set_reg made by an ecall handler. */
  datatype RegWrite = RegWrite(reg: nat, value: u64)

  /** One byte of guest memory written by an ecall handler. */
  datatype Poke = Poke(index: nat, value: u8)

  /** Everything an ecall handler does before it returns. */
  datatype EcallEffect = EcallEffect(writes: seq<RegWrite>, stackPokes: seq<Poke>, dataPokes: seq<Poke>)

  /** The guest address space, fixed once the ELF file is loaded. The stack occupies
      guest addresses 0 up to stackSize. */
  datatype Space = Space(
    textAddr: u64, text: seq<u8>,
    dataAddr: u64, dataSize: nat,
    stackSize: nat,
    ecall: Guest -> EcallEffect)

  const STACK_GUARD := 8

  /** Region ends do not wrap and are at least one 64-bit word above zero. */
  ghost predicate SpaceOk(sp: Space)
  {
    && 0 < sp.textAddr && 8 <= sp.textAddr + |sp.text| < TWO64
    && 8 <= sp.stackSize < TWO63
    && (sp.dataSize != 0 ==> 8 <= sp.dataAddr + sp.dataSize < TWO64)
  }

  // ---------------------------------------------------------------- ecall

  /** riscv_jit_set_reg: a write to x0 is ignored. */
  function SetReg(x: seq<u64>, reg: nat, v: u64): (r: seq<u64>)
    requires |x| == 32
    ensures |r| == 32 && r[0] == x[0]
    ensures 0 < reg < 32 ==> r[reg] == v
    ensures forall i | 0 <= i < 32 && i != reg :: r[i] == x[i]
  {
    if 0 < reg < 32 then x[reg := v] else x
  }

  function ApplyWrites(x: seq<u64>, ws: seq<RegWrite>): (r: seq<u64>)
    requires |x| == 32
    ensures |r| == 32 && r[0] == x[0]
    decreases |ws|
  {
    if |ws| == 0 then x else ApplyWrites(SetReg(x, ws[0].reg, ws[0].value), ws[1..])
  }

  function ApplyPokes(m: seq<u8>, ps: seq<Poke>): (r: seq<u8>)
    ensures |r| == |m|
    decreases |ps|
  {
    if |ps| == 0 then m
    else ApplyPokes(if ps[0].index < |m| then m[ps[0].index := ps[0].value] else m, ps[1..])
  }

  function DoEcall(sp: Space, g: Guest): (r: Guest)
    requires |g.x| == 32
    ensures |r.x| == 32 && r.x[0] == g.x[0] && |r.stack| == |g.stack| && |r.data| == |g.data|
  {
    var e := sp.ecall(g);
    Guest(ApplyWrites(g.x, e.writes), ApplyPokes(g.stack, e.stackPokes), ApplyPokes(g.data, e.dataPokes))
  }

  /** now is the last value written to a register, or what was there before if none was. */
  predicate LastWritten(ws: seq<RegWrite>, reg: nat, before: u64, now: u64)
  {
    && ((forall j | 0 <= j < |ws| :: ws[j].reg != reg) ==> now == before)
    && forall i | 0 <= i < |ws| && ws[i].reg == reg && (forall j | i < j < |ws| :: ws[j].reg != reg) :: now == ws[i].value
  }

  /** The same of a byte. */
  predicate LastPoked(ps: seq<Poke>, index: nat, before: u8, now: u8)
  {
    && ((forall j | 0 <= j < |ps| :: ps[j].index != index) ==> now == before)
    && forall i | 0 <= i < |ps| && ps[i].index == index && (forall j | i < j < |ps| :: ps[j].index != index) :: now == ps[i].value
  }

  lemma {:induction false} WritesLand(x: seq<u64>, ws: seq<RegWrite>, reg: nat)
    requires |x| == 32 && 0 < reg < 32
    ensures LastWritten(ws, reg, x[reg], ApplyWrites(x, ws)[reg])
    decreases |ws|
  {
    if |ws| > 0 {
      var rest := ws[1..];
      WritesLand(SetReg(x, ws[0].reg, ws[0].value), rest, reg);
      assert forall j | 0 < j < |ws| :: ws[j] == rest[j - 1];
      assert forall j | 0 <= j < |rest| :: rest[j] == ws[j + 1];
    }
  }

  lemma {:induction false} PokesLand(m: seq<u8>, ps: seq<Poke>, index: nat)
    requires index < |m|
    ensures LastPoked(ps, index, m[index], ApplyPokes(m, ps)[index])
    decreases |ps|
  {
    if |ps| > 0 {
      var rest := ps[1..];
      PokesLand(if ps[0].index < |m| then m[ps[0].index := ps[0].value] else m, rest, index);
      assert forall j | 0 < j < |ps| :: ps[j] == rest[j - 1];
      assert forall j | 0 <= j < |rest| :: rest[j] == ps[j + 1];
    }
  }

  /** What an ecall leaves: in each register and in each byte of stack and data the last value the
      handler wrote there, or what was there before if it wrote none. Writes to x0, to registers there
      are not and to bytes outside the region change nothing. */
  lemma EcallLeaves(sp: Space, g: Guest)
    requires |g.x| == 32
    ensures DoEcall(sp, g).x[0] == g.x[0]
    ensures forall r | 0 < r < 32 :: LastWritten(sp.ecall(g).writes, r, g.x[r], DoEcall(sp, g).x[r])
    ensures forall k | 0 <= k < |g.stack| :: LastPoked(sp.ecall(g).stackPokes, k, g.stack[k], DoEcall(sp, g).stack[k])
    ensures forall k | 0 <= k < |g.data| :: LastPoked(sp.ecall(g).dataPokes, k, g.data[k], DoEcall(sp, g).data[k])
  {
    hide ApplyWrites, ApplyPokes, LastWritten, LastPoked;
    var e := sp.ecall(g);
    forall r: nat | 0 < r < 32 ensures LastWritten(e.writes, r, g.x[r], DoEcall(sp, g).x[r]) { WritesLand(g.x, e.writes, r); }
    forall k: nat | k < |g.stack| ensures LastPoked(e.stackPokes, k, g.stack[k], DoEcall(sp, g).stack[k]) {
      PokesLand(g.stack, e.stackPokes, k);
    }
    forall k: nat | k < |g.data| ensures LastPoked(e.dataPokes, k, g.data[k], DoEcall(sp, g).data[k]) {
      PokesLand(g.data, e.dataPokes, k);
    }
  }

  // ---------------------------------------------------------------- guest memory

  /** Where a whole access lands, if it lands in one region. */
  datatype Place = InStack(offset: nat) | InData(offset: nat) | InText(offset: nat) | Nowhere

  /** The region model: the stack from the guard up, then the data region, then, for
      loads only, the text. */
  function Find(sp: Space, a: u64, n: nat, store: bool): Place
  {
    if STACK_GUARD <= a && a + n <= sp.stackSize then InStack(a)
    else if sp.dataSize != 0 && sp.dataAddr <= a && a + n <= sp.dataAddr + sp.dataSize then InData(a - sp.dataAddr)
    else if !store && sp.textAddr <= a && a + n <= sp.textAddr + |sp.text| then InText(a - sp.textAddr)
    else Nowhere
  }

  /** The lowest eight bytes of the stack are out of bounds; above them the stack comes first. */
  lemma StackGuarded(sp: Space, a: u64, n: nat, store: bool)
    ensures Find(sp, a, n, store).InStack? <==> 8 <= a && a + n <= sp.stackSize
    ensures 8 <= a && a + n <= sp.stackSize ==> Find(sp, a, n, store) == InStack(a)
  {
  }

  datatype LoadKind = L8 | L8U | L16 | L16U | L32 | L32U | L64

  function LoadBytes(k: LoadKind): (n: nat)
    ensures n == 1 || n == 2 || n == 4 || n == 8
  {
    match k
    case L8 => 1 case L8U => 1
    case L16 => 2 case L16U => 2
    case L32 => 4 case L32U => 4
    case L64 => 8
  }

  /** Sign- or zero-extension of a loaded value. */
  function Extend(k: LoadKind, v: nat): u64
  {
    match k
    case L8 => W64(if v < 0x80 then v else v - 0x100)
    case L16 => W64(if v < 0x8000 then v else v - 0x1_0000)
    case L32 => W64(if v < TWO31 then v else v - TWO32)
    case _ => W64(v)
  }

  datatype StoreKind = St8 | St16 | St32 | St64

  function StoreBytes(k: StoreKind): (n: nat)
    ensures n == 1 || n == 2 || n == 4 || n == 8
  {
    match k
    case St8 => 1
    case St16 => 2
    case St32 => 4
    case St64 => 8
  }

  // ---------------------------------------------------------------- operations

  datatype AluOp = Add | Sub | Xor | Or | And | Sll | Srl | Sra
  datatype AluWOp = AddW | SubW | SllW | SrlW | SraW
  datatype BranchCond = Eq | Ne | Lt | Ge | Ltu | Geu
  datatype MulOp = Mul | Mulh | Mulhsu | Mulhu | Mulw

  /** The opcodes of the IR. Families that differ only in an operator, a width or a
      signedness share a constructor. */
  datatype Op =
    | Nop
    | FuelCheck
    | Mov
    | Li
    | Alu(alu: AluOp)
    | AluImm(aluImm: AluOp)
    | AluW(aluw: AluWOp)
    | AluWImm(aluwImm: AluWOp)
    | Slt(sltSigned: bool)
    | SltImm(sltImmSigned: bool)
    | Load(load: LoadKind)
    | Store(store: StoreKind)
    | Beqz
    | Branch(cond: BranchCond)
    | Jmp
    | JmpReg
    | Jalr
    | Ecall
    | Ebreak
    | Ud2
    | MulOp(mul: MulOp)
    | DivRem(signed: bool, word: bool, rem: bool)

  datatype Instr = Instr(op: Op, rd: nat, rs1: nat, rs2: nat, imm: int, pc: u64)

  predicate MustRunWithZeroRd(op: Op)
  {
    op.FuelCheck? || op.Store? || op.Beqz? || op.Branch? || op.Jmp? || op.JmpReg? || op.Jalr? ||
    op.Ecall? || op.Ebreak? || op.Ud2?
  }

  /** An operation whose only effect would be a write to x0 is dropped, loads included. */
  predicate Discarded(ins: Instr)
  {
    ins.rd == 0 && !MustRunWithZeroRd(ins.op)
  }

  /** The operands every operation the front end produces has. */
  predicate InstrOk(ins: Instr)
  {
    && ins.rd < 32 && ins.rs1 < 32 && ins.rs2 < 32
    && (ins.op.AluImm? || ins.op.AluWImm? || ins.op.SltImm? || ins.op.Load? || ins.op.Store? || ins.op.Jalr? ==>
          -TWO31 <= ins.imm < TWO31)
    && (ins.op.AluImm? && (ins.op.aluImm.Sll? || ins.op.aluImm.Srl? || ins.op.aluImm.Sra?) ==> 0 <= ins.imm < 64)
    && (ins.op.AluImm? ==> !ins.op.aluImm.Sub?)
    && (ins.op.AluWImm? ==> !ins.op.aluwImm.SubW? && (!ins.op.aluwImm.AddW? ==> 0 <= ins.imm < 32))
  }

  // ---------------------------------------------------------------- arithmetic

  function AluResult(op: AluOp, a: u64, b: u64): u64
  {
    match op
    case Add => W64(a + b)
    case Sub => W64(a - b)
    case Xor => Bits64(BitXor, a, b)
    case Or => Bits64(BitOr, a, b)
    case And => Bits64(BitAnd, a, b)
    case Sll => W64(a * Pow2(b % 64))
    case Srl => W64(a / Pow2(b % 64))
    case Sra => W64(S64(a) / Pow2(b % 64))
  }

  /** The 32-bit forms compute on the low halves and sign-extend. */
  function AluWResult(op: AluWOp, a: u64, b: u64): u64
  {
    match op
    case AddW => Sext32(a + b)
    case SubW => Sext32(a - b)
    case SllW => Sext32(a * Pow2(b % 32))
    case SrlW => Sext32(W32(a) / Pow2(b % 32))
    case SraW => Sext32(S32(W32(a)) / Pow2(b % 32))
  }

  function SltResult(signed: bool, a: u64, b: u64): u64
  {
    if (if signed then S64(a) < S64(b) else a < b) then 1 else 0
  }

  predicate Taken(c: BranchCond, a: u64, b: u64)
  {
    match c
    case Eq => a == b
    case Ne => a != b
    case Lt => S64(a) < S64(b)
    case Ge => S64(a) >= S64(b)
    case Ltu => a < b
    case Geu => a >= b
  }

  function MulResult(op: MulOp, a: u64, b: u64): u64
  {
    match op
    case Mul => W64(a * b)
    case Mulh => W64(S64(a) * S64(b) / TWO64)
    case Mulhsu => W64(S64(a) * b / TWO64)
    case Mulhu => W64(a * b / TWO64)
    case Mulw => Sext32(a * b)
  }

  /** Division rounding toward zero. */
  function TruncDiv(n: int, d: int): int
    requires d != 0
  {
    var q := Abs(n) / Abs(d);
    if (n < 0) == (d < 0) then q else -q
  }

  /** Division and remainder on w-bit integers: dividing by zero gives all ones and
      leaves the dividend; the one signed overflow gives the dividend and zero. */
  function DivInt(a: int, b: int, rem: bool, signedMin: int): int
  {
    if b == 0 then (if rem then a else -1)
    else if a == signedMin && b == -1 then (if rem then 0 else a)
    else if rem then a - b * TruncDiv(a, b)
    else TruncDiv(a, b)
  }

  function DivResult(signed: bool, word: bool, rem: bool, a: u64, b: u64): u64
  {
    if word then
      if signed then Sext32(DivInt(S32(W32(a)), S32(W32(b)), rem, -TWO31))
      else Sext32(DivInt(W32(a), W32(b), rem, -TWO31))
    else
      if signed then W64(DivInt(S64(a), S64(b), rem, -TWO63))
      else W64(DivInt(a, b, rem, -TWO63))
  }

  // ---------------------------------------------------------------- one operation

  datatype FaultKind = Timeout | Read | Write

  /** What one operation does: continue, transfer control, or stop without completing. */
  datatype Effect =
    | Next(g: Guest)
    | Direct(g: Guest, pc: u64)
    | Indirect(g: Guest, pc: u64)
    | Faulted(kind: FaultKind)
    | Trapped

  function SetRd(g: Guest, rd: nat, v: u64): (r: Guest)
    requires |g.x| == 32
    ensures |r.x| == 32 && r.x[0] == g.x[0] && |r.stack| == |g.stack| && |r.data| == |g.data|
  {
    g.(x := SetReg(g.x, rd, v))
  }

  function LoadEffect(sp: Space, k: LoadKind, a: u64, rd: nat, g: Guest): Effect
    requires |g.x| == 32 && |g.stack| == sp.stackSize && |g.data| == sp.dataSize
  {
    var n := LoadBytes(k);
    match Find(sp, a, n, false)
    case InStack(i) => Next(SetRd(g, rd, Extend(k, FromLe(g.stack[i..i + n]))))
    case InData(i) => Next(SetRd(g, rd, Extend(k, FromLe(g.data[i..i + n]))))
    case InText(i) => Next(SetRd(g, rd, Extend(k, FromLe(sp.text[i..i + n]))))
    case Nowhere => Faulted(Read)
  }

  function StoreEffect(sp: Space, k: StoreKind, a: u64, v: u64, g: Guest): Effect
    requires |g.x| == 32 && |g.stack| == sp.stackSize && |g.data| == sp.dataSize
  {
    var n := StoreBytes(k);
    match Find(sp, a, n, true)
    case InStack(i) => Next(g.(stack := Splice(g.stack, i, Le(v, n))))
    case InData(i) => Next(g.(data := Splice(g.data, i, Le(v, n))))
    case _ => Faulted(Write)
  }

  /** The meaning of one IR operation. Fuel is accounted for by the caller. */
  function Step(sp: Space, ins: Instr, g: Guest): Effect
    requires InstrOk(ins) && |g.x| == 32 && |g.stack| == sp.stackSize && |g.data| == sp.dataSize
  {
    var a, b := g.x[ins.rs1], g.x[ins.rs2];
    if Discarded(ins) then Next(g) else
    match ins.op
    case Nop => Next(g)
    case FuelCheck => Next(g)
    case Mov => Next(SetRd(g, ins.rd, b))
    case Li => Next(SetRd(g, ins.rd, W64(ins.imm)))
    case Alu(op) => Next(SetRd(g, ins.rd, AluResult(op, a, b)))
    case AluImm(op) => Next(SetRd(g, ins.rd, AluResult(op, a, W64(ins.imm))))
    case AluW(op) => Next(SetRd(g, ins.rd, AluWResult(op, a, b)))
    case AluWImm(op) => Next(SetRd(g, ins.rd, AluWResult(op, a, W64(ins.imm))))
    case Slt(s) => Next(SetRd(g, ins.rd, SltResult(s, a, b)))
    case SltImm(s) => Next(SetRd(g, ins.rd, SltResult(s, a, W64(ins.imm))))
    case Load(k) => LoadEffect(sp, k, W64(a + ins.imm), ins.rd, g)
    case Store(k) => StoreEffect(sp, k, W64(a + ins.imm), b, g)
    case Beqz => if a == 0 then Direct(g, W64(ins.imm)) else Next(g)
    case Branch(c) => if Taken(c, a, b) then Direct(g, W64(ins.imm)) else Next(g)
    case Jmp => Direct(g, W64(ins.imm))
    case JmpReg => Indirect(g, a)
    case Jalr =>
      var t := W64(a + ins.imm);
      Indirect(SetRd(g, ins.rd, W64(ins.pc + 4)), t - t % 2)
    case Ecall => Next(DoEcall(sp, g))
    case Ebreak => Trapped
    case Ud2 => Trapped
    case MulOp(op) => Next(SetRd(g, ins.rd, MulResult(op, a, b)))
    case DivRem(s, w, r) => Next(SetRd(g, ins.rd, DivResult(s, w, r, a, b)))
  }
}
