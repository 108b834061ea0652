/** The x86-64 instructions the code generator emits, and what each does to the host. */
module X86 {
  import opened Words
  import Ir

  // ---------------------------------------------------------------- instructions

  datatype Reg = RAX | RCX | RDX | RBX | RSP | RBP | RSI | RDI | R8 | R9 | R10 | R11 | R12 | R13 | R14 | R15

  datatype Cond = B | AE | E | NE | A | L | GE | LE

  datatype AluOp = ADD | OR | AND | SUB | XOR | CMP | TEST | MOV
  datatype ImmOp = ADDI | ORI | ANDI | XORI | CMPI
  datatype ShiftOp = SHL | SHR | SAR
  datatype Grp3Op = MUL | IMUL | DIV | IDIV

  /** An 8-bit register operand: without a REX prefix, codes 4 to 7 name AH to BH. */
  datatype ByteReg = Low(reg: Reg) | High(high: Reg)

  /** w selects the 64-bit form; otherwise the operation is 32-bit and clears the upper half. */
  datatype Instr =
    | Rr(op: AluOp, w: bool, dst: Reg, src: Reg)
    | Movsxd(dst: Reg, src: Reg)
    | LoadM(kind: Ir.LoadKind, dst: Reg, base: Reg, disp: i32)
    | StoreM(size: Ir.StoreKind, base: Reg, disp: i32, src: Reg)
    | MovImm(dst: Reg, imm64: u64)
    | RImm(immOp: ImmOp, w: bool, dst: Reg, imm: i32)
    | ShiftImm(shift: ShiftOp, w: bool, dst: Reg, count: u8)
    | ShiftCl(shift: ShiftOp, w: bool, dst: Reg)
    | Setcc(cond: Cond, byteDst: ByteReg)
    | MovzxB(dst: Reg, src: Reg)
    | Cqo(w: bool)
    | Imul(w: bool, dst: Reg, src: Reg)
    | Grp3(grp3: Grp3Op, w: bool, src: Reg)
    | Push(src: Reg)
    | Pop(dst: Reg)
    | Jmp(rel: i32)
    | Jcc(cond: Cond, rel: i32)
    | JmpR(src: Reg)
    | CallR(src: Reg)
    | Ret
    | Int3
    | Ud2

  // ---------------------------------------------------------------- host state

  /** Flags are tracked after CMP and TEST only. Every other arithmetic instruction leaves
      them Unknown, and a branch on Unknown flags is an error. */
  datatype Flags = Unknown | Flags(cf: bool, zf: bool, sf: bool, of: bool)

  /** The riscv_cpu record that R15 points at. */
  datatype Cpu = Cpu(x: seq<u64>, pc: u64, fuel: u64, fault: u64, stackMem: u64, stackSize: u64)

  const OFF_PC: i32 := 256
  const OFF_FUEL: i32 := 264
  const OFF_FAULT: i32 := 272
  const OFF_STACK_MEM: i32 := 280
  const OFF_STACK_SIZE: i32 := 288
  const CPU_BYTES := 296

  /** The fault code of a debugger event. */
  const FAULT_DEBUG: u64 := 4

  /** Host addresses of the objects the generated code touches, and the host's answer for
      the registers a native call may clobber. */
  datatype Env = Env(
    sp: Ir.Space,
    cpuAt: u64, stackAt: u64, dataAt: u64, textAt: u64,
    codeAt: u64, jitAt: u64, ecallAt: u64,
    clobber: (Reg, Regs) -> u64)

  ghost predicate Apart(a: int, n: int, b: int, m: int)
  {
    a + n <= b || b + m <= a
  }

  /** The four host objects do not overlap and do not wrap. */
  ghost predicate EnvOk(e: Env)
  {
    && Ir.SpaceOk(e.sp)
    && e.cpuAt + CPU_BYTES < TWO64 && e.stackAt + e.sp.stackSize < TWO64
    && e.dataAt + e.sp.dataSize < TWO64 && e.textAt + |e.sp.text| < TWO64
    && Apart(e.cpuAt, CPU_BYTES, e.stackAt, e.sp.stackSize)
    && Apart(e.cpuAt, CPU_BYTES, e.dataAt, e.sp.dataSize)
    && Apart(e.cpuAt, CPU_BYTES, e.textAt, |e.sp.text|)
    && Apart(e.stackAt, e.sp.stackSize, e.dataAt, e.sp.dataSize)
    && Apart(e.stackAt, e.sp.stackSize, e.textAt, |e.sp.text|)
    && Apart(e.dataAt, e.sp.dataSize, e.textAt, |e.sp.text|)
  }

  /** The mapping of the code is apart from the host objects, so that writing to these never changes it. */
  ghost predicate CodeApart(e: Env, size: nat)
  {
    && e.codeAt + size < TWO64
    && Apart(e.codeAt, size, e.cpuAt, CPU_BYTES) && Apart(e.codeAt, size, e.stackAt, e.sp.stackSize)
    && Apart(e.codeAt, size, e.dataAt, e.sp.dataSize) && Apart(e.codeAt, size, e.textAt, |e.sp.text|)
  }

  datatype Regs = Regs(
    rax: u64, rcx: u64, rdx: u64, rbx: u64, rsp: u64, rbp: u64, rsi: u64, rdi: u64,
    r8: u64, r9: u64, r10: u64, r11: u64, r12: u64, r13: u64, r14: u64, r15: u64)

  function Get(s: Regs, r: Reg): u64
  {
    match r
    case RAX => s.rax case RCX => s.rcx case RDX => s.rdx case RBX => s.rbx
    case RSP => s.rsp case RBP => s.rbp case RSI => s.rsi case RDI => s.rdi
    case R8 => s.r8 case R9 => s.r9 case R10 => s.r10 case R11 => s.r11
    case R12 => s.r12 case R13 => s.r13 case R14 => s.r14 case R15 => s.r15
  }

  function Set(s: Regs, r: Reg, v: u64): Regs
  {
    match r
    case RAX => s.(rax := v) case RCX => s.(rcx := v) case RDX => s.(rdx := v) case RBX => s.(rbx := v)
    case RSP => s.(rsp := v) case RBP => s.(rbp := v) case RSI => s.(rsi := v) case RDI => s.(rdi := v)
    case R8 => s.(r8 := v) case R9 => s.(r9 := v) case R10 => s.(r10 := v) case R11 => s.(r11 := v)
    case R12 => s.(r12 := v) case R13 => s.(r13 := v) case R14 => s.(r14 := v) case R15 => s.(r15 := v)
  }

  /** Registers, flags, the cpu record, the two writable guest regions and the native stack. */
  datatype Host = Host(r: Regs, f: Flags, cpu: Cpu, stack: seq<u8>, data: seq<u8>, native: seq<u64>)

  ghost predicate HostOk(e: Env, h: Host)
  {
    |h.cpu.x| == 32 && |h.stack| == e.sp.stackSize && |h.data| == e.sp.dataSize
  }

  // ---------------------------------------------------------------- memory

  function CpuSlot(c: Cpu, off: nat): Option<u64>
    requires |c.x| == 32
  {
    if off % 8 != 0 then None
    else if off < OFF_PC then Some(c.x[off / 8])
    else if off == OFF_PC then Some(c.pc)
    else if off == OFF_FUEL then Some(c.fuel)
    else if off == OFF_FAULT then Some(c.fault)
    else if off == OFF_STACK_MEM then Some(c.stackMem)
    else if off == OFF_STACK_SIZE then Some(c.stackSize)
    else None
  }

  function SetCpuSlot(c: Cpu, off: nat, v: u64): Option<Cpu>
    requires |c.x| == 32
  {
    if off % 8 != 0 then None
    else if off < OFF_PC then Some(c.(x := c.x[off / 8 := v]))
    else if off == OFF_PC then Some(c.(pc := v))
    else if off == OFF_FUEL then Some(c.(fuel := v))
    else if off == OFF_FAULT then Some(c.(fault := v))
    else None
  }

  predicate Within(a: int, n: int, base: int, size: int)
  {
    base <= a && a + n <= base + size
  }

  /** An n-byte read at a host address; None when it does not lie inside one object. */
  function ReadHost(e: Env, h: Host, a: u64, n: nat): Option<nat>
    requires |h.cpu.x| == 32
  {
    if Within(a, n, e.cpuAt, CPU_BYTES) then (if n == 8 then CpuSlot(h.cpu, a - e.cpuAt) else None)
    else if Within(a, n, e.stackAt, |h.stack|) then Some(FromLe(h.stack[a - e.stackAt..a - e.stackAt + n]))
    else if Within(a, n, e.dataAt, |h.data|) then Some(FromLe(h.data[a - e.dataAt..a - e.dataAt + n]))
    else if Within(a, n, e.textAt, |e.sp.text|) then Some(FromLe(e.sp.text[a - e.textAt..a - e.textAt + n]))
    else None
  }

  /** An n-byte write; the text is not writable. */
  function WriteHost(e: Env, h: Host, a: u64, n: nat, v: u64): Option<Host>
    requires |h.cpu.x| == 32
  {
    if Within(a, n, e.cpuAt, CPU_BYTES) then
      if n != 8 then None
      else match SetCpuSlot(h.cpu, a - e.cpuAt, v) case None => None case Some(c) => Some(h.(cpu := c))
    else if Within(a, n, e.stackAt, |h.stack|) then Some(h.(stack := Splice(h.stack, a - e.stackAt, Le(v, n))))
    else if Within(a, n, e.dataAt, |h.data|) then Some(h.(data := Splice(h.data, a - e.dataAt, Le(v, n))))
    else None
  }

  // ---------------------------------------------------------------- arithmetic

  function Modulus(w: bool): int { if w then TWO64 else TWO32 }

  function Signed(w: bool, a: u64): int { if w then S64(a) else S32(W32(a)) }

  function Operand(h: Host, w: bool, r: Reg): u64
  {
    if w then Get(h.r, r) else W32(Get(h.r, r))
  }

  function BitwiseOf(op: BitOp, w: bool, a: u64, b: u64): u64
  {
    if w then Bits64(op, a, b) else Bits32(op, W32(a), W32(b))
  }

  function AluValue(op: AluOp, w: bool, a: u64, b: u64): u64
  {
    match op
    case ADD => (a + b) % Modulus(w)
    case SUB => (a - b) % Modulus(w)
    case AND => BitwiseOf(BitAnd, w, a, b)
    case OR => BitwiseOf(BitOr, w, a, b)
    case XOR => BitwiseOf(BitXor, w, a, b)
    case MOV => b
    case CMP => a
    case TEST => a
  }

  function CmpFlags(w: bool, a: u64, b: u64): Flags
  {
    var d := (a - b) % Modulus(w);
    var exact := Signed(w, a) - Signed(w, b);
    Flags(a < b, d == 0, d >= Modulus(w) / 2, !(-(Modulus(w) / 2) <= exact < Modulus(w) / 2))
  }

  function TestFlags(w: bool, a: u64, b: u64): Flags
  {
    var d := BitwiseOf(BitAnd, w, a, b);
    Flags(false, d == 0, d >= Modulus(w) / 2, false)
  }

  predicate Holds(c: Cond, f: Flags)
    requires f.Flags?
  {
    match c
    case B => f.cf
    case AE => !f.cf
    case E => f.zf
    case NE => !f.zf
    case A => !f.cf && !f.zf
    case L => f.sf != f.of
    case GE => f.sf == f.of
    case LE => f.zf || f.sf != f.of
  }

  /** The count is masked to the operand width. */
  function ShiftValue(op: ShiftOp, w: bool, a: u64, count: nat): u64
  {
    var k := Pow2(count % (if w then 64 else 32));
    match op
    case SHL => (a * k) % Modulus(w)
    case SHR => (a / k) % Modulus(w)
    case SAR => (Signed(w, a) / k) % Modulus(w)
  }

  /** RDX:RAX after a multiply or divide; None for a divide error. */
  function Grp3Value(op: Grp3Op, w: bool, hi: u64, lo: u64, v: u64): Option<(u64, u64)>
  {
    var m := Modulus(w);
    match op
    case MUL => var p := lo * v; Some(((p / m) % m, p % m))
    case IMUL => var p := Signed(w, lo) * Signed(w, v); Some(((p / m) % m, p % m))
    case DIV =>
      if v == 0 then None else
      var n := hi * m + lo;
      if n / v >= m then None else Some((n % v % m, n / v % m))
    case IDIV =>
      if v == 0 then None else
      var n, d := Signed(w, hi) * m + lo, Signed(w, v);
      if d == 0 then None else
      var q := Ir.TruncDiv(n, d);
      if !(-(m / 2) <= q < m / 2) then None else Some(((n - d * q) % m, q % m))
  }

  function SetByte(prev: u64, dst: ByteReg, v: u8): u64
  {
    match dst
    case Low(_) => prev - prev % 0x100 + v
    case High(_) => prev - (prev / 0x100 % 0x100) * 0x100 + v * 0x100
  }

  // ---------------------------------------------------------------- execution

  /** How an instruction ends. Trap is INT3 and UD2; Stuck is everything the host would not
      survive: a divide error, an access outside every object, a branch on unknown flags. */
  datatype Outcome =
    | Fall(h: Host)
    | Branch(h: Host)
    | Goto(h: Host, target: u64)
    | Return(h: Host)
    | Trap
    | Stuck

  function Put(h: Host, r: Reg, v: u64): Host
  {
    h.(r := Set(h.r, r, v))
  }

  function PutF(h: Host, r: Reg, v: u64): Host
  {
    h.(r := Set(h.r, r, v), f := Unknown)
  }

  function Address(h: Host, base: Reg, disp: int): u64
  {
    W64(Get(h.r, base) + disp)
  }

  /** The registers after a native call: the caller-saved ones hold anything. */
  function AfterCall(e: Env, s: Regs): Regs
  {
    s.(rax := e.clobber(RAX, s), rcx := e.clobber(RCX, s), rdx := e.clobber(RDX, s),
       rsi := e.clobber(RSI, s), rdi := e.clobber(RDI, s), r8 := e.clobber(R8, s),
       r9 := e.clobber(R9, s), r10 := e.clobber(R10, s), r11 := e.clobber(R11, s))
  }

  /** A native call gives back exactly the registers its convention preserves; in the others it may
      leave anything. */
  lemma CallClobbers(e: Env, s: Regs, r: Reg, v: u64)
    ensures r.RBX? || r.RSP? || r.RBP? || r.R12? || r.R13? || r.R14? || r.R15? ==> Get(AfterCall(e, s), r) == Get(s, r)
    ensures r.RAX? || r.RCX? || r.RDX? || r.RSI? || r.RDI? || r.R8? || r.R9? || r.R10? || r.R11? ==>
              var any: (Reg, Regs) -> u64 := (q, t) => v; Get(AfterCall(e.(clobber := any), s), r) == v
  {
  }

  function CallEcall(e: Env, h: Host): Outcome
    requires |h.cpu.x| == 32
  {
    var g := Ir.DoEcall(e.sp, Ir.Guest(h.cpu.x, h.stack, h.data));
    Fall(Host(AfterCall(e, h.r), Unknown, h.cpu.(x := g.x), g.stack, g.data, h.native))
  }

  function ExecRr(h: Host, op: AluOp, w: bool, dst: Reg, src: Reg): Outcome
  {
    var a, b := Operand(h, w, dst), Operand(h, w, src);
    match op
    case CMP => Fall(h.(f := CmpFlags(w, a, b)))
    case TEST => Fall(h.(f := TestFlags(w, a, b)))
    case MOV => Fall(Put(h, dst, b))
    case _ => Fall(PutF(h, dst, AluValue(op, w, a, b)))
  }

  function ExecRImm(h: Host, op: ImmOp, w: bool, dst: Reg, imm: i32): Outcome
  {
    var a, b := Operand(h, w, dst), (if w then W64(imm) else W32(imm));
    match op
    case ADDI => Fall(PutF(h, dst, AluValue(ADD, w, a, b)))
    case ORI => Fall(PutF(h, dst, AluValue(OR, w, a, b)))
    case ANDI => Fall(PutF(h, dst, AluValue(AND, w, a, b)))
    case XORI => Fall(PutF(h, dst, AluValue(XOR, w, a, b)))
    case CMPI => Fall(h.(f := CmpFlags(w, a, b)))
  }

  function ExecLoad(e: Env, h: Host, k: Ir.LoadKind, dst: Reg, base: Reg, disp: i32): Outcome
    requires |h.cpu.x| == 32
  {
    match ReadHost(e, h, Address(h, base, disp), Ir.LoadBytes(k))
    case None => Stuck
    case Some(v) => Fall(Put(h, dst, Ir.Extend(k, v)))
  }

  function ExecStore(e: Env, h: Host, k: Ir.StoreKind, base: Reg, disp: i32, src: Reg): Outcome
    requires |h.cpu.x| == 32
  {
    match WriteHost(e, h, Address(h, base, disp), Ir.StoreBytes(k), Get(h.r, src))
    case None => Stuck
    case Some(h') => Fall(h')
  }

  function ExecSetcc(h: Host, c: Cond, dst: ByteReg): Outcome
  {
    if h.f.Unknown? then Stuck else
    var r: Reg := if dst.Low? then dst.reg else dst.high;
    Fall(Put(h, r, SetByte(Get(h.r, r), dst, if Holds(c, h.f) then 1 else 0)))
  }

  /** CDQ and CQO: RDX becomes the sign of RAX. */
  function ExecCqo(h: Host, w: bool): Outcome
  {
    Fall(Put(h, RDX, if Signed(w, Get(h.r, RAX)) < 0 then Modulus(w) - 1 else 0))
  }

  function ExecImul(h: Host, w: bool, dst: Reg, src: Reg): Outcome
  {
    Fall(PutF(h, dst, (Signed(w, Get(h.r, dst)) * Signed(w, Get(h.r, src))) % Modulus(w)))
  }

  function ExecGrp3(h: Host, op: Grp3Op, w: bool, src: Reg): Outcome
  {
    match Grp3Value(op, w, Operand(h, w, RDX), Operand(h, w, RAX), Operand(h, w, src))
    case None => Stuck
    case Some(p) => Fall(PutF(PutF(h, RDX, p.0), RAX, p.1))
  }

  function ExecPop(h: Host, dst: Reg): Outcome
  {
    var n := |h.native|;
    if n == 0 then Stuck else Fall(Put(h, dst, h.native[n - 1]).(native := h.native[..n - 1]))
  }

  function ExecJcc(h: Host, c: Cond): Outcome
  {
    if h.f.Unknown? then Stuck else if Holds(c, h.f) then Branch(h) else Fall(h)
  }

  function Exec(e: Env, ins: Instr, h: Host): Outcome
    requires |h.cpu.x| == 32
  {
    match ins
    case Rr(op, w, dst, src) => ExecRr(h, op, w, dst, src)
    case Movsxd(dst, src) => Fall(Put(h, dst, Sext32(Get(h.r, src))))
    case LoadM(k, dst, base, disp) => ExecLoad(e, h, k, dst, base, disp)
    case StoreM(k, base, disp, src) => ExecStore(e, h, k, base, disp, src)
    case MovImm(dst, imm) => Fall(Put(h, dst, imm))
    case RImm(op, w, dst, imm) => ExecRImm(h, op, w, dst, imm)
    case ShiftImm(op, w, dst, count) => Fall(PutF(h, dst, ShiftValue(op, w, Operand(h, w, dst), count)))
    case ShiftCl(op, w, dst) => Fall(PutF(h, dst, ShiftValue(op, w, Operand(h, w, dst), h.r.rcx % 0x100)))
    case Setcc(c, dst) => ExecSetcc(h, c, dst)
    case MovzxB(dst, src) => Fall(Put(h, dst, Get(h.r, src) % 0x100))
    case Cqo(w) => ExecCqo(h, w)
    case Imul(w, dst, src) => ExecImul(h, w, dst, src)
    case Grp3(op, w, src) => ExecGrp3(h, op, w, src)
    case Push(src) => Fall(h.(native := h.native + [Get(h.r, src)]))
    case Pop(dst) => ExecPop(h, dst)
    case Jmp(_) => Branch(h)
    case Jcc(c, _) => ExecJcc(h, c)
    case JmpR(src) => Goto(h, Get(h.r, src))
    case CallR(src) => if Get(h.r, src) == e.ecallAt && h.r.rdi == e.jitAt then CallEcall(e, h) else Stuck
    case Ret => Return(h)
    case Int3 => Trap
    case Ud2 => Trap
  }
}
