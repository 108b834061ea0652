/** Each IR operation is simulated by the code it is lowered to. */
module LoweringOps {
  import opened Words
  import opened X86
  import opened Snippet
  import opened Lowering
  import opened LoweringAlu
  import opened LoweringMulDiv
  import opened LoweringMemory
  import Ir

  function GuestOf(h: Host): Ir.Guest { Ir.Guest(h.cpu.x, h.stack, h.data) }

  /** The host state after an operation that leaves guest g and stored program counter pc. */
  ghost predicate Became(h: Host, h': Host, g: Ir.Guest, pc: u64)
  {
    && SameReserved(h.r, h'.r) && h'.native == h.native
    && h'.cpu == h.cpu.(x := g.x, pc := pc) && h'.stack == g.stack && h'.data == g.data
  }

  /** The ending of an operation's code matches the operation's effect: continue at the end,
      jump to the branch target, leave through the epilogue with the new program counter
      stored, leave through the operation's own fault stub with nothing changed, or trap. */
  ghost predicate Matches(h: Host, r: Ending, eff: Ir.Effect, k: nat)
  {
    match eff
    case Next(g) => r.Done? && Became(h, r.h, g, h.cpu.pc)
    case Direct(g, pc) => r.Out? && r.to == GuestPc(pc) && Became(h, r.h, g, h.cpu.pc)
    case Indirect(g, pc) => r.Out? && r.to == Epilogue && Became(h, r.h, g, pc)
    case Faulted(kind) => r.Out? && r.to == Stub(kind, k) && Became(h, r.h, GuestOf(h), h.cpu.pc)
    case Trapped => r == Snippet.Trapped
  }

  // ---------------------------------------------------------------- the cpu record

  lemma CpuRead(e: Env, h: Host, off: i32)
    requires EnvOk(e) && HostOk(e, h) && h.r.r15 == e.cpuAt && 0 <= off <= OFF_STACK_SIZE && off % 8 == 0
    ensures ReadHost(e, h, Address(h, R15, off), 8) == CpuSlot(h.cpu, off)
  {
    hide CpuSlot, Ir.SpaceOk, Apart;
    assert Address(h, R15, off) == e.cpuAt + off;
  }

  lemma CpuWrite(e: Env, h: Host, off: i32, v: u64)
    requires EnvOk(e) && HostOk(e, h) && h.r.r15 == e.cpuAt && 0 <= off <= OFF_FAULT && off % 8 == 0
    ensures SetCpuSlot(h.cpu, off, v).Some?
    ensures WriteHost(e, h, Address(h, R15, off), 8, v) == Some(h.(cpu := SetCpuSlot(h.cpu, off, v).value))
  {
    assert SetCpuSlot(h.cpu, off, v).Some?;
    hide SetCpuSlot, Splice, Le, Ir.SpaceOk, Apart;
    assert Address(h, R15, off) == e.cpuAt + off;
  }

  lemma LoadCpuExec(e: Env, dst: Reg, off: i32, h: Host)
    requires Ready(e, h) && 0 <= off <= OFF_STACK_SIZE && off % 8 == 0 && CpuSlot(h.cpu, off).Some?
    ensures Exec(e, LoadM(Ir.L64, dst, R15, off), h) == Fall(Put(h, dst, CpuSlot(h.cpu, off).value))
  {
    hide ReadHost, WriteHost, CpuSlot, EnvOk, Address, Grp3Value, ShiftValue, Get, Set;
    CpuRead(e, h, off);
  }

  lemma StoreCpuExec(e: Env, off: i32, src: Reg, h: Host)
    requires Ready(e, h) && 0 <= off <= OFF_FAULT && off % 8 == 0
    ensures SetCpuSlot(h.cpu, off, Get(h.r, src)).Some?
    ensures Exec(e, StoreM(Ir.St64, R15, off, src), h) ==
            Fall(h.(cpu := SetCpuSlot(h.cpu, off, Get(h.r, src)).value))
  {
    hide ReadHost, WriteHost, SetCpuSlot, EnvOk, Address, Grp3Value, ShiftValue, Get, Set;
    CpuWrite(e, h, off, Get(h.r, src));
  }

  lemma LoadRegExec(e: Env, dst: Reg, guest: nat, h: Host)
    requires Ready(e, h) && guest < 32
    ensures Exec(e, LoadReg(dst, guest).ins, h) == Fall(Put(h, dst, h.cpu.x[guest]))
  {
    hide Exec, EnvOk, Set;
    LoadCpuExec(e, dst, 8 * guest, h);
  }

  lemma StoreRegExec(e: Env, guest: nat, src: Reg, h: Host)
    requires Ready(e, h) && guest < 32
    ensures Exec(e, StoreReg(guest, src).ins, h) ==
            Fall(h.(cpu := h.cpu.(x := h.cpu.x[guest := Get(h.r, src)])))
  {
    hide Exec, EnvOk, Get;
    StoreCpuExec(e, 8 * guest, src, h);
  }

  // ---------------------------------------------------------------- guest memory through host addresses

  lemma ReadPlace(e: Env, h: Host, a: u64, n: nat)
    requires EnvOk(e) && HostOk(e, h) && 0 < n <= 8
    requires !Ir.Find(e.sp, a, n, false).Nowhere?
    ensures var p := Ir.Find(e.sp, a, n, false);
            0 <= HostAt(e, p) < TWO64 &&
            (p.InStack? ==> ReadHost(e, h, HostAt(e, p), n) == Some(FromLe(h.stack[p.offset..p.offset + n]))) &&
            (p.InData? ==> ReadHost(e, h, HostAt(e, p), n) == Some(FromLe(h.data[p.offset..p.offset + n]))) &&
            (p.InText? ==> ReadHost(e, h, HostAt(e, p), n) == Some(FromLe(e.sp.text[p.offset..p.offset + n])))
  {
  }

  lemma WritePlace(e: Env, h: Host, a: u64, n: nat, v: u64)
    requires EnvOk(e) && HostOk(e, h) && 0 < n <= 8
    requires !Ir.Find(e.sp, a, n, true).Nowhere?
    ensures var p := Ir.Find(e.sp, a, n, true);
            0 <= HostAt(e, p) < TWO64 && !p.InText? &&
            (p.InStack? ==>
               WriteHost(e, h, HostAt(e, p), n, v) == Some(h.(stack := Splice(h.stack, p.offset, Le(v, n))))) &&
            (p.InData? ==>
               WriteHost(e, h, HostAt(e, p), n, v) == Some(h.(data := Splice(h.data, p.offset, Le(v, n)))))
  {
  }

  // ---------------------------------------------------------------- loads and stores

  lemma AddOffsetOk(e: Env, code: seq<Item>, imm: i32, h: Host) returns (h': Host)
    requires |h.cpu.x| == 32
    requires |AddOffset(imm)| <= |code| && code[..|AddOffset(imm)|] == AddOffset(imm)
    ensures ScratchOnly(h, h') && h'.r.rax == h.r.rax && h'.r.rcx == W64(h.r.rcx + imm)
    ensures Run(e, code, 0, h) == Run(e, code, |AddOffset(imm)|, h')
  {
    hide Run, Exec;
    if imm == 0 { return h; }
    assert code[0] == Op(RImm(ADDI, true, RCX, imm));
    h' := PutF(h, RCX, W64(h.r.rcx + imm));
    AddImmExec(e, RCX, imm, h);
    RunOp(e, code, 0, h, h');
  }

  lemma AccessLoadExec(e: Env, k: Ir.LoadKind, a: u64, h: Host)
    requires Ready(e, h)
    requires var p := Ir.Find(e.sp, a, Ir.LoadBytes(k), false); !p.Nowhere? && h.r.rcx == HostAt(e, p)
    ensures var r := Exec(e, LoadM(k, RAX, RCX, 0), h);
            r.Fall? && ScratchOnly(h, r.h) &&
            forall rd | 0 < rd < 32 ::
              Ir.LoadEffect(e.sp, k, a, rd, GuestOf(h)) == Ir.Next(Ir.SetRd(GuestOf(h), rd, r.h.r.rax))
  {
    hide ReadHost, WriteHost, EnvOk, Grp3Value, ShiftValue, Bits64, Bits32, Ir.Find, Ir.Extend, Ir.SetRd, HostAt, FromLe;
    ReadPlace(e, h, a, Ir.LoadBytes(k));
  }

  lemma AccessStoreExec(e: Env, k: Ir.StoreKind, a: u64, h: Host)
    requires Ready(e, h)
    requires var p := Ir.Find(e.sp, a, Ir.StoreBytes(k), true); !p.Nowhere? && h.r.rcx == HostAt(e, p)
    ensures var r := Exec(e, StoreM(k, RCX, 0, RAX), h);
            r.Fall? && r.h.cpu == h.cpu && r.h.r == h.r && r.h.native == h.native &&
            Ir.StoreEffect(e.sp, k, a, h.r.rax, GuestOf(h)) == Ir.Next(GuestOf(r.h))
  {
    hide ReadHost, WriteHost, EnvOk, Grp3Value, ShiftValue, Bits64, Bits32, Ir.Find, HostAt, Splice, Le;
    WritePlace(e, h, a, Ir.StoreBytes(k), h.r.rax);
  }

  // ---------------------------------------------------------------- operations that compute into rd

  /** Stores RAX to rd as the last step. */
  lemma FinishRd(e: Env, code: seq<Item>, rd: nat, h0: Host, h: Host)
    requires Ready(e, h) && 0 < rd < 32 && |code| > 0 && code[|code| - 1] == StoreReg(rd, RAX)
    requires ScratchOnly(h0, h)
    ensures var r := Run(e, code, |code| - 1, h);
            r.Done? && Became(h0, r.h, Ir.SetRd(GuestOf(h0), rd, h.r.rax), h0.cpu.pc)
  {
    hide Run, Exec, Ready;
    ReadyBounds(e, h);
    var h1 := h.(cpu := h.cpu.(x := h.cpu.x[rd := h.r.rax]));
    StoreRegExec(e, rd, RAX, h);
    RunOp(e, code, |code| - 1, h, h1);
    RunEnd(e, code, h1);
  }

  lemma LoadOperandsOk(e: Env, code: seq<Item>, rs1: nat, rs2: nat, h: Host) returns (h': Host)
    requires Ready(e, h) && rs1 < 32 && rs2 < 32 && 2 <= |code|
    requires code[0] == LoadReg(RAX, rs1) && code[1] == LoadReg(RCX, rs2)
    ensures Ready(e, h') && ScratchOnly(h, h') && h'.r.rax == h.cpu.x[rs1] && h'.r.rcx == h.cpu.x[rs2]
    ensures Run(e, code, 0, h) == Run(e, code, 2, h')
  {
    hide Run, Exec, Ready;
    ReadyBounds(e, h);
    var h1 := Put(h, RAX, h.cpu.x[rs1]);
    LoadRegExec(e, RAX, rs1, h);
    RunOp(e, code, 0, h, h1);
    ReadyKept(e, h, h1);
    h' := Put(h1, RCX, h.cpu.x[rs2]);
    LoadRegExec(e, RCX, rs2, h1);
    RunOp(e, code, 1, h1, h');
    ReadyKept(e, h1, h');
  }

  lemma LoadOneOk(e: Env, code: seq<Item>, at: nat, dst: Reg, rs: nat, h: Host) returns (h': Host)
    requires Ready(e, h) && rs < 32 && at < |code| && code[at] == LoadReg(dst, rs)
    requires dst == RAX || dst == RCX
    ensures Ready(e, h') && h' == Put(h, dst, h.cpu.x[rs]) && ScratchOnly(h, h')
    ensures Run(e, code, at, h) == Run(e, code, at + 1, h')
  {
    hide Run, Exec, Ready;
    ReadyBounds(e, h);
    h' := Put(h, dst, h.cpu.x[rs]);
    LoadRegExec(e, dst, rs, h);
    RunOp(e, code, at, h, h');
    ReadyKept(e, h, h');
  }

  /** The value a register-register operation computes. */
  function BinaryResult(op: Ir.Op, a: u64, b: u64): u64
    requires IsBinary(op)
  {
    match op
    case Alu(o) => Ir.AluResult(o, a, b)
    case AluW(o) => Ir.AluWResult(o, a, b)
    case Slt(s) => Ir.SltResult(s, a, b)
    case MulOp(m) => Ir.MulResult(m, a, b)
    case DivRem(s, w, r) => Ir.DivResult(s, w, r, a, b)
  }

  function UnaryResult(op: Ir.Op, a: u64, b: u64): u64
    requires IsUnary(op)
  {
    match op
    case AluImm(o) => Ir.AluResult(o, a, b)
    case AluWImm(o) => Ir.AluWResult(o, a, b)
    case SltImm(s) => Ir.SltResult(s, a, b)
  }

  lemma BinaryCoreOk(e: Env, op: Ir.Op, h: Host)
    requires |h.cpu.x| == 32 && IsBinary(op)
    ensures Computes(e, BinaryCore(op), h, BinaryResult(op, h.r.rax, h.r.rcx))
  {
    hide Computes, AluCore, AluWCore, SltCore, MulCore, DivCore;
    match op
    case Alu(o) => AluCoreOk(e, o, h);
    case AluW(o) => AluWCoreOk(e, o, h);
    case Slt(s) => SltCoreOk(e, s, h);
    case MulOp(m) => MulCoreOk(e, m, h);
    case DivRem(s, w, r) => DivCoreOk(e, s, w, r, h);
  }

  lemma UnaryCoreOk(e: Env, ins: Ir.Instr, h: Host)
    requires |h.cpu.x| == 32 && IsUnary(ins.op) && Ir.InstrOk(ins)
    ensures Computes(e, UnaryCore(ins.op, ins.imm), h, UnaryResult(ins.op, h.r.rax, W64(ins.imm)))
  {
    hide Computes, AluImmCore, AluWImmCore, SltImmCore;
    match ins.op
    case AluImm(o) => AluImmCoreOk(e, o, ins.imm, h);
    case AluWImm(o) => AluWImmCoreOk(e, o, ins.imm, h);
    case SltImm(s) => SltImmCoreOk(e, s, ins.imm, h);
  }

  lemma BinaryStep(sp: Ir.Space, ins: Ir.Instr, g: Ir.Guest)
    requires Ir.InstrOk(ins) && |g.x| == 32 && |g.stack| == sp.stackSize && |g.data| == sp.dataSize
    requires ins.rd != 0
    ensures IsBinary(ins.op) ==>
            Ir.Step(sp, ins, g) == Ir.Next(Ir.SetRd(g, ins.rd, BinaryResult(ins.op, g.x[ins.rs1], g.x[ins.rs2])))
    ensures IsUnary(ins.op) ==>
            Ir.Step(sp, ins, g) == Ir.Next(Ir.SetRd(g, ins.rd, UnaryResult(ins.op, g.x[ins.rs1], W64(ins.imm))))
  {
    hide Ir.AluResult, Ir.AluWResult, Ir.SltResult, Ir.MulResult, Ir.DivResult, Ir.SetRd, Ir.LoadEffect, Ir.StoreEffect;
  }

  lemma BinaryOk(e: Env, ins: Ir.Instr, k: nat, h: Host)
    requires Ready(e, h) && Ir.InstrOk(ins) && IsBinary(ins.op) && ins.rd != 0
    ensures Matches(h, Run(e, Body(e, ins, k), 0, h), Ir.Step(e.sp, ins, GuestOf(h)), k)
  {
    hide Run, Exec, Ready, Ir.Step, BinaryCore, BinaryResult;
    ReadyBounds(e, h);
    var core := BinaryCore(ins.op);
    var code := Body(e, ins, k);
    assert code == LoadOperands(ins.rs1, ins.rs2) + core + [StoreReg(ins.rd, RAX)];
    var h1 := LoadOperandsOk(e, code, ins.rs1, ins.rs2, h);
    BinaryCoreOk(e, ins.op, h1);
    assert code[2..2 + |core|] == core;
    Embed(e, code, 2, core, 0, h1);
    var h2 := Run(e, core, 0, h1).h;
    ReadyKept(e, h1, h2);
    FinishRd(e, code, ins.rd, h, h2);
    ReadyShape(e, h);
    BinaryStep(e.sp, ins, GuestOf(h));
  }

  lemma ReadyShape(e: Env, h: Host)
    requires Ready(e, h)
    ensures |h.stack| == e.sp.stackSize && |h.data| == e.sp.dataSize
  {
  }

  lemma UnaryOk(e: Env, ins: Ir.Instr, k: nat, h: Host)
    requires Ready(e, h) && Ir.InstrOk(ins) && IsUnary(ins.op) && ins.rd != 0
    ensures Matches(h, Run(e, Body(e, ins, k), 0, h), Ir.Step(e.sp, ins, GuestOf(h)), k)
  {
    hide Run, Exec, Ready, Ir.Step, UnaryCore, UnaryResult;
    ReadyBounds(e, h);
    var core := UnaryCore(ins.op, ins.imm);
    var code := Body(e, ins, k);
    assert code == [LoadReg(RAX, ins.rs1)] + core + [StoreReg(ins.rd, RAX)];
    var h1 := LoadOneOk(e, code, 0, RAX, ins.rs1, h);
    UnaryCoreOk(e, ins, h1);
    assert code[1..1 + |core|] == core;
    Embed(e, code, 1, core, 0, h1);
    var h2 := Run(e, core, 0, h1).h;
    ReadyKept(e, h1, h2);
    FinishRd(e, code, ins.rd, h, h2);
    ReadyShape(e, h);
    BinaryStep(e.sp, ins, GuestOf(h));
  }

  lemma MoveOk(e: Env, ins: Ir.Instr, k: nat, h: Host)
    requires Ready(e, h) && Ir.InstrOk(ins) && (ins.op.Mov? || ins.op.Li?) && ins.rd != 0
    ensures Matches(h, Run(e, Body(e, ins, k), 0, h), Ir.Step(e.sp, ins, GuestOf(h)), k)
  {
    hide Run, Exec, Ready;
    ReadyBounds(e, h);
    ReadyShape(e, h);
    var code := Body(e, ins, k);
    var h1;
    if ins.op.Mov? {
      h1 := LoadOneOk(e, code, 0, RAX, ins.rs2, h);
    } else {
      h1 := Put(h, RAX, W64(ins.imm));
      MovImmExec(e, RAX, W64(ins.imm), h);
      RunOp(e, code, 0, h, h1);
      ReadyKept(e, h, h1);
    }
    FinishRd(e, code, ins.rd, h, h1);
  }

  /** From the address register to the access: past the checks with the host address, or out
      through the fault jump. */
  lemma Reach(e: Env, code: seq<Item>, at: nat, imm: i32, store: bool, n: int, k: nat, h: Host) returns (h': Host)
    requires Ready(e, h) && 0 < n <= 8
    requires var piece := AddOffset(imm) + Checks(e, store, n, k);
             at + |piece| <= |code| && code[at..at + |piece|] == piece
    ensures Ready(e, h') && ScratchOnly(h, h') && h'.r.rax == h.r.rax
    ensures var p, end := Ir.Find(e.sp, W64(h.r.rcx + imm), n, store), at + |AddOffset(imm)| + |Checks(e, store, n, k)|;
            if p.Nowhere? then Run(e, code, at, h) == Out(end - 1, Stub(FaultOf(store), k), h')
            else Run(e, code, at, h) == Run(e, code, end, h') && h'.r.rcx == HostAt(e, p)
  {
    hide Run, Exec, Ready, Checks, Ir.Find, AddOffset;
    ReadyBounds(e, h);
    var off, checks := AddOffset(imm), Checks(e, store, n, k);
    var piece := off + checks;
    assert piece[..|off|] == off && piece[|off|..] == checks;
    var h1 := AddOffsetOk(e, piece, imm, h);
    ReadyKept(e, h, h1);
    h' := ChecksOk(e, store, n, k, h1);
    ReadyKept(e, h1, h');
    Embed(e, piece, |off|, checks, 0, h1);
    if !Ir.Find(e.sp, h1.r.rcx, n, store).Nowhere? { RunEnd(e, piece, h'); }
    Embed(e, code, at, piece, 0, h);
  }

  lemma LoadOk(e: Env, ins: Ir.Instr, k: nat, h: Host)
    requires Ready(e, h) && Ir.InstrOk(ins) && ins.op.Load? && ins.rd != 0
    ensures Matches(h, Run(e, Body(e, ins, k), 0, h), Ir.Step(e.sp, ins, GuestOf(h)), k)
  {
    hide Run, Exec, Ready, Checks, AddOffset, Ir.Find, Ir.LoadEffect;
    ReadyBounds(e, h);
    ReadyShape(e, h);
    var kind, n := ins.op.load, Ir.LoadBytes(ins.op.load);
    var code := Body(e, ins, k);
    var piece := AddOffset(ins.imm) + Checks(e, false, n, k);
    var end := 1 + |piece|;
    assert code == [LoadReg(RCX, ins.rs1)] + (piece + [Op(LoadM(kind, RAX, RCX, 0))]) + [StoreReg(ins.rd, RAX)];
    assert code[1..end] == piece && code[end] == Op(LoadM(kind, RAX, RCX, 0));
    var h1 := LoadOneOk(e, code, 0, RCX, ins.rs1, h);
    var h2 := Reach(e, code, 1, ins.imm, false, n, k, h1);
    var a := W64(h.cpu.x[ins.rs1] + ins.imm);
    if Ir.Find(e.sp, a, n, false).Nowhere? {
      LoadMiss(e.sp, kind, a, ins.rd, GuestOf(h));
    } else {
      AccessLoadExec(e, kind, a, h2);
      var h3 := Exec(e, LoadM(kind, RAX, RCX, 0), h2).h;
      RunOp(e, code, end, h2, h3);
      ReadyKept(e, h2, h3);
      FinishRd(e, code, ins.rd, h, h3);
      assert GuestOf(h2) == GuestOf(h);
    }
  }

  lemma LoadMiss(sp: Ir.Space, k: Ir.LoadKind, a: u64, rd: nat, g: Ir.Guest)
    requires |g.x| == 32 && |g.stack| == sp.stackSize && |g.data| == sp.dataSize
    requires Ir.Find(sp, a, Ir.LoadBytes(k), false).Nowhere?
    ensures Ir.LoadEffect(sp, k, a, rd, g) == Ir.Faulted(Ir.Read)
  {
  }

  lemma StoreMiss(sp: Ir.Space, k: Ir.StoreKind, a: u64, v: u64, g: Ir.Guest)
    requires |g.x| == 32 && |g.stack| == sp.stackSize && |g.data| == sp.dataSize
    requires Ir.Find(sp, a, Ir.StoreBytes(k), true).Nowhere?
    ensures Ir.StoreEffect(sp, k, a, v, g) == Ir.Faulted(Ir.Write)
  {
  }

  lemma StoreOk(e: Env, ins: Ir.Instr, k: nat, h: Host)
    requires Ready(e, h) && Ir.InstrOk(ins) && ins.op.Store?
    ensures Matches(h, Run(e, Body(e, ins, k), 0, h), Ir.Step(e.sp, ins, GuestOf(h)), k)
  {
    hide Run, Exec, Ready, Checks, AddOffset, Ir.Find, Ir.StoreEffect;
    ReadyBounds(e, h);
    ReadyShape(e, h);
    var kind, n := ins.op.store, Ir.StoreBytes(ins.op.store);
    var code := Body(e, ins, k);
    var piece := AddOffset(ins.imm) + Checks(e, true, n, k);
    var end := 2 + |piece|;
    assert code == [LoadReg(RCX, ins.rs1), LoadReg(RAX, ins.rs2)] + (piece + [Op(StoreM(kind, RCX, 0, RAX))]);
    assert code[2..end] == piece && code[end] == Op(StoreM(kind, RCX, 0, RAX));
    var h0 := LoadOneOk(e, code, 0, RCX, ins.rs1, h);
    var h1 := LoadOneOk(e, code, 1, RAX, ins.rs2, h0);
    var h2 := Reach(e, code, 2, ins.imm, true, n, k, h1);
    var a := W64(h.cpu.x[ins.rs1] + ins.imm);
    if Ir.Find(e.sp, a, n, true).Nowhere? {
      StoreMiss(e.sp, kind, a, h.cpu.x[ins.rs2], GuestOf(h));
    } else {
      AccessStoreExec(e, kind, a, h2);
      var h3 := Exec(e, StoreM(kind, RCX, 0, RAX), h2).h;
      RunOp(e, code, end, h2, h3);
      RunEnd(e, code, h3);
      assert GuestOf(h2) == GuestOf(h);
    }
  }

  // ---------------------------------------------------------------- control transfer

  lemma RunJccOut(e: Env, code: seq<Item>, k: nat, h: Host)
    requires k < |code| && code[k].JccTo? && !code[k].to.Local? && |h.cpu.x| == 32 && h.f.Flags?
    ensures Run(e, code, k, h) == if Holds(code[k].cond, h.f) then Out(k, code[k].to, h) else Run(e, code, k + 1, h)
  {
    hide Exec, Holds;
  }

  lemma TestRaxExec(e: Env, h: Host)
    requires |h.cpu.x| == 32
    ensures Exec(e, Rr(TEST, true, RAX, RAX), h) == Fall(h.(f := TestFlags(true, h.r.rax, h.r.rax)))
  {
    hide TestFlags, Bits64, Bits32, ShiftValue, Grp3Value, ReadHost, WriteHost;
  }

  lemma BranchTaken(c: Ir.BranchCond, a: u64, b: u64)
    ensures CmpFlags(true, a, b).Flags? && (Holds(BranchCode(c), CmpFlags(true, a, b)) <==> Ir.Taken(c, a, b))
  {
    hide CmpFlags, Holds;
    CmpFlagsKnown(true, a, b);
    CmpDecides(a, b, BranchCode(c));
  }

  lemma BranchOk(e: Env, ins: Ir.Instr, k: nat, h: Host)
    requires Ready(e, h) && Ir.InstrOk(ins) && (ins.op.Branch? || ins.op.Beqz? || ins.op.Jmp?)
    ensures Matches(h, Run(e, Body(e, ins, k), 0, h), Ir.Step(e.sp, ins, GuestOf(h)), k)
  {
    hide Run, Exec, Ready, CmpFlags, TestFlags, Holds;
    ReadyBounds(e, h);
    ReadyShape(e, h);
    var code := Body(e, ins, k);
    if ins.op.Jmp? {
      RunOut(e, code, 0, h);
    } else if ins.op.Beqz? {
      var h1 := LoadOneOk(e, code, 0, RAX, ins.rs1, h);
      var h2 := h1.(f := TestFlags(true, h1.r.rax, h1.r.rax));
      TestRaxExec(e, h1);
      TestDecides(true, h1.r.rax);
      RunOp(e, code, 1, h1, h2);
      RunJccOut(e, code, 2, h2);
      RunEnd(e, code, h2);
    } else {
      var h1 := LoadOperandsOk(e, code, ins.rs1, ins.rs2, h);
      var h2 := h1.(f := CmpFlags(true, h1.r.rax, h1.r.rcx));
      CmpExec(e, h1);
      BranchTaken(ins.op.cond, h1.r.rax, h1.r.rcx);
      RunOp(e, code, 2, h1, h2);
      RunJccOut(e, code, 3, h2);
      RunEnd(e, code, h2);
    }
  }

  lemma StorePcExec(e: Env, h: Host)
    requires Ready(e, h)
    ensures Exec(e, StorePc(RAX).ins, h) == Fall(h.(cpu := h.cpu.(pc := h.r.rax)))
  {
    hide Exec, EnvOk;
    StoreCpuExec(e, OFF_PC, RAX, h);
  }

  lemma JmpRegOk(e: Env, ins: Ir.Instr, k: nat, h: Host)
    requires Ready(e, h) && Ir.InstrOk(ins) && ins.op.JmpReg?
    ensures Matches(h, Run(e, Body(e, ins, k), 0, h), Ir.Step(e.sp, ins, GuestOf(h)), k)
  {
    hide Run, Exec, Ready;
    ReadyBounds(e, h);
    ReadyShape(e, h);
    var code := Body(e, ins, k);
    var h1 := LoadOneOk(e, code, 0, RAX, ins.rs1, h);
    StorePcExec(e, h1);
    var h2 := h1.(cpu := h1.cpu.(pc := h1.r.rax));
    RunOp(e, code, 1, h1, h2);
    RunOut(e, code, 2, h2);
  }

  lemma AndMinusTwoExec(e: Env, h: Host)
    requires |h.cpu.x| == 32
    ensures Exec(e, RImm(ANDI, true, RAX, -2), h) == Fall(PutF(h, RAX, h.r.rax - h.r.rax % 2))
  {
    hide Bits, ShiftValue, Grp3Value, ReadHost, WriteHost;
    AndClearLowBit(h.r.rax);
  }

  lemma JalrOk(e: Env, ins: Ir.Instr, k: nat, h: Host)
    requires Ready(e, h) && Ir.InstrOk(ins) && ins.op.Jalr? && h.cpu.x[0] == 0
    ensures Matches(h, Run(e, Body(e, ins, k), 0, h), Ir.Step(e.sp, ins, GuestOf(h)), k)
  {
    hide Run, Exec, Ready;
    ReadyBounds(e, h);
    ReadyShape(e, h);
    var code := Body(e, ins, k);
    var t := W64(h.cpu.x[ins.rs1] + ins.imm);
    var h1 := LoadOneOk(e, code, 0, RAX, ins.rs1, h);
    var h2 := PutF(h1, RAX, t);
    AddImmExec(e, RAX, ins.imm, h1); RunOp(e, code, 1, h1, h2);
    ReadyKept(e, h1, h2);
    var h3 := PutF(h2, RAX, t - t % 2);
    AndMinusTwoExec(e, h2); RunOp(e, code, 2, h2, h3);
    ReadyKept(e, h2, h3);
    var at, h5 := 3, h3;
    if ins.rd != 0 {
      h5 := LinkOk(e, code, ins, h3);
      at := 5;
    }
    StorePcExec(e, h5);
    var h6 := h5.(cpu := h5.cpu.(pc := h5.r.rax));
    RunOp(e, code, at, h5, h6);
    RunOut(e, code, at + 1, h6);
  }

  /** JALR's link register is written before the jump leaves. */
  lemma LinkOk(e: Env, code: seq<Item>, ins: Ir.Instr, h: Host) returns (h': Host)
    requires Ready(e, h) && Ir.InstrOk(ins) && ins.op.Jalr? && ins.rd != 0 && 5 <= |code|
    requires code[3] == Op(MovImm(RCX, W64(ins.pc + 4))) && code[4] == StoreReg(ins.rd, RCX)
    ensures Ready(e, h') && h'.r.rax == h.r.rax && SameReserved(h.r, h'.r)
    ensures h' == h.(r := h'.r, cpu := h.cpu.(x := h.cpu.x[ins.rd := W64(ins.pc + 4)]))
    ensures Run(e, code, 3, h) == Run(e, code, 5, h')
  {
    hide Run, Exec, EnvOk;
    var h1 := Put(h, RCX, W64(ins.pc + 4));
    MovImmExec(e, RCX, W64(ins.pc + 4), h); RunOp(e, code, 3, h, h1);
    ReadyKept(e, h, h1);
    h' := h1.(cpu := h1.cpu.(x := h1.cpu.x[ins.rd := h1.r.rcx]));
    StoreRegExec(e, ins.rd, RCX, h1); RunOp(e, code, 4, h1, h');
  }

  // ---------------------------------------------------------------- ecall, traps and fuel

  lemma CallExec(e: Env, h: Host)
    requires |h.cpu.x| == 32
    ensures Exec(e, Push(RAX), h) == Fall(h.(native := h.native + [h.r.rax]))
    ensures h.r.rax == e.ecallAt && h.r.rdi == e.jitAt ==> Exec(e, CallR(RAX), h) == CallEcall(e, h)
    ensures |h.native| > 0 ==>
            Exec(e, Pop(RAX), h) ==
            Fall(Put(h, RAX, h.native[|h.native| - 1]).(native := h.native[..|h.native| - 1]))
  {
    hide Bits64, Bits32, ShiftValue, Grp3Value, ReadHost, WriteHost, CallEcall;
  }

  /** Up to the call: RAX is saved, and the handler's arguments are in place. */
  lemma EcallPrepares(e: Env, code: seq<Item>, h: Host) returns (h3: Host)
    requires |h.cpu.x| == 32 && code == EcallBody(e)
    ensures h3 == Put(Put(h.(native := h.native + [h.r.rax]), RDI, e.jitAt), RAX, e.ecallAt)
    ensures Run(e, code, 0, h) == Run(e, code, 3, h3)
  {
    hide Run, Exec, Put;
    var h1 := h.(native := h.native + [h.r.rax]);
    CallExec(e, h); RunOp(e, code, 0, h, h1);
    PutKeeps(h1, RDI, e.jitAt);
    var h2 := Put(h1, RDI, e.jitAt);
    MovImmExec(e, RDI, e.jitAt, h1); RunOp(e, code, 1, h1, h2);
    h3 := Put(h2, RAX, e.ecallAt);
    MovImmExec(e, RAX, e.ecallAt, h2); RunOp(e, code, 2, h2, h3);
  }

  lemma PutKeeps(h: Host, r: Reg, v: u64)
    ensures Put(h, r, v).cpu == h.cpu
  {
  }

  lemma EcallOk(e: Env, ins: Ir.Instr, k: nat, h: Host)
    requires Ready(e, h) && Ir.InstrOk(ins) && ins.op.Ecall?
    ensures Matches(h, Run(e, Body(e, ins, k), 0, h), Ir.Step(e.sp, ins, GuestOf(h)), k)
  {
    hide Run, Exec, Ready;
    ReadyBounds(e, h);
    ReadyShape(e, h);
    var code := EcallBody(e);
    assert Body(e, ins, k) == code;
    var h3 := EcallPrepares(e, code, h);
    var h4 := CallEcall(e, h3).h;
    CallExec(e, h3); RunOp(e, code, 3, h3, h4);
    assert h4.native == h.native + [h.r.rax];
    assert h4.native[..|h.native|] == h.native;
    var h5 := Put(h4, RAX, h.r.rax).(native := h.native);
    CallExec(e, h4); RunOp(e, code, 4, h4, h5);
    RunEnd(e, code, h5);
    assert GuestOf(h3) == GuestOf(h);
  }

  lemma TrapOk(e: Env, ins: Ir.Instr, k: nat, h: Host)
    requires Ready(e, h) && Ir.InstrOk(ins) && (ins.op.Ebreak? || ins.op.Ud2?)
    ensures Matches(h, Run(e, Body(e, ins, k), 0, h), Ir.Step(e.sp, ins, GuestOf(h)), k)
  {
    hide Bits64, Bits32, ShiftValue, Grp3Value, ReadHost, WriteHost, CallEcall, Ready;
    ReadyBounds(e, h);
    ReadyShape(e, h);
  }

  lemma NopOk(e: Env, ins: Ir.Instr, k: nat, h: Host)
    requires Ready(e, h) && Ir.InstrOk(ins) && ins.op.Nop?
    ensures Matches(h, Run(e, Body(e, ins, k), 0, h), Ir.Step(e.sp, ins, GuestOf(h)), k)
  {
    hide Exec, Ready;
    ReadyBounds(e, h);
    ReadyShape(e, h);
  }

  /** Every operation but the fuel check: the body matches the IR meaning. */
  lemma BodyOk(e: Env, ins: Ir.Instr, k: nat, h: Host)
    requires Ready(e, h) && Ir.InstrOk(ins) && !ins.op.FuelCheck? && !Ir.Discarded(ins) && h.cpu.x[0] == 0
    ensures Matches(h, Run(e, Body(e, ins, k), 0, h), Ir.Step(e.sp, ins, GuestOf(h)), k)
  {
    hide Run, Ready, Ir.Step, Matches, Body;
    if IsBinary(ins.op) { BinaryOk(e, ins, k, h); }
    else if IsUnary(ins.op) { UnaryOk(e, ins, k, h); }
    else {
      match ins.op
      case Nop => NopOk(e, ins, k, h);
      case Mov => MoveOk(e, ins, k, h);
      case Li => MoveOk(e, ins, k, h);
      case Load(_) => LoadOk(e, ins, k, h);
      case Store(_) => StoreOk(e, ins, k, h);
      case JmpReg => JmpRegOk(e, ins, k, h);
      case Jalr => JalrOk(e, ins, k, h);
      case Ecall => EcallOk(e, ins, k, h);
      case Ebreak => TrapOk(e, ins, k, h);
      case Ud2 => TrapOk(e, ins, k, h);
      case _ => BranchOk(e, ins, k, h);
    }
  }

  /** The zeroing of x0 in front of every operation changes nothing. */
  lemma ZeroX0Ok(e: Env, code: seq<Item>, h: Host) returns (h': Host)
    requires Ready(e, h) && h.cpu.x[0] == 0 && 2 <= |code| && code[0] == ZeroX0()[0] && code[1] == ZeroX0()[1]
    ensures Ready(e, h') && ScratchOnly(h, h') && Run(e, code, 0, h) == Run(e, code, 2, h')
  {
    hide Run, Exec, Ready;
    ReadyBounds(e, h);
    var h1 := Put(h, RAX, 0);
    MovImmExec(e, RAX, 0, h); RunOp(e, code, 0, h, h1);
    ReadyKept(e, h, h1);
    StoreRegExec(e, 0, RAX, h1);
    h' := h1;
    assert h1.cpu.x[0 := 0] == h1.cpu.x;
    RunOp(e, code, 1, h1, h');
  }

  /** The code emitted for one IR operation, from its first instruction, does what the
      operation means. */
  lemma LowerOk(e: Env, ins: Ir.Instr, k: nat, h: Host)
    requires Ready(e, h) && Ir.InstrOk(ins) && !ins.op.FuelCheck? && h.cpu.x[0] == 0
    ensures Matches(h, Run(e, Lower(e, ins, k), 0, h), Ir.Step(e.sp, ins, GuestOf(h)), k)
  {
    hide Run, Exec, Ready, Body;
    ReadyBounds(e, h);
    ReadyShape(e, h);
    var code := Lower(e, ins, k);
    var h1 := ZeroX0Ok(e, code, h);
    if Ir.Discarded(ins) {
      RunEnd(e, code, h1);
    } else {
      hide Ir.Step;
      var body := Body(e, ins, k);
      assert code[2..2 + |body|] == body;
      BodyOk(e, ins, k, h1);
      Embed(e, code, 2, body, 0, h1);
      var r := Run(e, body, 0, h1);
      if r.Done? { RunEnd(e, code, r.h); }
    }
  }

  /** The fuel check takes one unit; at zero or below it leaves through its timeout stub. */
  lemma FuelOk(e: Env, ins: Ir.Instr, k: nat, h: Host)
    requires Ready(e, h) && Ir.InstrOk(ins) && ins.op.FuelCheck? && h.cpu.x[0] == 0
    ensures var r := Run(e, Lower(e, ins, k), 0, h); var fuel := W64(h.cpu.fuel - 1);
            (if S64(fuel) <= 0 then r.Out? && r.to == Stub(Ir.Timeout, k) else r.Done?) &&
            ScratchOnly(h.(cpu := h.cpu.(fuel := fuel)), r.h)
  {
    hide Run, Exec, Ready, TestFlags, Holds;
    ReadyBounds(e, h);
    var code := Lower(e, ins, k);
    assert code == ZeroX0() + FuelCheck(k);
    var h1 := ZeroX0Ok(e, code, h);
    var fuel := W64(h.cpu.fuel - 1);
    var h2 := Put(h1, RAX, h.cpu.fuel);
    LoadCpuExec(e, RAX, OFF_FUEL, h1); RunOp(e, code, 2, h1, h2);
    ReadyKept(e, h1, h2);
    var h3 := PutF(h2, RAX, fuel);
    AddImmExec(e, RAX, -1, h2); RunOp(e, code, 3, h2, h3);
    ReadyKept(e, h2, h3);
    var h4 := h3.(cpu := h3.cpu.(fuel := fuel));
    StoreCpuExec(e, OFF_FUEL, RAX, h3); RunOp(e, code, 4, h3, h4);
    var h5 := h4.(f := TestFlags(true, fuel, fuel));
    TestRaxExec(e, h4); TestDecides(true, fuel); RunOp(e, code, 5, h4, h5);
    RunJccOut(e, code, 6, h5);
    RunEnd(e, code, h5);
  }
}
