/** riscv_jit_call: entering the generated code again after every indirect jump. */
module Dispatcher {
  import opened Words
  import opened X86
  import opened LoweringOps
  import Lowering
  import Snippet
  import X86Encoding
  import opened Assembler
  import opened Reference
  import opened Program
  import opened Execution
  import opened LoweringShape
  import opened Simulation
  import opened CodeGen
  import Emitter
  import Ir

  const INITIAL_FUEL: u64 := 10_000_000
  const ARGUMENT_REGISTERS := 8

  /** How a call ends. */
  datatype Outcome =
    | Returned(value: u64)
    | Faulted(kind: Ir.FaultKind)
    | Debugged
    | BadPc
    | Killed

  /** A finished call: the outcome, and unless the process died, the guest and cpu.pc. */
  datatype Final = Final(outcome: Outcome, g: Ir.Guest, pc: u64)

  const NO_GUEST := Ir.Guest([], [], [])

  // ---------------------------------------------------------------- the reference

  /** Whatever is armed, fuel only goes down, and a stay that starts with a fuel check spends some
      unless it stops right there. */
  lemma {:induction false} FuelSpent(sp: Ir.Space, irs: seq<Ir.Instr>, armed: set<u64>, i: nat, at: u64, g: Ir.Guest, fuel: u64)
    requires StreamOk(sp, irs) && DirectTargetsOk(sp, irs) && i <= |irs| && GuestFits(sp, g)
    ensures var r := RunIr(sp, irs, armed, i, at, g, fuel);
            r.Left? || r.Break? || (r.Fault? && fuel > 0) ==>
              r.fuel <= fuel && (i < |irs| && irs[i].op.FuelCheck? && irs[i].pc !in armed ==> r.fuel < fuel)
    decreases fuel, Rank(irs, i)
  {
    hide StreamOk, DirectTargetsOk, Ir.Step, FirstAt;
    if i == |irs| {
    } else if irs[i].op.FuelCheck? {
      var rest := W64(fuel - 1);
      if S64(rest) > 0 { FuelSpent(sp, irs, armed, i + 1, at, g, rest); }
    } else {
      StreamInstrOk(sp, irs, i);
      StepKeepsShape(sp, irs[i], g);
      var s := Ir.Step(sp, irs[i], g);
      if s.Next? {
        FuelSpent(sp, irs, armed, i + 1, at, s.g, fuel);
      } else if s.Direct? && InText(sp, s.pc) {
        DirectTarget(sp, irs, i, g);
        FuelSpent(sp, irs, armed, FirstAt(irs, s.pc, 0), at, s.g, fuel);
      }
    }
  }

  /** How many instructions a stay runs: the fuel checks it passes. */
  function InStay(sp: Ir.Space, irs: seq<Ir.Instr>, i: nat, g: Ir.Guest, fuel: u64): nat
    requires StreamOk(sp, irs) && DirectTargetsOk(sp, irs) && i <= |irs| && GuestFits(sp, g)
    decreases fuel, Rank(irs, i)
  {
    if i == |irs| then 0
    else if irs[i].op.FuelCheck? then
      var rest := W64(fuel - 1);
      if S64(rest) <= 0 then 0 else 1 + InStay(sp, irs, i + 1, g, rest)
    else
      StepKeepsShape(sp, irs[i], g);
      match Ir.Step(sp, irs[i], g)
      case Next(g') => InStay(sp, irs, i + 1, g', fuel)
      case Direct(g', pc) =>
        if InText(sp, pc) then
          DirectTarget(sp, irs, i, g);
          InStay(sp, irs, FirstAt(irs, pc, 0), g', fuel)
        else 0
      case _ => 0
  }

  /** Running from a translated address: stay in the code, then look at cpu.pc. */
  function Dispatch(sp: Ir.Space, irs: seq<Ir.Instr>, pc: u64, g: Ir.Guest, fuel: u64): (r: Final)
    requires StreamOk(sp, irs) && DirectTargetsOk(sp, irs) && Translated(irs, pc) && GuestFits(sp, g)
    decreases fuel
  {
    var i := FirstAt(irs, pc, 0);
    FirstIsGroup(sp, irs, pc);
    FuelSpent(sp, irs, {}, i, pc, g, fuel);
    match RunIr(sp, irs, {}, i, pc, g, fuel)
    case Trap(at) => Final(Killed, NO_GUEST, at)
    case Fault(kind, g', at, _) => Final(Faulted(kind), g', at)
    case Break(g', at, _) => Final(Debugged, g', at)
    case Left(g', next, rest) =>
      if next == 0 then Final(Returned(g'.x[10]), g', next)
      else if InText(sp, next) && Translated(irs, next) then Dispatch(sp, irs, next, g', rest)
      else Final(BadPc, g', next)
  }

  /** How many instructions a call runs. */
  function InCall(sp: Ir.Space, irs: seq<Ir.Instr>, pc: u64, g: Ir.Guest, fuel: u64): nat
    requires StreamOk(sp, irs) && DirectTargetsOk(sp, irs) && Translated(irs, pc) && GuestFits(sp, g)
    decreases fuel
  {
    var i := FirstAt(irs, pc, 0);
    FirstIsGroup(sp, irs, pc);
    FuelSpent(sp, irs, {}, i, pc, g, fuel);
    var x := RunIr(sp, irs, {}, i, pc, g, fuel);
    InStay(sp, irs, i, g, fuel) +
    if x.Left? && x.pc != 0 && InText(sp, x.pc) && Translated(irs, x.pc) then InCall(sp, irs, x.pc, x.g, x.fuel) else 0
  }

  /** A stay is charged one unit for each instruction, and one for an instruction it has no fuel for. */
  lemma {:induction false} StayCharged(sp: Ir.Space, irs: seq<Ir.Instr>, i: nat, at: u64, g: Ir.Guest, fuel: u64)
    requires StreamOk(sp, irs) && DirectTargetsOk(sp, irs) && i <= |irs| && GuestFits(sp, g) && 1 <= fuel < TWO63
    ensures var x, n := RunIr(sp, irs, {}, i, at, g, fuel), InStay(sp, irs, i, g, fuel);
            && n < fuel
            && (x.Left? ==> x.fuel == fuel - n)
            && (x.Fault? && x.kind.Timeout? ==> n == fuel - 1)
    decreases fuel, Rank(irs, i)
  {
    hide StreamOk, DirectTargetsOk, Ir.Step, FirstAt;
    if i == |irs| {
    } else if irs[i].op.FuelCheck? {
      if fuel > 1 { StayCharged(sp, irs, i + 1, at, g, fuel - 1); }
    } else {
      StreamInstrOk(sp, irs, i);
      StepKeepsShape(sp, irs[i], g);
      NoTimeout(sp, irs[i], g);
      var s := Ir.Step(sp, irs[i], g);
      if s.Next? {
        StayCharged(sp, irs, i + 1, at, s.g, fuel);
      } else if s.Direct? && InText(sp, s.pc) {
        DirectTarget(sp, irs, i, g);
        StayCharged(sp, irs, FirstAt(irs, s.pc, 0), at, s.g, fuel);
      }
    }
  }

  lemma NoTimeout(sp: Ir.Space, i: Ir.Instr, g: Ir.Guest)
    requires GuestFits(sp, g) && Ir.InstrOk(i)
    ensures Ir.Step(sp, i, g) != Ir.Effect.Faulted(Ir.Timeout)
  {
    hide Ir.AluResult, Ir.AluWResult, Ir.SltResult, Ir.MulResult, Ir.DivResult, Ir.Find, Ir.Extend, Ir.SetRd;
  }

  /** Whatever the program, from fuel F a call runs at most F - 1 instructions, and exactly F - 1 if it
      times out. */
  lemma {:induction false} CallCharged(sp: Ir.Space, irs: seq<Ir.Instr>, pc: u64, g: Ir.Guest, fuel: u64)
    requires StreamOk(sp, irs) && DirectTargetsOk(sp, irs) && Translated(irs, pc) && GuestFits(sp, g) && 1 <= fuel < TWO63
    ensures InCall(sp, irs, pc, g, fuel) < fuel
    ensures Dispatch(sp, irs, pc, g, fuel).outcome == Faulted(Ir.Timeout) ==> InCall(sp, irs, pc, g, fuel) == fuel - 1
    decreases fuel
  {
    hide StreamOk, DirectTargetsOk, RunIr, FirstAt, InStay;
    var i := FirstAt(irs, pc, 0);
    FirstIsGroup(sp, irs, pc);
    FuelSpent(sp, irs, {}, i, pc, g, fuel);
    StayCharged(sp, irs, i, pc, g, fuel);
    var x := RunIr(sp, irs, {}, i, pc, g, fuel);
    if x.Left? && x.pc != 0 && InText(sp, x.pc) && Translated(irs, x.pc) { CallCharged(sp, irs, x.pc, x.g, x.fuel); }
  }

  /** One round of the dispatcher. */
  lemma DispatchStep(sp: Ir.Space, irs: seq<Ir.Instr>, pc: u64, g: Ir.Guest, fuel: u64)
    requires StreamOk(sp, irs) && DirectTargetsOk(sp, irs) && Translated(irs, pc) && GuestFits(sp, g)
    ensures var x, f := RunIr(sp, irs, {}, FirstAt(irs, pc, 0), pc, g, fuel), Dispatch(sp, irs, pc, g, fuel);
            && (x.Trap? ==> f == Final(Killed, NO_GUEST, x.pc))
            && (x.Fault? ==> f == Final(Faulted(x.kind), x.g, x.pc)) && !x.Break?
            && (x.Left? ==> x.fuel < fuel && GuestFits(sp, x.g))
            && (x.Left? && x.pc == 0 ==> f == Final(Returned(x.g.x[10]), x.g, 0))
            && (x.Left? && x.pc != 0 && !(InText(sp, x.pc) && Translated(irs, x.pc)) ==> f == Final(BadPc, x.g, x.pc))
            && (x.Left? && x.pc != 0 && InText(sp, x.pc) && Translated(irs, x.pc) ==> f == Dispatch(sp, irs, x.pc, x.g, x.fuel))
  {
    hide StreamOk, DirectTargetsOk, RunIr, FirstAt;
    FirstIsGroup(sp, irs, pc);
    FuelSpent(sp, irs, {}, FirstAt(irs, pc, 0), pc, g, fuel);
  }

  lemma FirstIsGroup(sp: Ir.Space, irs: seq<Ir.Instr>, pc: u64)
    requires StreamOk(sp, irs) && Translated(irs, pc)
    ensures irs[FirstAt(irs, pc, 0)].op.FuelCheck?
  {
    assert GroupStart(irs, FirstAt(irs, pc, 0));
  }

  /** The registers a call starts with. */
  function StartRegs(sp: Ir.Space, argv: seq<u64>): (x: seq<u64>)
    requires sp.stackSize < TWO64
    ensures |x| == 32 && x[0] == 0
  {
    var n := if |argv| > ARGUMENT_REGISTERS then ARGUMENT_REGISTERS else |argv|;
    seq(32, i => if i == 2 then sp.stackSize else if 10 <= i < 10 + n then argv[i - 10] else 0)
  }

  /** Register by register: the stack pointer is the size of the stack, up to eight arguments stand in
      x10 and up in their order, and everything else is zero, also the return address. */
  lemma StartsWith(sp: Ir.Space, argv: seq<u64>)
    requires sp.stackSize < TWO64
    ensures var x := StartRegs(sp, argv);
            && x[2] == sp.stackSize && x[1] == 0
            && (forall i | 0 <= i < |argv| && i < 8 :: x[10 + i] == argv[i])
            && forall r | 0 <= r < 32 && r != 2 && !(10 <= r < 18 && r - 10 < |argv|) :: x[r] == 0
  {
  }

  // ---------------------------------------------------------------- the machine

  /** The map the dispatcher uses: the code of every translated address, zero elsewhere. */
  ghost predicate MapOk(e: Env, irs: seq<Ir.Instr>, pcMap: seq<u32>)
    requires Compilable(e, irs)
  {
    |pcMap| == |e.sp.text| && MapUpTo(e, irs, |irs|, seq(|pcMap|, i => 0), pcMap)
  }

  /** Runs machine code from an offset until it returns; false if the process was killed. */
  method RunCode(e: Env, code: seq<u8>, offset: nat, h: Host, ghost n: nat) returns (alive: bool, h': Host)
    requires !Steps(e, code, n, At(offset, h)).At? && !Steps(e, code, n, At(offset, h)).Crashed?
    ensures var c := Steps(e, code, n, At(offset, h)); alive == c.Finished? && h' == if alive then c.h else h
  {
    hide Step;
    var c := At(offset, h);
    ghost var k := 0;
    while c.At?
      invariant k <= n && Steps(e, code, n - k, c) == Steps(e, code, n, At(offset, h))
      decreases n - k
    {
      c := Step(e, code, c);
      k := k + 1;
    }
    StepsDone(e, code, n - k, c);
    alive := c.Finished?;
    h' := if alive then c.h else h;
  }

  /** The cpu record is ready for generated code. */
  ghost predicate Entering(e: Env, h: Host)
  {
    |h.cpu.x| == 32 && h.cpu.x[0] == 0 && h.cpu.fault == 0 && h.cpu.stackMem == e.stackAt && h.cpu.stackSize == e.sp.stackSize
  }

  /** A call that faults does so at an instruction whose stub is there. */
  ghost predicate EndCovered(e: Env, irs: seq<Ir.Instr>, room: nat, f: Final)
    requires Compilable(e, irs)
  {
    f.outcome.Faulted? ==> forall i | 0 <= i < |irs| && irs[i].pc == f.pc && Records(irs[i], f.outcome.kind) ::
                             StubFits(e, irs, room, StubRank(irs, f.outcome.kind, Count(irs, f.outcome.kind, i)))
  }

  lemma StayCovered(e: Env, irs: seq<Ir.Instr>, room: nat, x: Exit, f: Final)
    requires Compilable(e, irs) && EndCovered(e, irs, room, f) && (x.Fault? ==> f == Final(Faulted(x.kind), x.g, x.pc))
    ensures Covered(e, irs, room, x)
  {
    hide StubFits, Records;
  }

  class Machine {
    const e: Env
    const code: seq<u8>
    const pcMap: seq<u32>
    const trampolineOffset: nat
    var h: Host

    ghost predicate Valid(irs: seq<Ir.Instr>)
      reads this
    {
      && Loaded(e, irs, code, {}) && MapOk(e, irs, pcMap) && e.codeAt + |code| < TWO64
      && trampolineOffset == 0 && HostOk(e, h)
    }

    /** The machine for code that was compiled, cut off or not, into a map that was zero. */
    constructor (jit: Emitter.Jit, h: Host, irs: seq<Ir.Instr>)
      requires jit.buf.size <= jit.buf.data.Length && Loaded(jit.e, irs, jit.buf.data[..jit.buf.size], {})
      requires Compilable(jit.e, irs) && MapOk(jit.e, irs, jit.pcMap[..]) && HostOk(jit.e, h)
      requires jit.trampolineOffset == 0 && jit.e.codeAt + jit.buf.size < TWO64
      ensures Valid(irs) && this.h == h && e == jit.e && code == jit.buf.data[..jit.buf.size] && pcMap == jit.pcMap[..]
    {
      hide Loaded, MapOk, Compilable, HostOk;
      e, this.h, trampolineOffset := jit.e, h, jit.trampolineOffset;
      code, pcMap := jit.buf.data[..jit.buf.size], jit.pcMap[..];
    }

    /** Zero exactly for addresses that are no translated instruction; else where its code is. */
    method CodeOffsetForPc(pc: u64, ghost irs: seq<Ir.Instr>) returns (offset: u32)
      requires Valid(irs) && Compilable(e, irs)
      ensures offset != 0 <==> InText(e.sp, pc) && Translated(irs, pc)
      ensures offset != 0 ==> offset == CodeAt(e, irs, FirstAt(irs, pc, 0)) <= |code|
    {
      hide Loaded, MapOk, CodeAt, Compilable, Translated, FirstAt;
      MapLooksUp(e, irs, code, pcMap, pc);
      if !(e.sp.textAddr <= pc < e.sp.textAddr + |e.sp.text|) {
        return 0;
      }
      return pcMap[pc - e.sp.textAddr];
    }

    /** One call of the trampoline, with the cpu record in RDI and the code address in RSI. */
    method Enter(offset: nat, ghost irs: seq<Ir.Instr>, ghost i: nat) returns (alive: bool)
      requires Valid(irs) && Entering(e, h) && i <= |irs| && offset == CodeAt(e, irs, i) && offset <= |code|
      requires GuestFits(e.sp, GuestOf(h)) && Covered(e, irs, |code|, Meaning(e, irs, {}, i, h))
      modifies this
      ensures Valid(irs)
      ensures Back(e, if alive then Finished(h) else Signalled, old(Meaning(e, irs, {}, i, h)), old(h), old(h.r), old(h.native))
    {
      hide Loaded, MapOk, Meaning, Back, Steps, CodeAt, Compilable;
      LoadedShape(e, irs, code, {}, h);
      PreparedCalls(e, irs, code, {}, h, Prepared(e, h, e.codeAt + offset));
      ghost var n, c := CallFrom(e, irs, code, {}, i, h, Prepared(e, h, e.codeAt + offset));
      h := Prepared(e, h, e.codeAt + offset);
      alive, h := RunCode(e, code, trampolineOffset, h, n);
    }

    /** riscv_jit_call without a debugger: the entry must be translated; arguments beyond the
        eighth are not passed. The run ends as the reference says, with the native stack and
        the callee-saved registers of the host as they were. */
    method Call(entry: u64, argv: seq<u64>, ghost irs: seq<Ir.Instr>) returns (r: Outcome)
      requires Valid(irs) && Compilable(e, irs)
      requires entry != 0 && InText(e.sp, entry) && Translated(irs, entry) ==>
                 EndCovered(e, irs, |code|, Dispatch(e.sp, irs, entry, Ir.Guest(StartRegs(e.sp, argv), h.stack, h.data), INITIAL_FUEL))
      modifies this
      ensures Valid(irs)
      ensures entry == 0 || !InText(e.sp, entry) || !Translated(irs, entry) ==> r == BadPc && h == old(h)
      ensures entry != 0 && InText(e.sp, entry) && Translated(irs, entry) ==>
                var f := Dispatch(e.sp, irs, entry, Ir.Guest(StartRegs(e.sp, argv), old(h.stack), old(h.data)), INITIAL_FUEL);
                && r == f.outcome
                && (!r.Killed? ==> GuestOf(h) == f.g && h.cpu.pc == f.pc && Restored(h, old(h.r), old(h.native)))
    {
      hide Loaded, MapOk, Steps, CodeAt, Compilable, StreamOk, DirectTargetsOk, Dispatch, Translated, RunIr;
      LoadedStream(e, irs, code, {});
      if entry == 0 || !(e.sp.textAddr <= entry < e.sp.textAddr + |e.sp.text|) {
        return BadPc;
      }
      var offset := CodeOffsetForPc(entry, irs);
      if offset == 0 {
        return BadPc;
      }
      h := h.(cpu := Cpu(StartRegs(e.sp, argv), entry, INITIAL_FUEL, 0, e.stackAt, e.sp.stackSize));
      r := Loop(offset, irs);
    }

    /** The dispatcher's loop: fuel is what makes it end. */
    method Loop(start: nat, ghost irs: seq<Ir.Instr>) returns (r: Outcome)
      requires Valid(irs) && Entering(e, h) && Translated(irs, h.cpu.pc) && GuestFits(e.sp, GuestOf(h))
      requires start == CodeAt(e, irs, FirstAt(irs, h.cpu.pc, 0)) <= |code|
      requires EndCovered(e, irs, |code|, Dispatch(e.sp, irs, h.cpu.pc, GuestOf(h), h.cpu.fuel))
      modifies this
      ensures Valid(irs)
      ensures var f := old(Dispatch(e.sp, irs, h.cpu.pc, GuestOf(h), h.cpu.fuel));
              && r == f.outcome
              && (!r.Killed? ==> GuestOf(h) == f.g && h.cpu.pc == f.pc && Restored(h, old(h.r), old(h.native)))
    {
      hide Loaded, MapOk, CodeAt, Compilable, StreamOk, DirectTargetsOk, Dispatch, Translated, RunIr, FirstAt;
      LoadedStream(e, irs, code, {});
      ghost var f := Dispatch(e.sp, irs, h.cpu.pc, GuestOf(h), h.cpu.fuel);
      var offset := start;
      while true
        invariant Valid(irs) && Entering(e, h) && Translated(irs, h.cpu.pc)
        invariant offset == CodeAt(e, irs, FirstAt(irs, h.cpu.pc, 0)) <= |code|
        invariant Restored(h, old(h.r), old(h.native)) && GuestFits(e.sp, GuestOf(h))
        invariant Dispatch(e.sp, irs, h.cpu.pc, GuestOf(h), h.cpu.fuel) == f
        decreases h.cpu.fuel
      {
        DispatchStep(e.sp, irs, h.cpu.pc, GuestOf(h), h.cpu.fuel);
        StayCovered(e, irs, |code|, Meaning(e, irs, {}, FirstAt(irs, h.cpu.pc, 0), h), f);
        var alive := Enter(offset, irs, FirstAt(irs, h.cpu.pc, 0));
        if !alive {
          return Killed;
        }
        if h.cpu.fault == FAULT_DEBUG {
          return Debugged;
        }
        if h.cpu.fault != 0 {
          return Outcome.Faulted(KindOfFault(h.cpu.fault));
        }
        if h.cpu.pc == 0 {
          return Returned(h.cpu.x[10]);
        }
        if !(e.sp.textAddr <= h.cpu.pc < e.sp.textAddr + |e.sp.text|) {
          return BadPc;
        }
        offset := CodeOffsetForPc(h.cpu.pc, irs);
        if offset == 0 {
          return BadPc;
        }
      }
    }
  }

  function KindOfFault(code: u64): Ir.FaultKind
  {
    if code == 1 then Ir.Timeout else if code == 2 then Ir.Read else Ir.Write
  }

  /** The host about to call the trampoline. */
  function Prepared(e: Env, h: Host, target: u64): Host
  {
    h.(r := h.r.(rdi := e.cpuAt, rsi := target))
  }

  lemma LoadedShape(e: Env, irs: seq<Ir.Instr>, code: seq<u8>, armed: set<u64>, h: Host)
    requires Loaded(e, irs, code, armed) && HostOk(e, h) && h.cpu.x[0] == 0
    ensures Compilable(e, irs) && StreamOk(e.sp, irs) && DirectTargetsOk(e.sp, irs) && GuestFits(e.sp, GuestOf(h))
  {
    hide Installed, Compilable, StreamOk, DirectTargetsOk, EnvOk, Items;
  }

  /** A call of the trampoline from the dispatcher's state h, whatever the argument registers held. */
  lemma CallFrom(e: Env, irs: seq<Ir.Instr>, code: seq<u8>, armed: set<u64>, i: nat, h: Host, h': Host) returns (n: nat, c: Conf)
    requires Loaded(e, irs, code, armed) && i <= |irs| && AtCall(e, h') && h'.r.rsi == e.codeAt + CodeAt(e, irs, i)
    requires h' == Prepared(e, h, h'.r.rsi) && GuestFits(e.sp, GuestOf(h))
    requires Covered(e, irs, |code|, Meaning(e, irs, armed, i, h))
    ensures Steps(e, code, n, At(0, h')) == c && !c.At? && !c.Crashed? && (c.Finished? ==> HostOk(e, c.h))
    ensures Back(e, c, Meaning(e, irs, armed, i, h), h, h.r, h.native)
  {
    hide Loaded, CodeAt, Steps, Meaning, Back, EnvOk, Compilable, AtCall, Covered;
    LoadedStream(e, irs, code, armed);
    SameMeaning(e, irs, armed, i, h, h');
    n, c := CallSimulates(e, irs, code, armed, i, h');
    BackAlive(e, irs, armed, i, c, h, h');
  }

  lemma LoadedStream(e: Env, irs: seq<Ir.Instr>, code: seq<u8>, armed: set<u64>)
    requires Loaded(e, irs, code, armed)
    ensures Compilable(e, irs) && StreamOk(e.sp, irs) && DirectTargetsOk(e.sp, irs) && e.sp.stackSize < TWO63
  {
    hide Installed, Compilable, StreamOk, DirectTargetsOk, Items;
  }

  lemma PreparedCalls(e: Env, irs: seq<Ir.Instr>, code: seq<u8>, armed: set<u64>, h: Host, h': Host)
    requires Loaded(e, irs, code, armed) && HostOk(e, h) && h.cpu.x[0] == 0 && h.cpu.fault == 0
    requires h.cpu.stackMem == e.stackAt && h.cpu.stackSize == e.sp.stackSize
    requires h' == Prepared(e, h, h'.r.rsi)
    ensures AtCall(e, h') && GuestFits(e.sp, GuestOf(h'))
  {
    hide Installed, Compilable, StreamOk, DirectTargetsOk, EnvOk, Items;
  }

  lemma SameMeaning(e: Env, irs: seq<Ir.Instr>, armed: set<u64>, i: nat, h: Host, h': Host)
    requires StreamOk(e.sp, irs) && DirectTargetsOk(e.sp, irs) && i <= |irs| && GuestFits(e.sp, GuestOf(h))
    requires h' == Prepared(e, h, h'.r.rsi)
    ensures GuestFits(e.sp, GuestOf(h')) && Meaning(e, irs, armed, i, h') == Meaning(e, irs, armed, i, h)
  {
    hide StreamOk, DirectTargetsOk, RunIr;
  }

  /** The two argument registers are not among those a call preserves. */
  lemma BackAlive(e: Env, irs: seq<Ir.Instr>, armed: set<u64>, i: nat, c: Conf, h: Host, h': Host)
    requires StreamOk(e.sp, irs) && DirectTargetsOk(e.sp, irs) && i <= |irs| && GuestFits(e.sp, GuestOf(h))
    requires h' == Prepared(e, h, h'.r.rsi) && Back(e, c, Meaning(e, irs, armed, i, h), h', h'.r, h'.native)
    ensures Back(e, c, Meaning(e, irs, armed, i, h), h, h.r, h.native) && !c.At? && !c.Crashed?
    ensures c.Finished? ==> HostOk(e, c.h)
  {
    hide StreamOk, DirectTargetsOk;
  }

  /** The map answers zero exactly for addresses that were not translated. */
  lemma MapLooksUp(e: Env, irs: seq<Ir.Instr>, code: seq<u8>, pcMap: seq<u32>, pc: u64)
    requires Loaded(e, irs, code, {}) && Compilable(e, irs) && MapOk(e, irs, pcMap)
    ensures |pcMap| == |e.sp.text|
    ensures InText(e.sp, pc) && !Translated(irs, pc) ==> pcMap[pc - e.sp.textAddr] == 0
    ensures InText(e.sp, pc) && Translated(irs, pc) ==>
              0 < pcMap[pc - e.sp.textAddr] == CodeAt(e, irs, FirstAt(irs, pc, 0)) <= |code|
  {
    hide Loaded, Compilable, CodeAt, FirstAt;
    var i := FirstAt(irs, pc, 0);
    if InText(e.sp, pc) && i < |irs| {
      CodeInside(e, irs, code, i);
    }
  }

  /** In a map that started out as it may, an address in the text is refused exactly if it was not
      translated and its slot happened to be zero. */
  lemma RefusedIff(e: Env, irs: seq<Ir.Instr>, code: seq<u8>, was: seq<u32>, pcMap: seq<u32>, pc: u64)
    requires Loaded(e, irs, code, {}) && Compilable(e, irs) && MapUpTo(e, irs, |irs|, was, pcMap) && InText(e.sp, pc)
    ensures |was| == |pcMap| == |e.sp.text|
    ensures pcMap[pc - e.sp.textAddr] == 0 <==> !Translated(irs, pc) && was[pc - e.sp.textAddr] == 0
  {
    hide Loaded, Compilable, CodeAt, FirstAt;
    var i := FirstAt(irs, pc, 0);
    if i < |irs| {
      CodeInside(e, irs, code, i);
    }
  }

  /** Every operation lies inside the code, behind the trampoline. */
  lemma CodeInside(e: Env, irs: seq<Ir.Instr>, code: seq<u8>, i: nat)
    requires Loaded(e, irs, code, {}) && Compilable(e, irs) && i <= |irs|
    ensures 0 < CodeAt(e, irs, i) <= |code|
  {
    hide Items, TargetsIn, EnvOk, Compilable, StreamOk, DirectTargetsOk, Off, Start, Installed, Patched, FittingStubs;
    StartBound(e, irs, i);
    StartBehind(e, irs, i);
    FrameRange(e, irs, code, {}, 0, 13);
    if i == |irs| {
      FrameRange(e, irs, code, {}, Epi(e, irs), Epi(e, irs) + 7);
      ItemInside(code, Items(e, irs), TargetsIn(e, irs, |code|), Epi(e, irs), Epi(e, irs) + 7);
    } else {
      BodySlice(e, irs, i);
      assert OpInstalled(e, irs, code, i);
      LowerNotEmpty(e, irs, i);
      ItemInside(code, Items(e, irs), TargetsIn(e, irs, |code|), Start(e, irs, i), Start(e, irs, i + 1));
    }
  }

  lemma LowerNotEmpty(e: Env, irs: seq<Ir.Instr>, i: nat)
    requires Compilable(e, irs) && i < |irs|
    ensures |LowerAt(e, irs, i)| > 0
  {
    hide Lowering.Body, Ir.Discarded, Count;
  }

  lemma ItemInside(code: seq<u8>, items: seq<Snippet.Item>, tgt: Targets, lo: nat, hi: nat)
    requires 0 < lo < hi <= |items| && 13 <= |items|
    requires Installed(code, items, tgt, 0, 13) && Installed(code, items, tgt, lo, hi)
    ensures 0 < Off(items, lo) <= |code|
  {
    hide Off, Installed, GoodItem, X86Encoding.Decode, X86Encoding.Encode, InstrAt, Size;
    Fetch(code, items, tgt, 0, 13, 0);
    Fetch(code, items, tgt, lo, hi, lo);
    OffMonotone(items, 1, lo);
    FirstGood(code, items, tgt);
    SizePositive(items[0]);
  }

  lemma FirstGood(code: seq<u8>, items: seq<Snippet.Item>, tgt: Targets)
    requires |items| >= 13 && Installed(code, items, tgt, 0, 13)
    ensures GoodItem(items[0])
  {
    hide GoodItem, PlacedAt, Off;
  }
}
