/** The guest machine itself: one instruction at a time, straight from the text. The whole JIT
    is shown to agree with it. */
module Isa {
  import opened Words
  import opened Ir
  import opened Decode
  import opened Reference
  import opened Translate
  import opened Dispatcher

  // ---------------------------------------------------------------- one instruction

  predicate OpsOk(ops: seq<Instr>) { forall j | 0 <= j < |ops| :: InstrOk(ops[j]) }

  /** The operations of an instruction in order, until one does not simply continue. */
  function RunOps(sp: Space, ops: seq<Instr>, g: Guest): (r: Effect)
    requires GuestFits(sp, g) && OpsOk(ops)
    ensures r.Next? || r.Direct? || r.Indirect? ==> GuestFits(sp, r.g)
    decreases |ops|
  {
    if |ops| == 0 then Next(g)
    else
      StepKeepsShape(sp, ops[0], g);
      match Step(sp, ops[0], g)
      case Next(g') => RunOps(sp, ops[1..], g')
      case r => r
  }

  /** The scan found an instruction at this address. */
  predicate Known(sp: Space, dm: DataMap, pc: u64)
    requires |sp.text| % 2 == 0
  {
    Reference.InText(sp, pc) && Starts(sp, dm, 0, pc - sp.textAddr)
  }

  lemma KnownInside(sp: Space, dm: DataMap, pc: u64)
    requires TextOk(sp, dm) && Known(sp, dm, pc)
    ensures var k := pc - sp.textAddr;
            0 <= k && k % 2 == 0 && k + 2 <= |sp.text| && !IsData(dm, k) && Starts(sp, dm, 0, k)
    ensures OpsOk(Decoded(sp.text, pc - sp.textAddr, pc))
  {
    hide Starts, Decoded, InstrOk;
    StartsInside(sp, dm, 0, pc - sp.textAddr);
    DecodedShape(sp.text, pc - sp.textAddr, pc);
  }

  /** The operations of the instruction at pc. */
  function OpsAt(sp: Space, dm: DataMap, pc: u64): (ops: seq<Instr>)
    requires TextOk(sp, dm) && Known(sp, dm, pc)
    ensures OpsOk(ops)
  {
    KnownInside(sp, dm, pc);
    Decoded(sp.text, pc - sp.textAddr, pc)
  }

  /** What the instruction at pc does. */
  function Execute(sp: Space, dm: DataMap, pc: u64, g: Guest): (r: Effect)
    requires TextOk(sp, dm) && GuestFits(sp, g) && Known(sp, dm, pc)
    ensures r.Next? || r.Direct? || r.Indirect? ==> GuestFits(sp, r.g)
  {
    RunOps(sp, OpsAt(sp, dm, pc), g)
  }

  /** The address after the instruction at pc. */
  function After(sp: Space, dm: DataMap, pc: u64): u64
    requires TextOk(sp, dm) && Known(sp, dm, pc)
  {
    KnownInside(sp, dm, pc);
    W64(pc + Length(Fetch(sp.text, pc - sp.textAddr)))
  }

  /** The guest machine. Every instruction first spends one unit of fuel, and stops if none is
      left afterwards. */
  function Interpret(sp: Space, dm: DataMap, pc: u64, g: Guest, fuel: u64): Final
    requires TextOk(sp, dm) && GuestFits(sp, g)
    decreases fuel
  {
    if !Known(sp, dm, pc) then
      if pc == 0 then Final(Returned(g.x[10]), g, 0) else Final(BadPc, g, pc)
    else if S64(W64(fuel - 1)) <= 0 then Final(Outcome.Faulted(Timeout), g, pc)
    else
      assert fuel > 0;
      match Execute(sp, dm, pc, g)
      case Next(g') => Interpret(sp, dm, After(sp, dm, pc), g', fuel - 1)
      case Direct(g', t) => Interpret(sp, dm, t, g', fuel - 1)
      case Indirect(g', t) => Interpret(sp, dm, t, g', fuel - 1)
      case Faulted(kind) => Final(Outcome.Faulted(kind), g, pc)
      case Trapped => Final(Killed, NO_GUEST, pc)
  }

  // ---------------------------------------------------------------- programs the JIT runs faithfully

  /** The last operation of these never continues. */
  predicate Ends(op: Op) { op.Jmp? || op.JmpReg? || op.Jalr? || op.Ebreak? || op.Ud2? }

  predicate FallsThrough(ops: seq<Instr>) { |ops| == 0 || !Ends(ops[|ops| - 1].op) }

  /** Direct jumps go to instructions, and no instruction falls off the translated code into
      data or past the end of the text. */
  ghost predicate Closed(sp: Space, dm: DataMap)
    requires TextOk(sp, dm)
  {
    forall pc: u64 | Known(sp, dm, pc) :: ClosedAt(sp, dm, pc)
  }

  ghost predicate ClosedAt(sp: Space, dm: DataMap, pc: u64)
    requires TextOk(sp, dm) && Known(sp, dm, pc)
  {
    var ops := OpsAt(sp, dm, pc);
    && (forall j | 0 <= j < |ops| && IsDirectJump(ops[j].op) :: Known(sp, dm, W64(ops[j].imm)))
    && (FallsThrough(ops) ==> Known(sp, dm, After(sp, dm, pc)))
  }

  /** Where a direct jump of an instruction goes, and when it continues. */
  lemma {:induction false} RunOpsEnds(sp: Space, ops: seq<Instr>, g: Guest)
    requires GuestFits(sp, g) && OpsOk(ops)
    ensures var r := RunOps(sp, ops, g);
            && (r.Next? ==> FallsThrough(ops))
            && (r.Direct? ==> exists j | 0 <= j < |ops| :: IsDirectJump(ops[j].op) && r.pc == W64(ops[j].imm))
    decreases |ops|
  {
    hide Step, InstrOk;
    if |ops| > 0 {
      StepKeepsShape(sp, ops[0], g);
      var s := Step(sp, ops[0], g);
      if s.Next? {
        OpEnds(sp, ops[0], g);
        RunOpsEnds(sp, ops[1..], s.g);
        if RunOps(sp, ops, g).Direct? {
          var j :| 0 <= j < |ops[1..]| && IsDirectJump(ops[1..][j].op) && RunOps(sp, ops, g).pc == W64(ops[1..][j].imm);
          assert IsDirectJump(ops[j + 1].op);
        }
      } else if s.Direct? {
        DirectIsJump(sp, ops[0], g);
        assert IsDirectJump(ops[0].op);
      }
    }
  }

  lemma OpEnds(sp: Space, i: Instr, g: Guest)
    requires GuestFits(sp, g) && InstrOk(i) && Step(sp, i, g).Next?
    ensures !Ends(i.op)
  {
    hide AluResult, AluWResult, SltResult, MulResult, DivResult, Find, Extend, SetRd;
  }

  /** In a closed program, execution from an instruction stays on instructions until an
      indirect jump. */
  lemma ExecuteStays(sp: Space, dm: DataMap, pc: u64, g: Guest)
    requires TextOk(sp, dm) && GuestFits(sp, g) && Known(sp, dm, pc) && ClosedAt(sp, dm, pc)
    ensures var r := Execute(sp, dm, pc, g);
            && (r.Next? ==> Known(sp, dm, After(sp, dm, pc)))
            && (r.Direct? ==> Known(sp, dm, r.pc))
  {
    hide OpsAt, Starts, RunOps, FallsThrough, After;
    RunOpsEnds(sp, OpsAt(sp, dm, pc), g);
  }

  /** What closedness is for: from no state does the instruction lead to an address in the text
      that is no instruction, except by an indirect jump. */
  ghost predicate StaysFrom(sp: Space, dm: DataMap, pc: u64, g: Guest)
    requires TextOk(sp, dm) && GuestFits(sp, g) && Known(sp, dm, pc)
  {
    var r := Execute(sp, dm, pc, g);
    (r.Next? ==> Known(sp, dm, After(sp, dm, pc))) && (r.Direct? ==> Known(sp, dm, r.pc))
  }

  ghost predicate StaysAt(sp: Space, dm: DataMap, pc: u64)
    requires TextOk(sp, dm) && Known(sp, dm, pc)
  {
    forall g: Guest | GuestFits(sp, g) :: StaysFrom(sp, dm, pc, g)
  }

  ghost predicate Stays(sp: Space, dm: DataMap)
    requires TextOk(sp, dm)
  {
    forall pc: u64 | Known(sp, dm, pc) :: StaysAt(sp, dm, pc)
  }

  lemma ClosedStays(sp: Space, dm: DataMap)
    requires TextOk(sp, dm) && Closed(sp, dm)
    ensures Stays(sp, dm)
  {
    hide Known, Execute, After, ClosedAt;
    forall pc: u64, g: Guest | Known(sp, dm, pc) && GuestFits(sp, g) ensures StaysFrom(sp, dm, pc, g) {
      ExecuteStays(sp, dm, pc, g);
    }
  }

  // ---------------------------------------------------------------- the generated code follows

  /** What the dispatcher makes of a finished stay. */
  function Resume(sp: Space, irs: seq<Instr>, x: Exit): Final
    requires StreamOk(sp, irs) && DirectTargetsOk(sp, irs) && (x.Left? ==> GuestFits(sp, x.g))
  {
    match x
    case Trap(at) => Final(Killed, NO_GUEST, at)
    case Fault(kind, g, at, _) => Final(Outcome.Faulted(kind), g, at)
    case Break(g, at, _) => Final(Debugged, g, at)
    case Left(g, next, rest) =>
      if next == 0 then Final(Returned(g.x[10]), g, 0)
      else if Reference.InText(sp, next) && Translated(irs, next) then Dispatch(sp, irs, next, g, rest)
      else Final(BadPc, g, next)
  }

  lemma DispatchResumes(sp: Space, irs: seq<Instr>, pc: u64, g: Guest, fuel: u64)
    requires StreamOk(sp, irs) && DirectTargetsOk(sp, irs) && Translated(irs, pc) && GuestFits(sp, g)
    ensures Dispatch(sp, irs, pc, g, fuel) == Resume(sp, irs, RunIr(sp, irs, {}, FirstAt(irs, pc, 0), pc, g, fuel))
  {
    hide StreamOk, DirectTargetsOk, RunIr, FirstAt, Dispatch;
    DispatchStep(sp, irs, pc, g, fuel);
  }

  /** How a stay goes on after the operations of one instruction. */
  function GoOn(sp: Space, irs: seq<Instr>, armed: set<u64>, next: nat, at: u64, pc: u64, g: Guest, fuel: u64, r: Effect): Exit
    requires StreamOk(sp, irs) && DirectTargetsOk(sp, irs) && next <= |irs| && GuestFits(sp, g)
    requires r.Next? || r.Direct? || r.Indirect? ==> GuestFits(sp, r.g)
  {
    match r
    case Next(g') => RunIr(sp, irs, armed, next, at, g', fuel)
    case Direct(g', t) =>
      if Reference.InText(sp, t) then RunIr(sp, irs, armed, FirstAt(irs, t, 0), at, g', fuel) else Left(g', at, fuel)
    case Indirect(g', t) => Left(g', t, fuel)
    case Faulted(kind) => Fault(kind, g, pc, fuel)
    case Trapped => Exit.Trap(pc)
  }

  /** The operations of an instruction, none of them a fuel check, run as a block. */
  lemma OpsRun(sp: Space, irs: seq<Instr>, armed: set<u64>, i: nat, ops: seq<Instr>, at: u64, pc: u64, g: Guest, fuel: u64)
    requires StreamOk(sp, irs) && DirectTargetsOk(sp, irs) && GuestFits(sp, g)
    requires i + |ops| <= |irs| && irs[i..i + |ops|] == ops && GoodOps(ops, pc, 2)
    ensures RunIr(sp, irs, armed, i, at, g, fuel) == GoOn(sp, irs, armed, i + |ops|, at, pc, g, fuel, RunOps(sp, ops, g))
  {
    hide StreamOk, DirectTargetsOk, Step, FirstAt, InstrOk;
    if |ops| == 0 {
    } else {
      assert irs[i] == ops[0];
      StepKeepsShape(sp, ops[0], g);
      OneOp(sp, irs, armed, i, at, g, fuel);
      if |ops| == 2 {
        assert irs[i + 1] == ops[1];
        LiContinues(sp, ops[0], g);
        var g' := Step(sp, ops[0], g).g;
        StepKeepsShape(sp, ops[1], g');
        OneOp(sp, irs, armed, i + 1, at, g', fuel);
        assert ops[1..][1..] == [];
        JmpJumps(sp, ops[1], g');
      } else {
        assert ops[1..] == [];
      }
    }
  }

  lemma LiContinues(sp: Space, i: Instr, g: Guest)
    requires GuestFits(sp, g) && InstrOk(i) && i.op.Li?
    ensures Step(sp, i, g).Next?
  {
  }

  lemma JmpJumps(sp: Space, i: Instr, g: Guest)
    requires GuestFits(sp, g) && InstrOk(i) && i.op.Jmp?
    ensures Step(sp, i, g) == Direct(g, W64(i.imm))
  {
  }

  lemma OneOp(sp: Space, irs: seq<Instr>, armed: set<u64>, i: nat, at: u64, g: Guest, fuel: u64)
    requires StreamOk(sp, irs) && DirectTargetsOk(sp, irs) && GuestFits(sp, g) && i < |irs| && !irs[i].op.FuelCheck?
    requires InstrOk(irs[i])
    ensures var r := Step(sp, irs[i], g);
            (r.Next? || r.Direct? || r.Indirect? ==> GuestFits(sp, r.g)) &&
            RunIr(sp, irs, armed, i, at, g, fuel) == GoOn(sp, irs, armed, i + 1, at, irs[i].pc, g, fuel, r)
  {
    hide StreamOk, DirectTargetsOk, Step, FirstAt, InstrOk;
    StepKeepsShape(sp, irs[i], g);
    if Step(sp, irs[i], g).Direct? && Reference.InText(sp, Step(sp, irs[i], g).pc) { DirectTarget(sp, irs, i, g); }
  }

  /** The stream from an instruction on. */
  lemma FromInstruction(sp: Space, dm: DataMap, pc: u64) returns (f: nat, rest: seq<Instr>)
    requires TextOk(sp, dm) && Known(sp, dm, pc)
    ensures f == FirstAt(Stream(sp, dm, 0), pc, 0) < |Stream(sp, dm, 0)|
    ensures Stream(sp, dm, 0)[f..] == [Check(pc)] + OpsAt(sp, dm, pc) + rest
    ensures GoodOps(OpsAt(sp, dm, pc), pc, 2)
    ensures rest != [] ==> rest[0].op.FuelCheck?
    ensures Known(sp, dm, After(sp, dm, pc)) ==>
              FirstAt(Stream(sp, dm, 0), After(sp, dm, pc), 0) == |Stream(sp, dm, 0)| - |rest|
  {
    hide Stream, Decoded, Starts, Fetch, GoodOps, FirstAt, Group, Skip, After;
    KnownInside(sp, dm, pc);
    var k := pc - sp.textAddr;
    f := FirstInStream(sp, dm, k);
    StreamStep(sp, dm, k);
    DecodedShape(sp.text, k, pc);
    GoodWeaken(OpsAt(sp, dm, pc), pc, if Is16Bit(Fetch(sp.text, k)) then 1 else 2);
    rest := Stream(sp, dm, Skip(sp, dm, k));
    StartsWithCheck(sp, dm, Skip(sp, dm, k));
    AfterInStream(sp, dm, pc);
  }

  lemma AfterInStream(sp: Space, dm: DataMap, pc: u64)
    requires TextOk(sp, dm) && Known(sp, dm, pc)
    ensures 0 <= pc - sp.textAddr && pc - sp.textAddr + 2 <= |sp.text| && Skip(sp, dm, pc - sp.textAddr) % 2 == 0
    ensures Known(sp, dm, After(sp, dm, pc)) ==>
              FirstAt(Stream(sp, dm, 0), After(sp, dm, pc), 0) ==
              |Stream(sp, dm, 0)| - |Stream(sp, dm, Skip(sp, dm, pc - sp.textAddr))|
  {
    hide Stream, Decoded, Starts, Fetch, GoodOps, FirstAt, Group, After;
    KnownInside(sp, dm, pc);
    StreamStep(sp, dm, pc - sp.textAddr);
    if Known(sp, dm, After(sp, dm, pc)) {
      KnownInside(sp, dm, After(sp, dm, pc));
      AfterIsSkip(sp, dm, pc);
      var f' := FirstInStream(sp, dm, Skip(sp, dm, pc - sp.textAddr));
    }
  }

  /** Any rest of the stream starts with a fuel check. */
  lemma {:induction false} StartsWithCheck(sp: Space, dm: DataMap, k: nat)
    requires TextOk(sp, dm) && k % 2 == 0
    ensures Stream(sp, dm, k) != [] ==> Stream(sp, dm, k)[0].op.FuelCheck?
    decreases |sp.text| - k
  {
    hide Stream, Fetch, Decoded, Group;
    if k < |sp.text| {
      StreamStep(sp, dm, k);
      if IsData(dm, k) {
        StartsWithCheck(sp, dm, Skip(sp, dm, k));
        assert [] + Stream(sp, dm, Skip(sp, dm, k)) == Stream(sp, dm, Skip(sp, dm, k));
      }
    } else {
      StreamEnd(sp, dm, k);
    }
  }

  lemma AfterIsSkip(sp: Space, dm: DataMap, pc: u64)
    requires TextOk(sp, dm) && Known(sp, dm, pc) && Known(sp, dm, After(sp, dm, pc))
    ensures 0 <= pc - sp.textAddr && pc - sp.textAddr + 2 <= |sp.text|
    ensures After(sp, dm, pc) - sp.textAddr == Skip(sp, dm, pc - sp.textAddr)
  {
    hide Starts, Fetch;
    KnownInside(sp, dm, pc);
  }

  lemma GoodWeaken(s: seq<Instr>, pc: u64, most: nat)
    requires GoodOps(s, pc, most)
    ensures GoodOps(s, pc, 2)
  {
  }

  lemma InBlock(irs: seq<Instr>, f: nat, pc: u64, ops: seq<Instr>, rest: seq<Instr>)
    requires f <= |irs| && irs[f..] == [Check(pc)] + ops + rest
    ensures f + 1 + |ops| <= |irs| && irs[f] == Check(pc) && irs[f + 1..f + 1 + |ops|] == ops
    ensures |irs| - |rest| == f + 1 + |ops|
  {
    assert irs[f] == irs[f..][0];
    forall i | 0 <= i < |ops| ensures irs[f + 1 + i] == ops[i] { assert irs[f..][1 + i] == ops[i]; }
  }

  /** One instruction in the generated code: the fuel check, then its operations. */
  lemma StayStep(sp: Space, dm: DataMap, irs: seq<Instr>, armed: set<u64>, pc: u64, at: u64, g: Guest, fuel: u64) returns (next: nat)
    requires TextOk(sp, dm) && Known(sp, dm, pc) && irs == Stream(sp, dm, 0) && GuestFits(sp, g)
    requires StreamOk(sp, irs) && DirectTargetsOk(sp, irs) && pc !in armed
    ensures FirstAt(irs, pc, 0) < |irs| && next <= |irs| && (next < |irs| ==> irs[next].op.FuelCheck?)
    ensures Known(sp, dm, After(sp, dm, pc)) ==> FirstAt(irs, After(sp, dm, pc), 0) == next
    ensures var x, rest := RunIr(sp, irs, armed, FirstAt(irs, pc, 0), at, g, fuel), W64(fuel - 1);
            if S64(rest) <= 0 then x == Fault(Timeout, g, pc, rest)
            else x == GoOn(sp, irs, armed, next, at, pc, g, rest, Execute(sp, dm, pc, g))
  {
    hide Stream, Starts, Fetch, GoodOps, FirstAt, OpsAt, After, StreamOk, DirectTargetsOk, RunOps, GoOn, RunIr, TextOk, InstrOk, Known;
    var f, more := FromInstruction(sp, dm, pc);
    var ops := OpsAt(sp, dm, pc);
    InBlock(irs, f, pc, ops, more);
    next := f + 1 + |ops|;
    if next < |irs| { assert irs[next] == irs[f..][1 + |ops|] == more[0]; }
    FuelStep(sp, irs, armed, f, at, g, fuel);
    if S64(W64(fuel - 1)) > 0 { OpsRun(sp, irs, armed, f + 1, ops, at, pc, g, fuel - 1); }
  }

  lemma FuelStep(sp: Space, irs: seq<Instr>, armed: set<u64>, i: nat, at: u64, g: Guest, fuel: u64)
    requires StreamOk(sp, irs) && DirectTargetsOk(sp, irs) && GuestFits(sp, g) && i < |irs| && irs[i].op.FuelCheck? && !Hits(irs, armed, i)
    ensures var rest := W64(fuel - 1);
            RunIr(sp, irs, armed, i, at, g, fuel) ==
            if S64(rest) <= 0 then Fault(Timeout, g, irs[i].pc, rest) else RunIr(sp, irs, armed, i + 1, at, g, rest)
  {
    hide StreamOk, DirectTargetsOk, Step, FirstAt;
  }

  /** The generated code and its dispatcher, entered at an instruction, do what the guest machine
      does: same outcome, same registers and memory, same address, whatever stale address
      cpu.pc holds on the way. */
  lemma {:induction false} Agree(sp: Space, dm: DataMap, irs: seq<Instr>, pc: u64, at: u64, g: Guest, fuel: u64)
    requires TextOk(sp, dm) && Stays(sp, dm) && Known(sp, dm, pc) && irs == Stream(sp, dm, 0) && GuestFits(sp, g)
    requires StreamOk(sp, irs) && DirectTargetsOk(sp, irs)
    ensures Resume(sp, irs, RunIr(sp, irs, {}, FirstAt(irs, pc, 0), at, g, fuel)) == Interpret(sp, dm, pc, g, fuel)
    decreases fuel
  {
    hide Stream, Starts, Fetch, FirstAt, OpsAt, After, StreamOk, DirectTargetsOk, RunOps, RunIr, Dispatch, Execute, Translated, Known;
    var next := StayStep(sp, dm, irs, {}, pc, at, g, fuel);
    assert StaysAt(sp, dm, pc) && StaysFrom(sp, dm, pc, g);
    var rest := W64(fuel - 1);
    if S64(rest) > 0 {
      var r := Execute(sp, dm, pc, g);
      if r.Next? {
        Agree(sp, dm, irs, After(sp, dm, pc), at, r.g, rest);
      } else if r.Direct? {
        KnownInText(sp, dm, r.pc);
        Agree(sp, dm, irs, r.pc, at, r.g, rest);
      } else if r.Indirect? {
        KnownTranslated(sp, dm, irs, r.pc);
        if Known(sp, dm, r.pc) {
          KnownInText(sp, dm, r.pc);
          DispatchResumes(sp, irs, r.pc, r.g, rest);
          Agree(sp, dm, irs, r.pc, r.pc, r.g, rest);
        }
      }
    }
  }

  lemma KnownInText(sp: Space, dm: DataMap, pc: u64)
    requires TextOk(sp, dm) && Known(sp, dm, pc)
    ensures Reference.InText(sp, pc) && pc != 0
  {
  }

  lemma KnownTranslated(sp: Space, dm: DataMap, irs: seq<Instr>, pc: u64)
    requires TextOk(sp, dm) && irs == Stream(sp, dm, 0)
    ensures Known(sp, dm, pc) <==> Reference.InText(sp, pc) && Translated(irs, pc)
  {
    hide Stream, Starts;
    TranslatedIff(sp, dm, pc);
  }

  /** In a closed program every recorded branch has a translated target. */
  lemma ClosedTargets(sp: Space, dm: DataMap)
    requires TextOk(sp, dm) && Closed(sp, dm)
    ensures DirectTargetsOk(sp, Stream(sp, dm, 0))
  {
    hide Stream, Starts, Decoded, Closed, Translated, Known;
    var irs := Stream(sp, dm, 0);
    forall i | 0 <= i < |irs| && IsDirectJump(irs[i].op) && Reference.InText(sp, W64(irs[i].imm))
      ensures Translated(irs, W64(irs[i].imm)) {
      JumpTargetKnown(sp, dm, i);
      KnownTranslated(sp, dm, irs, W64(irs[i].imm));
    }
  }

  lemma JumpTargetKnown(sp: Space, dm: DataMap, i: nat)
    requires TextOk(sp, dm) && Closed(sp, dm) && i < |Stream(sp, dm, 0)| && IsDirectJump(Stream(sp, dm, 0)[i].op)
    ensures Known(sp, dm, W64(Stream(sp, dm, 0)[i].imm))
  {
    hide Stream, Starts, Decoded, FallsThrough;
    var op := Stream(sp, dm, 0)[i];
    PcStarts(sp, dm, 0, i);
    var ops := OpsAt(sp, dm, op.pc);
    assert Group(sp, op.pc - sp.textAddr) == [Check(op.pc)] + ops;
    assert op in ops;
    assert ClosedAt(sp, dm, op.pc);
    var j :| 0 <= j < |ops| && ops[j] == op;
  }

  /** Whole runs: for a closed program, from any instruction, any guest state and any fuel, over
      any number of indirect jumps, the dispatcher over the generated code ends as the guest
      machine does. */
  lemma WholeRun(sp: Space, dm: DataMap, pc: u64, g: Guest, fuel: u64)
    requires TextOk(sp, dm) && Closed(sp, dm) && Known(sp, dm, pc) && GuestFits(sp, g)
    ensures var irs := Stream(sp, dm, 0);
            && StreamOk(sp, irs) && DirectTargetsOk(sp, irs) && Translated(irs, pc)
            && Dispatch(sp, irs, pc, g, fuel) == Interpret(sp, dm, pc, g, fuel)
  {
    hide Stream, Starts, StreamOk, DirectTargetsOk, Dispatch, Interpret, Closed, Known, Translated, Resume, Stays;
    var irs := Stream(sp, dm, 0);
    StreamShape(sp, dm, 0);
    ClosedTargets(sp, dm);
    KnownTranslated(sp, dm, irs, pc);
    DispatchResumes(sp, irs, pc, g, fuel);
    ClosedStays(sp, dm);
    Agree(sp, dm, irs, pc, pc, g, fuel);
  }

  // ---------------------------------------------------------------- fuel

  /** The state after a completed instruction. */
  function Successor(sp: Space, dm: DataMap, pc: u64, g: Guest): (r: Option<(u64, Guest)>)
    requires TextOk(sp, dm) && GuestFits(sp, g) && Known(sp, dm, pc)
    ensures r.Some? ==> GuestFits(sp, r.value.1)
  {
    match Execute(sp, dm, pc, g)
    case Next(g') => Some((After(sp, dm, pc), g'))
    case Direct(g', t) => Some((t, g'))
    case Indirect(g', t) => Some((t, g'))
    case _ => None
  }

  /** How many instructions complete. */
  function Completed(sp: Space, dm: DataMap, pc: u64, g: Guest, fuel: u64): nat
    requires TextOk(sp, dm) && GuestFits(sp, g)
    decreases fuel
  {
    if !Known(sp, dm, pc) || fuel == 0 || S64(W64(fuel - 1)) <= 0 then 0
    else
      match Successor(sp, dm, pc, g)
      case None => 0
      case Some((pc', g')) => 1 + Completed(sp, dm, pc', g', fuel - 1)
  }

  /** From fuel F at most F - 1 instructions complete over the whole call, and exactly F - 1 if it
      times out. */
  lemma {:induction false} FuelBound(sp: Space, dm: DataMap, pc: u64, g: Guest, fuel: u64)
    requires TextOk(sp, dm) && GuestFits(sp, g) && 1 <= fuel < TWO63
    ensures Completed(sp, dm, pc, g, fuel) <= fuel - 1
    ensures Interpret(sp, dm, pc, g, fuel).outcome == Outcome.Faulted(Timeout) ==> Completed(sp, dm, pc, g, fuel) == fuel - 1
    decreases fuel
  {
    hide Execute, Known, After;
    if Known(sp, dm, pc) && fuel > 1 {
      NeverTimesOut(sp, dm, pc, g);
      var r := Execute(sp, dm, pc, g);
      if r.Next? { FuelBound(sp, dm, After(sp, dm, pc), r.g, fuel - 1); }
      else if r.Direct? || r.Indirect? { FuelBound(sp, dm, r.pc, r.g, fuel - 1); }
    }
  }

  /** Instructions themselves fault on memory only. */
  lemma NeverTimesOut(sp: Space, dm: DataMap, pc: u64, g: Guest)
    requires TextOk(sp, dm) && GuestFits(sp, g) && Known(sp, dm, pc)
    ensures Execute(sp, dm, pc, g) != Effect.Faulted(Timeout)
  {
    hide OpsAt;
    OpsTimeout(sp, OpsAt(sp, dm, pc), g);
  }

  lemma {:induction false} OpsTimeout(sp: Space, ops: seq<Instr>, g: Guest)
    requires GuestFits(sp, g) && OpsOk(ops)
    ensures RunOps(sp, ops, g) != Effect.Faulted(Timeout)
    decreases |ops|
  {
    hide Step;
    if |ops| > 0 {
      StepKeepsShape(sp, ops[0], g);
      NoTimeout(sp, ops[0], g);
      if Step(sp, ops[0], g).Next? { OpsTimeout(sp, ops[1..], Step(sp, ops[0], g).g); }
    }
  }

  // ---------------------------------------------------------------- a jump out of the text

  /** An instruction that may jump directly ends with the jump; only a jump-and-link does something
      before it. */
  predicate JumpsLast(ops: seq<Instr>) { |ops| > 0 && IsDirectJump(ops[|ops| - 1].op) }

  function JumpOf(ops: seq<Instr>): Instr
    requires JumpsLast(ops)
  {
    ops[|ops| - 1]
  }

  predicate Takes(j: Instr, g: Guest)
    requires InstrOk(j) && |g.x| == 32
  {
    j.op.Jmp? || (j.op.Beqz? && g.x[j.rs1] == 0) || (j.op.Branch? && Taken(j.op.cond, g.x[j.rs1], g.x[j.rs2]))
  }

  /** The guest at the jump: a jump-and-link has written its link. */
  function Linked(ops: seq<Instr>, g: Guest): Guest
    requires |g.x| == 32
  {
    if |ops| == 2 then SetRd(g, ops[0].rd, W64(ops[0].imm)) else g
  }

  lemma JumpExecutes(sp: Space, dm: DataMap, pc: u64, g: Guest)
    requires TextOk(sp, dm) && Known(sp, dm, pc) && GuestFits(sp, g) && JumpsLast(OpsAt(sp, dm, pc))
    ensures var ops := OpsAt(sp, dm, pc); var j := JumpOf(ops);
            && InstrOk(j) && GuestFits(sp, Linked(ops, g)) && Linked(ops, Linked(ops, g)) == Linked(ops, g)
            && (Takes(j, g) ==> Takes(j, Linked(ops, g)))
            && Execute(sp, dm, pc, g) == if Takes(j, g) then Direct(Linked(ops, g), W64(j.imm)) else Next(g)
  {
    hide OpsAt, GoodOps, InstrOk;
    var ops := OpsAt(sp, dm, pc);
    var f, more := FromInstruction(sp, dm, pc);
    GroupShapes(ops, pc);
    if |ops| == 2 {
      LiLinks(sp, ops, g);
      assert ops[1..] == [ops[1]];
      JumpSteps(sp, ops[1], Linked(ops, g));
      RunOne(sp, ops[1], Linked(ops, g));
    } else {
      assert ops == [ops[0]];
      JumpSteps(sp, ops[0], g);
      RunOne(sp, ops[0], g);
    }
  }

  lemma GroupShapes(ops: seq<Instr>, pc: u64)
    requires GoodOps(ops, pc, 2)
    ensures |ops| <= 2 && OpsOk(ops) && (|ops| == 2 ==> ops[0].op.Li? && ops[1].op.Jmp?)
  {
  }

  lemma LiLinks(sp: Space, ops: seq<Instr>, g: Guest)
    requires GuestFits(sp, g) && |ops| == 2 && InstrOk(ops[0]) && ops[0].op.Li?
    ensures Step(sp, ops[0], g) == Next(Linked(ops, g)) && GuestFits(sp, Linked(ops, g))
    ensures Linked(ops, Linked(ops, g)) == Linked(ops, g)
  {
  }

  lemma JumpSteps(sp: Space, j: Instr, g: Guest)
    requires GuestFits(sp, g) && InstrOk(j) && IsDirectJump(j.op)
    ensures Step(sp, j, g) == if Takes(j, g) then Direct(g, W64(j.imm)) else Next(g)
  {
  }

  lemma RunOne(sp: Space, i: Instr, g: Guest)
    requires GuestFits(sp, g) && InstrOk(i)
    ensures OpsOk([i]) && RunOps(sp, [i], g) == Step(sp, i, g)
  {
    hide Step, InstrOk;
    StepKeepsShape(sp, i, g);
    if Step(sp, i, g).Next? { assert RunOps(sp, [i][1..], Step(sp, i, g).g) == Next(Step(sp, i, g).g); }
  }

  /** A direct jump out of the text stores no address: wherever it stands, the dispatcher goes on at
      the address it last dispatched to. */
  lemma EscapingJumpResumes(sp: Space, dm: DataMap, irs: seq<Instr>, pc: u64, at: u64, g: Guest, fuel: u64)
    requires TextOk(sp, dm) && Known(sp, dm, pc) && irs == Stream(sp, dm, 0) && GuestFits(sp, g)
    requires StreamOk(sp, irs) && DirectTargetsOk(sp, irs) && Reference.InText(sp, at) && Translated(irs, at)
    requires Execute(sp, dm, pc, g).Direct? && !Reference.InText(sp, Execute(sp, dm, pc, g).pc)
    requires 2 <= fuel < TWO63
    ensures Resume(sp, irs, RunIr(sp, irs, {}, FirstAt(irs, pc, 0), at, g, fuel)) ==
            Dispatch(sp, irs, at, Execute(sp, dm, pc, g).g, fuel - 1)
  {
    hide Stream, Starts, Fetch, FirstAt, OpsAt, After, StreamOk, DirectTargetsOk, RunIr, Dispatch, Translated, Known, Execute;
    var next := StayStep(sp, dm, irs, {}, pc, at, g, fuel);
    assert at != 0;
  }

  /** Dispatched to the instruction itself, that is a loop: it jumps again until the fuel is gone. */
  lemma {:induction false} EscapingJumpLoops(sp: Space, dm: DataMap, irs: seq<Instr>, pc: u64, g: Guest, fuel: u64)
    requires TextOk(sp, dm) && Known(sp, dm, pc) && irs == Stream(sp, dm, 0) && GuestFits(sp, g)
    requires StreamOk(sp, irs) && DirectTargetsOk(sp, irs) && Translated(irs, pc) && JumpsLast(OpsAt(sp, dm, pc))
    requires var j := JumpOf(OpsAt(sp, dm, pc)); InstrOk(j) && Takes(j, g) && !Reference.InText(sp, W64(j.imm))
    requires 1 <= fuel < TWO63
    ensures Dispatch(sp, irs, pc, g, fuel) ==
            Final(Outcome.Faulted(Timeout), if fuel == 1 then g else Linked(OpsAt(sp, dm, pc), g), pc)
    decreases fuel
  {
    hide Stream, Starts, Fetch, FirstAt, OpsAt, After, StreamOk, DirectTargetsOk, RunIr, Dispatch, Translated, Known, InstrOk, Execute, Takes, Linked;
    DispatchResumes(sp, irs, pc, g, fuel);
    KnownInText(sp, dm, pc);
    JumpExecutes(sp, dm, pc, g);
    if fuel > 1 {
      EscapingJumpResumes(sp, dm, irs, pc, pc, g, fuel);
      EscapingJumpLoops(sp, dm, irs, pc, Linked(OpsAt(sp, dm, pc), g), fuel - 1);
    } else {
      var next := StayStep(sp, dm, irs, {}, pc, pc, g, fuel);
    }
  }

  /** The guest machine leaves through such a jump at once. So the two differ from every state that
      takes it. */
  lemma EscapingJumpDiffers(sp: Space, dm: DataMap, irs: seq<Instr>, pc: u64, g: Guest, fuel: u64)
    requires TextOk(sp, dm) && Known(sp, dm, pc) && irs == Stream(sp, dm, 0) && GuestFits(sp, g)
    requires StreamOk(sp, irs) && DirectTargetsOk(sp, irs) && Translated(irs, pc) && JumpsLast(OpsAt(sp, dm, pc))
    requires var j := JumpOf(OpsAt(sp, dm, pc)); InstrOk(j) && Takes(j, g) && !Reference.InText(sp, W64(j.imm))
    requires 2 <= fuel < TWO63
    ensures var ops := OpsAt(sp, dm, pc); var t, g' := W64(JumpOf(ops).imm), Linked(ops, g);
            Interpret(sp, dm, pc, g, fuel) == if t == 0 then Final(Returned(g'.x[10]), g', 0) else Final(BadPc, g', t)
    ensures Dispatch(sp, irs, pc, g, fuel) != Interpret(sp, dm, pc, g, fuel)
  {
    hide Stream, Starts, Fetch, FirstAt, OpsAt, After, StreamOk, DirectTargetsOk, RunIr, Dispatch, Translated, InstrOk, Takes, Linked, Execute;
    EscapingJumpLoops(sp, dm, irs, pc, g, fuel);
    JumpExecutes(sp, dm, pc, g);
    var ops := OpsAt(sp, dm, pc);
    assert !Known(sp, dm, W64(JumpOf(ops).imm));
    assert Interpret(sp, dm, pc, g, fuel) == Interpret(sp, dm, W64(JumpOf(ops).imm), Linked(ops, g), fuel - 1);
  }

  /** Some state takes the jump: all but a register compared with itself for being different or
      less, and an unsigned comparison for being less than x0. */
  predicate CanTake(j: Instr)
  {
    !j.op.Branch? || j.op.cond.Eq? || j.op.cond.Ge? || j.op.cond.Geu?
    || (j.rs1 != j.rs2 && (j.op.cond.Ltu? ==> j.rs2 != 0))
  }

  /** A state that takes it: all registers zero, but for the one that has to be different. */
  function Taker(sp: Space, j: Instr): (g: Guest)
    requires InstrOk(j)
    ensures GuestFits(sp, g)
  {
    var zero := seq(32, i => 0);
    var x := if !j.op.Branch? || j.op.cond.Eq? || j.op.cond.Ge? || j.op.cond.Geu? then zero
             else if j.rs2 != 0 then zero[j.rs2 := 1]
             else if j.rs1 != 0 then zero[j.rs1 := TWO64 - 1] else zero;
    Guest(x, seq(sp.stackSize, i => 0), seq(sp.dataSize, i => 0))
  }

  lemma CanTakeIff(sp: Space, j: Instr)
    requires InstrOk(j) && IsDirectJump(j.op)
    ensures CanTake(j) ==> Takes(j, Taker(sp, j))
    ensures !CanTake(j) ==> forall g: Guest | GuestFits(sp, g) :: !Takes(j, g)
  {
  }

  ghost predicate FaithfulFrom(sp: Space, dm: DataMap, irs: seq<Instr>, pc: u64)
    requires TextOk(sp, dm) && StreamOk(sp, irs) && DirectTargetsOk(sp, irs) && Translated(irs, pc)
  {
    forall g: Guest, fuel: u64 | GuestFits(sp, g) :: Dispatch(sp, irs, pc, g, fuel) == Interpret(sp, dm, pc, g, fuel)
  }

  /** The jump of the instruction at pc, if it has one, stays in the text or is never taken. */
  predicate JumpStays(sp: Space, dm: DataMap, pc: u64)
    requires TextOk(sp, dm) && Known(sp, dm, pc)
  {
    var ops := OpsAt(sp, dm, pc);
    JumpsLast(ops) ==> Reference.InText(sp, W64(JumpOf(ops).imm)) || !CanTake(JumpOf(ops))
  }

  lemma JumpsKnown(sp: Space, dm: DataMap, irs: seq<Instr>, pc: u64, g: Guest)
    requires TextOk(sp, dm) && Known(sp, dm, pc) && irs == Stream(sp, dm, 0) && StreamOk(sp, irs) && DirectTargetsOk(sp, irs)
    requires JumpStays(sp, dm, pc) && GuestFits(sp, g)
    ensures Execute(sp, dm, pc, g).Direct? ==> Known(sp, dm, Execute(sp, dm, pc, g).pc)
  {
    hide Stream, Starts, Fetch, OpsAt, After, StreamOk, DirectTargetsOk, Known, InstrOk, Takes, CanTake, Linked, Translated;
    DirectIsLast(sp, dm, pc, g);
    if JumpsLast(OpsAt(sp, dm, pc)) {
      JumpExecutes(sp, dm, pc, g);
      CanTakeIff(sp, JumpOf(OpsAt(sp, dm, pc)));
      if Execute(sp, dm, pc, g).Direct? {
        JumpTargetTranslated(sp, dm, irs, pc);
        KnownTranslated(sp, dm, irs, W64(JumpOf(OpsAt(sp, dm, pc)).imm));
      }
    }
  }

  lemma JumpsStay(sp: Space, dm: DataMap, irs: seq<Instr>, pc: u64)
    requires TextOk(sp, dm) && Known(sp, dm, pc) && irs == Stream(sp, dm, 0) && StreamOk(sp, irs) && DirectTargetsOk(sp, irs)
    requires JumpStays(sp, dm, pc) && (FallsThrough(OpsAt(sp, dm, pc)) ==> Known(sp, dm, After(sp, dm, pc)))
    ensures StaysAt(sp, dm, pc)
  {
    hide Stream, OpsAt, After, StreamOk, DirectTargetsOk, Known, JumpStays, FallsThrough;
    forall g: Guest | GuestFits(sp, g) ensures StaysFrom(sp, dm, pc, g) {
      RunOpsEnds(sp, OpsAt(sp, dm, pc), g);
      JumpsKnown(sp, dm, irs, pc, g);
    }
  }

  lemma DirectIsLast(sp: Space, dm: DataMap, pc: u64, g: Guest)
    requires TextOk(sp, dm) && Known(sp, dm, pc) && GuestFits(sp, g)
    ensures Execute(sp, dm, pc, g).Direct? ==> JumpsLast(OpsAt(sp, dm, pc))
  {
    hide OpsAt, GoodOps, RunOps, FallsThrough, Known, Stream, After, FirstAt;
    var ops := OpsAt(sp, dm, pc);
    var f, more := FromInstruction(sp, dm, pc);
    GroupShapes(ops, pc);
    RunOpsEnds(sp, ops, g);
    if Execute(sp, dm, pc, g).Direct? {
      var j :| 0 <= j < |ops| && IsDirectJump(ops[j].op);
      assert |ops| == 2 ==> j == 1;
    }
  }

  /** Running from an instruction with a direct jump, where all else is closed, is faithful from
      every state if and only if the jump stays in the text or is never taken. */
  lemma FaithfulFromIff(sp: Space, dm: DataMap, irs: seq<Instr>, pc: u64)
    requires TextOk(sp, dm) && Known(sp, dm, pc) && irs == Stream(sp, dm, 0)
    requires StreamOk(sp, irs) && DirectTargetsOk(sp, irs) && Translated(irs, pc)
    requires forall q: u64 | Known(sp, dm, q) && q != pc :: StaysAt(sp, dm, q)
    requires FallsThrough(OpsAt(sp, dm, pc)) ==> Known(sp, dm, After(sp, dm, pc))
    ensures FaithfulFrom(sp, dm, irs, pc) <==> JumpStays(sp, dm, pc)
  {
    hide Stream, Starts, Fetch, FirstAt, OpsAt, After, StreamOk, DirectTargetsOk, Dispatch, Interpret, Translated, Known, StaysAt, Takes, InstrOk, FallsThrough;
    if JumpStays(sp, dm, pc) {
      JumpsStay(sp, dm, irs, pc);
      StayingIsFaithful(sp, dm, irs, pc);
    } else {
      Unfaithful(sp, dm, irs, pc);
    }
  }

  lemma StayingIsFaithful(sp: Space, dm: DataMap, irs: seq<Instr>, pc: u64)
    requires TextOk(sp, dm) && Known(sp, dm, pc) && irs == Stream(sp, dm, 0)
    requires StreamOk(sp, irs) && DirectTargetsOk(sp, irs) && Translated(irs, pc) && Stays(sp, dm)
    ensures FaithfulFrom(sp, dm, irs, pc)
  {
    hide Stream, FirstAt, StreamOk, DirectTargetsOk, Dispatch, Interpret, Translated, Known, Stays, Resume, RunIr;
    forall g: Guest, fuel: u64 | GuestFits(sp, g)
      ensures Dispatch(sp, irs, pc, g, fuel) == Interpret(sp, dm, pc, g, fuel) {
      DispatchResumes(sp, irs, pc, g, fuel);
      Agree(sp, dm, irs, pc, pc, g, fuel);
    }
  }

  lemma Unfaithful(sp: Space, dm: DataMap, irs: seq<Instr>, pc: u64)
    requires TextOk(sp, dm) && Known(sp, dm, pc) && irs == Stream(sp, dm, 0)
    requires StreamOk(sp, irs) && DirectTargetsOk(sp, irs) && Translated(irs, pc) && !JumpStays(sp, dm, pc)
    ensures !FaithfulFrom(sp, dm, irs, pc)
  {
    hide Stream, Starts, Fetch, FirstAt, OpsAt, StreamOk, DirectTargetsOk, Dispatch, Interpret, Translated, Known, Takes, InstrOk, Taker, CanTake, Linked;
    var j := JumpOf(OpsAt(sp, dm, pc));
    KnownInside(sp, dm, pc);
    CanTakeIff(sp, j);
    EscapingJumpDiffers(sp, dm, irs, pc, Taker(sp, j), 2);
  }

  lemma JumpTargetTranslated(sp: Space, dm: DataMap, irs: seq<Instr>, pc: u64)
    requires TextOk(sp, dm) && Known(sp, dm, pc) && irs == Stream(sp, dm, 0) && DirectTargetsOk(sp, irs)
    requires var ops := OpsAt(sp, dm, pc); JumpsLast(ops) && Reference.InText(sp, W64(JumpOf(ops).imm))
    ensures Translated(irs, W64(JumpOf(OpsAt(sp, dm, pc)).imm))
  {
    hide Stream, Starts, Fetch, FirstAt, OpsAt, After, Translated, Known;
    var f, more := FromInstruction(sp, dm, pc);
    var ops := OpsAt(sp, dm, pc);
    InBlock(irs, f, pc, ops, more);
    assert irs[f + |ops|] == irs[f + 1..f + 1 + |ops|][|ops| - 1];
  }
}
