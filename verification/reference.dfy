/** The meaning of a whole IR program: one operation at a time, until control leaves the
    translated code. */
module Reference {
  import opened Words
  import opened Ir

  /** The first operation translated from pc, or |irs|. */
  function FirstAt(irs: seq<Instr>, pc: u64, from: nat): (i: nat)
    requires from <= |irs|
    ensures from <= i <= |irs| && (i < |irs| ==> irs[i].pc == pc)
    ensures forall j | from <= j < i :: irs[j].pc != pc
    decreases |irs| - from
  {
    if from == |irs| || irs[from].pc == pc then from else FirstAt(irs, pc, from + 1)
  }

  predicate GroupStart(irs: seq<Instr>, i: nat)
    requires i < |irs|
  {
    i == 0 || irs[i - 1].pc != irs[i].pc
  }

  predicate InText(sp: Space, pc: u64)
  {
    sp.textAddr <= pc < sp.textAddr + |sp.text|
  }

  /** pc is the address of a translated instruction. */
  predicate Translated(irs: seq<Instr>, pc: u64)
  {
    FirstAt(irs, pc, 0) < |irs|
  }

  predicate IsDirectJump(op: Op) { op.Beqz? || op.Branch? || op.Jmp? }

  /** What the front end guarantees: one group of operations per instruction, in increasing
      address order, each starting with its only fuel check. */
  ghost predicate StreamOk(sp: Space, irs: seq<Instr>)
  {
    && (forall i | 0 <= i < |irs| :: InstrOk(irs[i]) && InText(sp, irs[i].pc))
    && (forall i | 0 <= i < |irs| :: irs[i].op.FuelCheck? <==> GroupStart(irs, i))
    && (forall i, j | 0 <= i < j < |irs| :: irs[i].pc <= irs[j].pc)
  }

  /** Every direct jump into the text goes to a translated instruction. */
  ghost predicate DirectTargetsOk(sp: Space, irs: seq<Instr>)
  {
    forall i | 0 <= i < |irs| && IsDirectJump(irs[i].op) ::
      InText(sp, W64(irs[i].imm)) ==> Translated(irs, W64(irs[i].imm))
  }

  /** How one stay in the generated code ends: back to the dispatcher with cpu.pc, stopped by a
      fault at an instruction that did not complete, stopped at a breakpoint before its
      instruction, or killed by a trap instruction. */
  datatype Exit =
    | Left(g: Guest, pc: u64, fuel: u64)
    | Fault(kind: FaultKind, g: Guest, pc: u64, fuel: u64)
    | Break(g: Guest, pc: u64, fuel: u64)
    | Trap(pc: u64)

  predicate GuestFits(sp: Space, g: Guest)
  {
    |g.x| == 32 && g.x[0] == 0 && |g.stack| == sp.stackSize && |g.data| == sp.dataSize
  }

  function Rank(irs: seq<Instr>, i: nat): nat
    requires i <= |irs|
  {
    if i < |irs| && irs[i].op.FuelCheck? then 0 else |irs| - i + 1
  }

  lemma StepKeepsShape(sp: Space, ins: Instr, g: Guest)
    requires InstrOk(ins) && GuestFits(sp, g)
    ensures match Step(sp, ins, g)
            case Next(g') => GuestFits(sp, g')
            case Direct(g', _) => GuestFits(sp, g')
            case Indirect(g', _) => GuestFits(sp, g')
            case _ => true
  {
    hide AluResult, AluWResult, SltResult, MulResult, DivResult, Find, Extend;
  }

  /** Operation i starts an instruction with an armed breakpoint. */
  predicate Hits(irs: seq<Instr>, armed: set<u64>, i: nat)
    requires i < |irs|
  {
    irs[i].op.FuelCheck? && irs[i].pc in armed
  }

  /** Runs from operation i. at is what cpu.pc holds: the address last dispatched to, since
      only indirect jumps store it. A direct jump out of the text, or running off the last
      operation, leaves with cpu.pc unchanged. */
  function RunIr(sp: Space, irs: seq<Instr>, armed: set<u64>, i: nat, at: u64, g: Guest, fuel: u64): (r: Exit)
    requires StreamOk(sp, irs) && DirectTargetsOk(sp, irs) && i <= |irs| && GuestFits(sp, g)
    ensures r.Left? || r.Fault? || r.Break? ==> GuestFits(sp, r.g)
    ensures armed == {} ==> !r.Break?
    decreases fuel, Rank(irs, i)
  {
    if i == |irs| then Left(g, at, fuel)
    else if Hits(irs, armed, i) then Break(g, irs[i].pc, fuel)
    else if irs[i].op.FuelCheck? then
      var rest := W64(fuel - 1);
      if S64(rest) <= 0 then Fault(Timeout, g, irs[i].pc, rest) else RunIr(sp, irs, armed, i + 1, at, g, rest)
    else
      StepKeepsShape(sp, irs[i], g);
      match Step(sp, irs[i], g)
      case Next(g') => RunIr(sp, irs, armed, i + 1, at, g', fuel)
      case Direct(g', pc) =>
        if InText(sp, pc) then
          DirectTarget(sp, irs, i, g);
          RunIr(sp, irs, armed, FirstAt(irs, pc, 0), at, g', fuel)
        else Left(g', at, fuel)
      case Indirect(g', pc) => Left(g', pc, fuel)
      case Faulted(kind) => Fault(kind, g, irs[i].pc, fuel)
      case Trapped => Trap(irs[i].pc)
  }

  /** A direct jump that stays in the text reaches the start of a group. */
  lemma DirectTarget(sp: Space, irs: seq<Instr>, i: nat, g: Guest)
    requires StreamOk(sp, irs) && DirectTargetsOk(sp, irs) && i < |irs| && GuestFits(sp, g)
    requires Step(sp, irs[i], g).Direct? && InText(sp, Step(sp, irs[i], g).pc)
    ensures var t := FirstAt(irs, Step(sp, irs[i], g).pc, 0); t < |irs| && irs[t].op.FuelCheck?
  {
    hide Step;
    var pc := Step(sp, irs[i], g).pc;
    DirectIsJump(sp, irs[i], g);
    assert GroupStart(irs, FirstAt(irs, pc, 0));
  }

  lemma DirectIsJump(sp: Space, ins: Instr, g: Guest)
    requires InstrOk(ins) && GuestFits(sp, g) && Step(sp, ins, g).Direct?
    ensures IsDirectJump(ins.op) && Step(sp, ins, g) == Direct(g, W64(ins.imm))
  {
    hide AluResult, AluWResult, SltResult, MulResult, DivResult, Find, Extend, SetRd;
  }
}
