/** Which programs the JIT runs faithfully: besides jumps out of the text, the code can run off a
    stretch of instructions into data or past the end. */
module Faithful {
  import opened Words
  import opened Ir
  import opened Reference
  import opened Translate
  import opened Isa
  import opened Dispatcher
  import CodeGen

  // ---------------------------------------------------------------- instructions that can continue

  /** Some access of this size is possible. */
  predicate Accessible(sp: Space, n: nat, store: bool)
  {
    STACK_GUARD + n <= sp.stackSize || (sp.dataSize != 0 && n <= sp.dataSize) || (!store && n <= |sp.text|)
  }

  /** An address at which it is. */
  function Spot(sp: Space, n: nat): u64
    requires SpaceOk(sp)
  {
    if STACK_GUARD + n <= sp.stackSize then STACK_GUARD
    else if sp.dataSize != 0 && n <= sp.dataSize then sp.dataAddr else sp.textAddr
  }

  lemma SpotFound(sp: Space, n: nat, store: bool)
    requires SpaceOk(sp) && n > 0
    ensures Accessible(sp, n, store) <==> exists a: u64 :: !Find(sp, a, n, store).Nowhere?
    ensures Accessible(sp, n, store) ==> !Find(sp, Spot(sp, n), n, store).Nowhere?
  {
    if Accessible(sp, n, store) { assert !Find(sp, Spot(sp, n), n, store).Nowhere?; }
  }

  /** An access through a register can succeed if any can; through x0 there is only one. */
  predicate CanAccess(sp: Space, i: Instr, n: nat, store: bool)
  {
    if i.rs1 != 0 then Accessible(sp, n, store) else !Find(sp, W64(i.imm), n, store).Nowhere?
  }

  /** Some state continues after the operation. */
  predicate OpContinues(sp: Space, i: Instr)
  {
    Discarded(i) ||
    match i.op
    case Jmp => false
    case JmpReg => false
    case Jalr => false
    case Ebreak => false
    case Ud2 => false
    case Beqz => i.rs1 != 0
    case Branch(c) => (c.Eq? || c.Ge? || c.Geu? ==> i.rs1 != i.rs2) && (c.Geu? ==> i.rs2 != 0)
    case Load(k) => CanAccess(sp, i, LoadBytes(k), false)
    case Store(k) => CanAccess(sp, i, StoreBytes(k), true)
    case _ => true
  }

  /** A state that does. */
  function Continuer(sp: Space, i: Instr): (g: Guest)
    requires InstrOk(i) && SpaceOk(sp)
    ensures GuestFits(sp, g)
  {
    var zero := seq(32, j => 0);
    var x := match i.op
             case Beqz => if i.rs1 != 0 then zero[i.rs1 := 1] else zero
             case Branch(c) =>
               if c.Ne? || c.Lt? || c.Ltu? then zero
               else if i.rs2 != 0 then zero[i.rs2 := 1]
               else if i.rs1 != 0 then zero[i.rs1 := TWO64 - 1] else zero
             case Load(k) => if i.rs1 != 0 then zero[i.rs1 := W64(Spot(sp, LoadBytes(k)) - i.imm)] else zero
             case Store(k) => if i.rs1 != 0 then zero[i.rs1 := W64(Spot(sp, StoreBytes(k)) - i.imm)] else zero
             case _ => zero;
    Guest(x, seq(sp.stackSize, j => 0), seq(sp.dataSize, j => 0))
  }

  lemma OpContinuesIff(sp: Space, i: Instr)
    requires InstrOk(i) && SpaceOk(sp)
    ensures OpContinues(sp, i) ==> Step(sp, i, Continuer(sp, i)).Next?
    ensures !OpContinues(sp, i) ==> forall g: Guest | GuestFits(sp, g) :: !Step(sp, i, g).Next?
  {
    if i.op.Load? { LoadContinues(sp, i); }
    else if i.op.Store? { StoreContinues(sp, i); }
    else { PlainContinues(sp, i); }
  }

  lemma PlainContinues(sp: Space, i: Instr)
    requires InstrOk(i) && SpaceOk(sp) && !i.op.Load? && !i.op.Store?
    ensures OpContinues(sp, i) ==> Step(sp, i, Continuer(sp, i)).Next?
    ensures !OpContinues(sp, i) ==> forall g: Guest | GuestFits(sp, g) :: !Step(sp, i, g).Next?
  {
    hide AluResult, AluWResult, SltResult, MulResult, DivResult, Find, Extend, SetRd, DoEcall;
  }

  lemma LoadContinues(sp: Space, i: Instr)
    requires InstrOk(i) && SpaceOk(sp) && i.op.Load?
    ensures OpContinues(sp, i) ==> Step(sp, i, Continuer(sp, i)).Next?
    ensures !OpContinues(sp, i) ==> forall g: Guest | GuestFits(sp, g) :: !Step(sp, i, g).Next?
  {
    hide AluResult, AluWResult, SltResult, MulResult, DivResult, Extend, SetRd, DoEcall, Find, Spot, SpaceOk, W64;
    var n := LoadBytes(i.op.load);
    SpotFound(sp, n, false);
    BackToSpot(sp, n, i.imm);
    if !OpContinues(sp, i) {
      forall g: Guest | GuestFits(sp, g) ensures !Step(sp, i, g).Next? { OnlyZero(g, i); }
    }
  }

  lemma StoreContinues(sp: Space, i: Instr)
    requires InstrOk(i) && SpaceOk(sp) && i.op.Store?
    ensures OpContinues(sp, i) ==> Step(sp, i, Continuer(sp, i)).Next?
    ensures !OpContinues(sp, i) ==> forall g: Guest | GuestFits(sp, g) :: !Step(sp, i, g).Next?
  {
    hide AluResult, AluWResult, SltResult, MulResult, DivResult, Extend, SetRd, DoEcall, Spot, SpaceOk, W64;
    var n := StoreBytes(i.op.store);
    SpotFound(sp, n, true);
    BackToSpot(sp, n, i.imm);
    if !OpContinues(sp, i) {
      forall g: Guest | GuestFits(sp, g) ensures !Step(sp, i, g).Next? { OnlyZero(g, i); }
    }
  }

  lemma BackToSpot(sp: Space, n: nat, imm: int)
    requires SpaceOk(sp)
    ensures W64(W64(Spot(sp, n) - imm) + imm) == Spot(sp, n)
    ensures W64(0 + imm) == W64(imm)
  {
    hide Spot;
  }

  lemma OnlyZero(g: Guest, i: Instr)
    requires |g.x| == 32 && g.x[0] == 0 && i.rs1 < 32
    ensures i.rs1 == 0 ==> W64(g.x[i.rs1] + i.imm) == W64(i.imm)
  {
  }

  /** Some state continues behind the instruction. */
  predicate CanContinue(sp: Space, ops: seq<Instr>)
  {
    |ops| == 0 || (|ops| == 1 && OpContinues(sp, ops[0]))
  }

  lemma CanContinueIff(sp: Space, dm: DataMap, pc: u64) returns (g: Guest)
    requires TextOk(sp, dm) && Known(sp, dm, pc)
    ensures GuestFits(sp, g)
    ensures CanContinue(sp, OpsAt(sp, dm, pc)) ==> Execute(sp, dm, pc, g).Next?
    ensures !CanContinue(sp, OpsAt(sp, dm, pc)) ==> forall g': Guest | GuestFits(sp, g') :: !Execute(sp, dm, pc, g').Next?
  {
    hide OpsAt, GoodOps, OpContinues, Step, Continuer, InstrOk, Known, SpaceOk;
    var ops := OpsAt(sp, dm, pc);
    var f, more := FromInstruction(sp, dm, pc);
    GroupShapes(ops, pc);
    g := Guest(seq(32, j => 0), seq(sp.stackSize, j => 0), seq(sp.dataSize, j => 0));
    if |ops| == 1 {
      assert ops == [ops[0]];
      OpContinuesIff(sp, ops[0]);
      g := Continuer(sp, ops[0]);
      forall g': Guest | GuestFits(sp, g') ensures Execute(sp, dm, pc, g') == Step(sp, ops[0], g') { RunOne(sp, ops[0], g'); }
    } else if |ops| == 2 {
      forall g': Guest | GuestFits(sp, g') ensures !Execute(sp, dm, pc, g').Next? { LinkThenJump(sp, ops, g'); }
    }
  }

  lemma LinkThenJump(sp: Space, ops: seq<Instr>, g: Guest)
    requires GuestFits(sp, g) && OpsOk(ops) && |ops| == 2 && ops[0].op.Li? && ops[1].op.Jmp?
    ensures !RunOps(sp, ops, g).Next?
  {
    hide Step;
    LiLinks(sp, ops, g);
    assert ops[1..] == [ops[1]];
    RunOne(sp, ops[1], Linked(ops, g));
    JmpJumps(sp, ops[1], Linked(ops, g));
  }

  // ---------------------------------------------------------------- running off the instructions

  /** Where no instruction follows, the code goes on all the same: at the next instruction of the text,
      or if there is none, by leaving with the address it last dispatched to. */
  lemma FallingOff(sp: Space, dm: DataMap, irs: seq<Instr>, pc: u64, at: u64, g: Guest, fuel: u64) returns (next: nat)
    requires TextOk(sp, dm) && Known(sp, dm, pc) && irs == Stream(sp, dm, 0) && GuestFits(sp, g)
    requires StreamOk(sp, irs) && DirectTargetsOk(sp, irs) && Reference.InText(sp, at) && Translated(irs, at)
    requires Execute(sp, dm, pc, g).Next? && !Known(sp, dm, After(sp, dm, pc)) && 2 <= fuel < TWO63
    ensures next <= |irs| && (next < |irs| ==> irs[next].op.FuelCheck?)
    ensures var x, g' := RunIr(sp, irs, {}, FirstAt(irs, pc, 0), at, g, fuel), Execute(sp, dm, pc, g).g;
            if next == |irs| then Resume(sp, irs, x) == Dispatch(sp, irs, at, g', fuel - 1)
            else next == FirstAt(irs, irs[next].pc, 0) && x == RunIr(sp, irs, {}, next, at, g', fuel - 1)
  {
    hide Stream, Starts, Fetch, FirstAt, OpsAt, After, StreamOk, DirectTargetsOk, Dispatch, Translated, Known, Execute, Step, TextOk;
    next := StayStep(sp, dm, irs, {}, pc, at, g, fuel);
    if next < |irs| {
      GroupStarts(sp, irs, next);
    } else {
      EndOfCode(sp, irs, at, Execute(sp, dm, pc, g).g, fuel - 1);
      assert at != 0 by { TextAboveZero(sp, dm, at); }
    }
  }

  lemma TextAboveZero(sp: Space, dm: DataMap, at: u64)
    requires TextOk(sp, dm) && Reference.InText(sp, at)
    ensures at != 0
  {
  }

  lemma GroupStarts(sp: Space, irs: seq<Instr>, i: nat)
    requires StreamOk(sp, irs) && i < |irs| && irs[i].op.FuelCheck?
    ensures FirstAt(irs, irs[i].pc, 0) == i
  {
    CodeGen.StreamAt(sp, irs, i);
  }

  lemma EndOfCode(sp: Space, irs: seq<Instr>, at: u64, g: Guest, fuel: u64)
    requires StreamOk(sp, irs) && DirectTargetsOk(sp, irs) && GuestFits(sp, g)
    ensures RunIr(sp, irs, {}, |irs|, at, g, fuel) == Left(g, at, fuel)
  {
    hide StreamOk, DirectTargetsOk;
  }

  /** The guest machine ends there, so the two differ. */
  lemma FallingOffDiffers(sp: Space, dm: DataMap, irs: seq<Instr>, pc: u64, g: Guest)
    requires TextOk(sp, dm) && Known(sp, dm, pc) && irs == Stream(sp, dm, 0) && GuestFits(sp, g)
    requires StreamOk(sp, irs) && DirectTargetsOk(sp, irs) && Translated(irs, pc)
    requires Execute(sp, dm, pc, g).Next? && !Known(sp, dm, After(sp, dm, pc))
    ensures Dispatch(sp, irs, pc, g, 2).outcome == Outcome.Faulted(Timeout)
    ensures var o := Interpret(sp, dm, pc, g, 2).outcome; o.Returned? || o.BadPc?
  {
    hide Stream, Starts, Fetch, FirstAt, OpsAt, After, StreamOk, DirectTargetsOk, Dispatch, Translated, Execute, RunIr, Step, Interpret;
    KnownInText(sp, dm, pc);
    DispatchResumes(sp, irs, pc, g, 2);
    var next := FallingOff(sp, dm, irs, pc, pc, g, 2);
    var g' := Execute(sp, dm, pc, g).g;
    if next == |irs| {
      DispatchResumes(sp, irs, pc, g', 1);
      var i := StayStep(sp, dm, irs, {}, pc, pc, g', 1);
    } else {
      NothingArmed(irs, next);
      FuelStep(sp, irs, {}, next, pc, g', 1);
    }
    StepsOff(sp, dm, pc, g);
  }

  lemma NothingArmed(irs: seq<Instr>, i: nat)
    requires i < |irs|
    ensures !Hits(irs, {}, i)
  {
  }

  lemma StepsOff(sp: Space, dm: DataMap, pc: u64, g: Guest)
    requires TextOk(sp, dm) && Known(sp, dm, pc) && GuestFits(sp, g)
    requires Execute(sp, dm, pc, g).Next? && !Known(sp, dm, After(sp, dm, pc))
    ensures var o := Interpret(sp, dm, pc, g, 2).outcome; o.Returned? || o.BadPc?
  {
    hide Known, Execute, After;
    assert Interpret(sp, dm, pc, g, 2) == Interpret(sp, dm, After(sp, dm, pc), Execute(sp, dm, pc, g).g, 1);
  }

  // ---------------------------------------------------------------- the condition

  /** What is asked of the instruction at pc: its jump stays in the text or is never taken, and an
      instruction follows unless no state continues. */
  predicate Harmless(sp: Space, dm: DataMap, pc: u64)
    requires TextOk(sp, dm) && Known(sp, dm, pc)
  {
    JumpStays(sp, dm, pc) && (CanContinue(sp, OpsAt(sp, dm, pc)) ==> Known(sp, dm, After(sp, dm, pc)))
  }

  ghost predicate AllHarmless(sp: Space, dm: DataMap)
    requires TextOk(sp, dm)
  {
    forall pc: u64 | Known(sp, dm, pc) :: Harmless(sp, dm, pc)
  }

  /** Closed programs are of this kind. */
  lemma ClosedHarmless(sp: Space, dm: DataMap)
    requires TextOk(sp, dm) && Closed(sp, dm)
    ensures AllHarmless(sp, dm)
  {
    hide Known, OpsAt, After, CanTake, OpContinues;
    forall pc: u64 | Known(sp, dm, pc) ensures Harmless(sp, dm, pc) {
      assert ClosedAt(sp, dm, pc);
      var ops := OpsAt(sp, dm, pc);
      if JumpsLast(ops) {
        assert IsDirectJump(ops[|ops| - 1].op);
        KnownInText(sp, dm, W64(JumpOf(ops).imm));
      }
      if CanContinue(sp, ops) { ContinuesFallsThrough(sp, ops); }
    }
  }

  lemma ContinuesFallsThrough(sp: Space, ops: seq<Instr>)
    requires CanContinue(sp, ops) && OpsOk(ops)
    ensures FallsThrough(ops)
  {
    hide Find, Accessible;
  }

  lemma HarmlessStays(sp: Space, dm: DataMap, irs: seq<Instr>, pc: u64)
    requires TextOk(sp, dm) && Known(sp, dm, pc) && irs == Stream(sp, dm, 0) && StreamOk(sp, irs) && DirectTargetsOk(sp, irs)
    requires Harmless(sp, dm, pc)
    ensures StaysAt(sp, dm, pc)
  {
    hide Stream, OpsAt, After, StreamOk, DirectTargetsOk, Known, CanContinue, JumpStays, Execute;
    var h := CanContinueIff(sp, dm, pc);
    forall g: Guest | GuestFits(sp, g) ensures StaysFrom(sp, dm, pc, g) {
      JumpsKnown(sp, dm, irs, pc, g);
    }
  }

  /** A program is run faithfully from every instruction, for all states and fuels, if and only if all
      its instructions are harmless. */
  lemma FaithfulIff(sp: Space, dm: DataMap, irs: seq<Instr>)
    requires TextOk(sp, dm) && irs == Stream(sp, dm, 0) && StreamOk(sp, irs) && DirectTargetsOk(sp, irs)
    ensures (forall pc: u64 | Known(sp, dm, pc) :: Translated(irs, pc) && FaithfulFrom(sp, dm, irs, pc)) <==> AllHarmless(sp, dm)
  {
    hide Stream, OpsAt, After, StreamOk, DirectTargetsOk, FaithfulFrom, Translated, Known, StaysAt, Harmless;
    forall pc: u64 | Known(sp, dm, pc) ensures Translated(irs, pc) { KnownTranslated(sp, dm, irs, pc); }
    if AllHarmless(sp, dm) {
      forall pc: u64 | Known(sp, dm, pc) ensures StaysAt(sp, dm, pc) { HarmlessStays(sp, dm, irs, pc); }
      forall pc: u64 | Known(sp, dm, pc) ensures FaithfulFrom(sp, dm, irs, pc) { StayingIsFaithful(sp, dm, irs, pc); }
    } else {
      var pc: u64 :| Known(sp, dm, pc) && !Harmless(sp, dm, pc);
      HarmfulDiffers(sp, dm, irs, pc);
    }
  }

  lemma HarmfulDiffers(sp: Space, dm: DataMap, irs: seq<Instr>, pc: u64)
    requires TextOk(sp, dm) && Known(sp, dm, pc) && irs == Stream(sp, dm, 0) && StreamOk(sp, irs) && DirectTargetsOk(sp, irs)
    requires Translated(irs, pc) && !Harmless(sp, dm, pc)
    ensures !FaithfulFrom(sp, dm, irs, pc)
  {
    hide Stream, OpsAt, After, StreamOk, DirectTargetsOk, Translated, Known, JumpStays, CanContinue, Dispatch, Interpret, Execute;
    if JumpStays(sp, dm, pc) {
      var g := CanContinueIff(sp, dm, pc);
      FallingOffDiffers(sp, dm, irs, pc, g);
    } else {
      Unfaithful(sp, dm, irs, pc);
    }
  }
}
