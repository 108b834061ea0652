/** riscv_jit_call with a debugger attached: one round of the loop per stay in the code. */
module DebugLoop {
  import opened Words
  import opened X86
  import opened LoweringOps
  import opened Assembler
  import opened Reference
  import opened Program
  import opened LoweringShape
  import opened Simulation
  import opened Breakpoints
  import opened DebugCode
  import opened Dispatcher
  import opened DebugSpec
  import Ir

  /** After a round: another stay from a code offset, or the end of the call. */
  datatype Round = Again(offset: nat) | Ended(outcome: Dispatcher.Outcome) | Left

  function StatusOf(r: Round): Status
  {
    match r
    case Again(_) => Going
    case Ended(outcome) => End(outcome)
    case Left => Detached
  }

  class DebugMachine {
    const e: Env
    const patcher: Patcher
    var h: Host
    var stepping: bool

    constructor (e: Env, patcher: Patcher, h: Host, ghost irs: seq<Ir.Instr>)
      requires Over(patcher, e, irs) && HostOk(e, h) && e.codeAt + patcher.exec.Length < TWO64
      ensures Valid(irs) && this.e == e && this.patcher == patcher && this.h == h && !stepping
    {
      this.e, this.patcher, this.h, this.stepping := e, patcher, h, false;
    }

    ghost predicate Valid(irs: seq<Ir.Instr>)
      reads this, patcher, patcher.exec
    {
      Over(patcher, e, irs) && HostOk(e, h) && e.codeAt + patcher.exec.Length < TWO64
    }

    /** The call as the debugger sees it. */
    ghost function State(): Debuggee
      reads this, patcher
    {
      Debuggee(h.cpu.pc, GuestOf(h), h.cpu.fuel, patcher.TheTable(), patcher.Lifted(), stepping)
    }

    lemma Arms()
      requires patcher.Valid()
      ensures ArmedPcs(patcher.bps, patcher.temp) == ArmedIn(State()) && (Borrowed(State()) <==> stepping || patcher.temp >= 0)
    {
      hide Overlay, MapApart, patcher.StubsFor, EntryOk, SlotsOf;
      forall pc: u64 ensures pc in ArmedPcs(patcher.bps, patcher.temp) <==> pc in ArmedIn(State()) {
        SlotUsed(patcher.bps, pc);
        InPcs(State().table, pc);
      }
    }

    /** What the machine does with the patched code. */
    lemma EnterRuns(offset: nat, irs: seq<Ir.Instr>, i: nat) returns (n: nat, c: Conf)
      requires Valid(irs) && Entering(e, h) && i <= |irs| && offset == CodeAt(e, irs, i) && offset <= patcher.exec.Length
      ensures StreamOk(e.sp, irs) && DirectTargetsOk(e.sp, irs) && GuestFits(e.sp, GuestOf(h)) && e.codeAt + offset < TWO64
      ensures Steps(e, patcher.exec[..], n, At(0, Prepared(e, h, e.codeAt + offset))) == c && !c.At? && !c.Crashed?
      ensures c.Finished? ==> HostOk(e, c.h)
      ensures Back(e, c, Meaning(e, irs, ArmedPcs(patcher.bps, patcher.temp), i, h), h, h.r, h.native)
    {
      hide Loaded, Meaning, Back, Steps, CodeAt, Compilable, Over, ArmedPcs, Covered, CodeBytes, EnvOk, MapOk, AtCall, patcher.Valid, StreamOk,
           DirectTargetsOk;
      OverParts(patcher, e, irs);
      OverlayLoaded(patcher, e, irs);
      CodeFits(patcher, e, irs);
      var armed, code := ArmedPcs(patcher.bps, patcher.temp), patcher.exec[..];
      LoadedShape(e, irs, code, armed, h);
      PreparedCalls(e, irs, code, armed, h, Prepared(e, h, e.codeAt + offset));
      AllCovered(e, irs, |code|, Meaning(e, irs, armed, i, h));
      n, c := CallFrom(e, irs, code, armed, i, h, Prepared(e, h, e.codeAt + offset));
    }

    /** One call of the trampoline into the patched code. */
    method Enter(offset: nat, ghost irs: seq<Ir.Instr>, ghost i: nat) returns (alive: bool)
      requires Valid(irs) && Entering(e, h) && i <= |irs| && offset == CodeAt(e, irs, i) && offset <= patcher.exec.Length
      modifies `h
      ensures Valid(irs) && old(GuestFits(e.sp, GuestOf(h)))
      ensures Back(e, if alive then Finished(h) else Signalled,
                   old(Meaning(e, irs, ArmedPcs(patcher.bps, patcher.temp), i, h)), old(h), old(h.r), old(h.native))
    {
      hide Meaning, Back, Steps, CodeAt, Over, ArmedPcs;
      ghost var n, c := EnterRuns(offset, irs, i);
      var code := patcher.exec[..];
      h := Prepared(e, h, e.codeAt + offset);
      alive, h := RunCode(e, code, 0, h, n);
    }

    /** The next stay can start at the address in the cpu record. */
    ghost predicate Resumable(irs: seq<Ir.Instr>, offset: nat)
      requires Compilable(e, irs)
      reads `h
    {
      Entering(e, h) && Translated(irs, h.cpu.pc) && InText(e.sp, h.cpu.pc) &&
      offset == CodeAt(e, irs, FirstAt(irs, h.cpu.pc, 0)) && offset <= patcher.exec.Length
    }

    lemma Lookup(irs: seq<Ir.Instr>, pc: u64)
      requires Over(patcher, e, irs) && Compilable(e, irs)
      ensures |patcher.pcMap| == |e.sp.text|
      ensures InText(e.sp, pc) && !Translated(irs, pc) ==> patcher.pcMap[pc - e.sp.textAddr] == 0
      ensures InText(e.sp, pc) && Translated(irs, pc) ==>
                0 < patcher.pcMap[pc - e.sp.textAddr] == CodeAt(e, irs, FirstAt(irs, pc, 0)) <= patcher.exec.Length
    {
      hide Over, Compilable, CodeAt, Translated, MapOk, Overlay, Loaded, FrameInstalled, FirstAt, patcher.Valid;
      OverParts(patcher, e, irs);
      CompiledLoaded(patcher, e, irs);
      MapLooksUp(e, irs, patcher.code, patcher.pcMap, pc);
    }

    /** The code of the address to go on from; the end of the call if there is none. */
    method Resume(ghost irs: seq<Ir.Instr>) returns (r: Round)
      requires Valid(irs) && Compilable(e, irs) && Entering(e, h)
      ensures r == if InText(e.sp, h.cpu.pc) && Translated(irs, h.cpu.pc) then Again(CodeAt(e, irs, FirstAt(irs, h.cpu.pc, 0)))
                   else Ended(BadPc)
      ensures r.Again? ==> Resumable(irs, r.offset)
    {
      hide Over, Compilable, CodeAt, Translated, MapOk, FirstAt;
      Lookup(irs, h.cpu.pc);
      if !(e.sp.textAddr <= h.cpu.pc < e.sp.textAddr + |e.sp.text|) {
        return Ended(BadPc);
      }
      var offset := patcher.pcMap[h.cpu.pc - e.sp.textAddr];
      if offset == 0 {
        return Ended(BadPc);
      }
      return Again(offset);
    }

    /** A stop: every breakpoint is armed before the debugger is heard. */
    method OnStop(stop: Stop, ghost irs: seq<Ir.Instr>) returns (goOn: bool)
      requires Valid(irs)
      modifies patcher, patcher.exec, `stepping
      ensures Valid(irs) && patcher.temp == -1 && goOn == !stop.resume.Detach?
      ensures State() == Stopped(patcher.TheLayout(), old(State()), stop).0
    {
      hide EnvOk, Compilable, StreamOk, DirectTargetsOk, MapOk, Image, CodeAt, CodeBytes, patcher.Sound, AllObeyed, SlotsOf;
      patcher.OnStop(stop.commands);
      if stop.resume.Detach? {
        return false;
      }
      stepping := stop.resume.SingleStep?;
      return true;
    }

    /** A breakpoint was hit: stop, then let its instruction run. */
    method AfterBreak(stop: Stop, ghost irs: seq<Ir.Instr>) returns (r: Round)
      requires Valid(irs) && Compilable(e, irs) && h.cpu.fault == FAULT_DEBUG && Translated(irs, h.cpu.pc) && InText(e.sp, h.cpu.pc)
      requires h.cpu.x[0] == 0 && h.cpu.stackMem == e.stackAt && h.cpu.stackSize == e.sp.stackSize
      modifies this, patcher, patcher.exec
      ensures Valid(irs) && h == old(h).(cpu := old(h).cpu.(fault := 0))
      ensures (State(), StatusOf(r)) == DebugSpec.AfterBreak(patcher.TheLayout(), old(State()), stop)
      ensures r.Again? ==> Resumable(irs, r.offset)
    {
      hide EnvOk, Compilable, StreamOk, DirectTargetsOk, MapOk, Image, CodeAt, CodeBytes, patcher.Sound, Translated, AllObeyed, SlotsOf;
      h := h.(cpu := h.cpu.(fault := 0));
      var goOn := OnStop(stop, irs);
      if !goOn {
        return Round.Left;
      }
      SlotUsed(patcher.bps, h.cpu.pc);
      var found := patcher.TempUnpatch(h.cpu.pc);
      r := Resume(irs);
    }

    /** A borrowed step ran out: the breakpoint stepped over is armed again, and a step the user
        asked for stops. */
    method AfterStep(stop: Stop, ghost irs: seq<Ir.Instr>) returns (r: Round)
      requires Valid(irs) && Compilable(e, irs) && Translated(irs, h.cpu.pc) && InText(e.sp, h.cpu.pc)
      requires h.cpu.x[0] == 0 && h.cpu.stackMem == e.stackAt && h.cpu.stackSize == e.sp.stackSize
      modifies this, patcher, patcher.exec
      ensures Valid(irs) && h == old(h).(cpu := old(h).cpu.(fault := 0))
      ensures (State(), StatusOf(r)) == DebugSpec.AfterStep(patcher.TheLayout(), old(State()), stop)
      ensures r.Again? ==> Resumable(irs, r.offset)
    {
      hide EnvOk, Compilable, StreamOk, DirectTargetsOk, MapOk, Image, CodeAt, CodeBytes, patcher.Sound, Translated, AllObeyed, SlotsOf;
      h := h.(cpu := h.cpu.(fault := 0));
      var wasUserStep := stepping;
      stepping := false;
      if patcher.temp >= 0 {
        patcher.RepatchPc(patcher.bps[patcher.temp].pc);
      }
      if wasUserStep {
        var goOn := OnStop(stop, irs);
        if !goOn {
          return Round.Left;
        }
      }
      r := Resume(irs);
    }

    /** Under the debugger a fault is reported and ends the call. */
    method AfterFault(stop: Stop, ghost irs: seq<Ir.Instr>) returns (r: Round)
      requires Valid(irs) && 1 <= h.cpu.fault <= 3
      modifies patcher, patcher.exec, `stepping
      ensures Valid(irs) && State() == Stopped(patcher.TheLayout(), old(State()), stop).0
      ensures r == Ended(Dispatcher.Outcome.Faulted(KindOfFault(h.cpu.fault)))
    {
      var goOn := OnStop(stop, irs);
      return Ended(Dispatcher.Outcome.Faulted(KindOfFault(h.cpu.fault)));
    }

    /** The code was left for the address in the cpu record. The debugger may break in. */
    method AfterLeft(breakIn: Option<Stop>, ghost irs: seq<Ir.Instr>) returns (r: Round)
      requires Valid(irs) && Compilable(e, irs) && Entering(e, h) && GuestFits(e.sp, GuestOf(h))
      modifies patcher, patcher.exec, `stepping
      ensures Valid(irs)
      ensures (State(), StatusOf(r)) == DebugSpec.AfterLeft(patcher.TheLayout(), e.sp, irs, old(State()), breakIn)
      ensures r.Again? ==> Resumable(irs, r.offset)
    {
      hide EnvOk, Compilable, StreamOk, DirectTargetsOk, MapOk, Image, CodeAt, CodeBytes, patcher.Valid, Translated, FirstAt, AllObeyed, SlotsOf;
      if h.cpu.pc == 0 {
        return Ended(Returned(h.cpu.x[10]));
      }
      r := Resume(irs);
      if r.Again? && breakIn.Some? {
        var goOn := OnStop(breakIn.value, irs);
        if !goOn {
          return Round.Left;
        }
      }
    }

    /** One round of the loop: a stay in the patched code, on borrowed fuel if a step is wanted or
        a breakpoint is being stepped over, and what follows. */
    method RunRound(offset: nat, stop: Stop, breakIn: Option<Stop>, ghost irs: seq<Ir.Instr>) returns (r: Round)
      requires Valid(irs) && Compilable(e, irs) && Resumable(irs, offset) && Runnable(e.sp, irs, State())
      modifies this, patcher, patcher.exec
      ensures Valid(irs)
      ensures StatusOf(r) == old(DebugSpec.Round(patcher.TheLayout(), e.sp, irs, State(), Input(stop, breakIn))).1
      ensures r != Ended(Killed) ==>
                && State() == old(DebugSpec.Round(patcher.TheLayout(), e.sp, irs, State(), Input(stop, breakIn))).0
                && Restored(h, old(h.r), old(h.native))
      ensures r.Again? ==> Resumable(irs, r.offset)
    {
      hide EnvOk, Compilable, StreamOk, DirectTargetsOk, MapOk, Image, CodeAt, CodeBytes, patcher.Valid, Translated, FirstAt, RunIr;
      hide Overlay, ArmedPcs, FaultCode, AllObeyed, SlotsOf, ArmedIn;
      var debugging := stepping || patcher.temp >= 0;
      var savedFuel := h.cpu.fuel;
      ghost var x := Stay(e.sp, irs, State());
      ghost var i := FirstAt(irs, h.cpu.pc, 0);
      Arms();
      StopsTranslated(e.sp, irs, ArmedIn(State()), i, h.cpu.pc, GuestOf(h), Budget(State()));
      if debugging {
        h := h.(cpu := h.cpu.(fuel := STEP_FUEL));
      }
      var alive := Enter(offset, irs, i);
      if !alive {
        return Ended(Killed);
      }
      if debugging {
        h := h.(cpu := h.cpu.(fuel := savedFuel));
      }
      FaultCodes(x);
      assert State() == Moved(old(State()), x);
      if h.cpu.fault == FAULT_DEBUG {
        r := AfterBreak(stop, irs);
      } else if h.cpu.fault == 1 && debugging {
        r := AfterStep(stop, irs);
      } else if h.cpu.fault != 0 {
        r := AfterFault(stop, irs);
      } else {
        r := AfterLeft(breakIn, irs);
      }
    }

    /** The dispatcher's loop under the debugger, as long as there is input. */
    method Loop(offset: nat, inputs: seq<Input>, ghost irs: seq<Ir.Instr>) returns (r: Round)
      requires Valid(irs) && Compilable(e, irs) && Resumable(irs, offset) && Runnable(e.sp, irs, State())
      modifies this, patcher, patcher.exec
      ensures Valid(irs)
      ensures var (d, s) := old(Rounds(patcher.TheLayout(), e.sp, irs, State(), inputs));
              StatusOf(r) == s && (s != End(Killed) ==> State() == d && Restored(h, old(h.r), old(h.native)))
      ensures r.Again? ==> Resumable(irs, r.offset)
    {
      hide EnvOk, Compilable, StreamOk, DirectTargetsOk, MapOk, Image, CodeAt, CodeBytes, Valid, State, Resumable, DebugSpec.Round;
      ghost var l, d := patcher.TheLayout(), State();
      r := Again(offset);
      var i := 0;
      while i < |inputs| && r.Again?
        invariant i <= |inputs| && Valid(irs) && patcher.TheLayout() == l && (r.Again? ==> Resumable(irs, r.offset))
        invariant var (d', s) := Rounds(l, e.sp, irs, d, inputs[..i]);
                  StatusOf(r) == s && (s != End(Killed) ==> State() == d' && Restored(h, old(h.r), old(h.native)))
        invariant r.Again? || Rounds(l, e.sp, irs, d, inputs) == Rounds(l, e.sp, irs, d, inputs[..i])
      {
        r := RunRound(r.offset, inputs[i].stop, inputs[i].breakIn, irs);
        assert inputs[..i + 1][..i] == inputs[..i];
        i := i + 1;
        if !r.Again? { EndedEarly(l, e.sp, irs, d, inputs, i); }
      }
      assert inputs[..|inputs|] == inputs;
    }

    /** riscv_jit_call with a debugger attached. */
    method Call(entry: u64, argv: seq<u64>, first: Stop, inputs: seq<Input>, ghost irs: seq<Ir.Instr>) returns (r: Round)
      requires Valid(irs) && Compilable(e, irs)
      modifies this, patcher, patcher.exec
      ensures Valid(irs)
      ensures entry == 0 || !InText(e.sp, entry) || !Translated(irs, entry) ==> r == Ended(BadPc) && State() == old(State())
      ensures entry != 0 && InText(e.sp, entry) && Translated(irs, entry) ==>
                var start := old(State()).(pc := entry, g := Ir.Guest(StartRegs(e.sp, argv), old(h.stack), old(h.data)), fuel := INITIAL_FUEL);
                Runnable(e.sp, irs, start) &&
                var (d, s) := Called(patcher.TheLayout(), e.sp, irs, start, first, inputs);
                StatusOf(r) == s && (s != End(Killed) ==> State() == d && Restored(h, old(h.r), old(h.native)))
    {
      hide EnvOk, Compilable, StreamOk, DirectTargetsOk, MapOk, Image, CodeAt, CodeBytes, Translated, Rounds, patcher.Valid;
      hide FirstAt, AllObeyed, SlotsOf;
      OverParts(patcher, e, irs);
      Lookup(irs, entry);
      if entry == 0 || !(e.sp.textAddr <= entry < e.sp.textAddr + |e.sp.text|) {
        return Ended(BadPc);
      }
      var offset := patcher.pcMap[entry - e.sp.textAddr];
      if offset == 0 {
        return Ended(BadPc);
      }
      h := h.(cpu := Cpu(StartRegs(e.sp, argv), entry, INITIAL_FUEL, 0, e.stackAt, e.sp.stackSize));
      var goOn := OnStop(first, irs);
      if !goOn {
        return Round.Left;
      }
      r := Loop(offset, inputs, irs);
    }
  }

  /** Rounds that have ended are not run again. */
  lemma {:induction false} EndedEarly(l: Layout, sp: Ir.Space, irs: seq<Ir.Instr>, d: Debuggee, inputs: seq<Input>, i: nat)
    requires Runnable(sp, irs, d) && i <= |inputs| && !Rounds(l, sp, irs, d, inputs[..i]).1.Going?
    ensures Rounds(l, sp, irs, d, inputs) == Rounds(l, sp, irs, d, inputs[..i])
    decreases |inputs|
  {
    hide Runnable, DebugSpec.Round;
    if i == |inputs| {
      assert inputs[..i] == inputs;
    } else {
      var init := inputs[..|inputs| - 1];
      assert init[..i] == inputs[..i];
      EndedEarly(l, sp, irs, d, init, i);
    }
  }

  /** The fault codes of the ways a stay can end are told apart. */
  lemma FaultCodes(x: Exit)
    requires !x.Trap?
    ensures FaultOf(x) == FAULT_DEBUG <==> x.Break?
    ensures FaultOf(x) == 0 <==> x.Left?
    ensures x.Fault? ==> 1 <= FaultOf(x) <= 3 && KindOfFault(FaultOf(x)) == x.kind && (FaultOf(x) == 1 <==> x.kind.Timeout?)
  {
  }

  lemma OverParts(p: Patcher, e: Env, irs: seq<Ir.Instr>)
    requires Over(p, e, irs)
    ensures EnvOk(e) && Compilable(e, irs) && StreamOk(e.sp, irs) && DirectTargetsOk(e.sp, irs) && p.Valid()
    ensures MapOk(e, irs, p.pcMap) && p.textAddr == e.sp.textAddr && e.sp.stackSize < TWO63
  {
    hide Compilable, StreamOk, DirectTargetsOk, p.Valid, MapOk;
  }
}
