/** Whole calls under the debugger: whatever it does with breakpoints and steps, the guest stays on
    its own path, and its fuel is charged for what runs between the steps. */
module DebugRun {
  import opened Words
  import opened Ir
  import opened Reference
  import opened Translate
  import opened Isa
  import opened Breakpoints
  import opened Debug
  import opened DebugSpec
  import opened Decode
  import Dispatcher
  import Jit

  /** The program is closed, and this is its stream. */
  ghost predicate Compiled(sp: Space, dm: DataMap, irs: seq<Instr>)
  {
    TextOk(sp, dm) && Closed(sp, dm) && irs == Stream(sp, dm, 0)
  }

  // ---------------------------------------------------------------- one round

  /** How many instructions complete in the stay of a round. */
  ghost function Steps(sp: Space, dm: DataMap, d: Debuggee): nat
    requires TextOk(sp, dm) && GuestFits(sp, d.g)
  {
    StaySteps(sp, dm, ArmedIn(d), d.pc, d.g, Budget(d))
  }

  /** A call that ends, ends as the guest does at this point of its path. Only a timeout is the
      host's doing. */
  ghost predicate EndsAsGuest(sp: Space, dm: DataMap, o: Dispatcher.Outcome, pc: u64, g: Guest)
    requires TextOk(sp, dm) && GuestFits(sp, g)
  {
    match o
    case Returned(v) => pc == 0 && v == g.x[10]
    case BadPc => pc != 0 && !Known(sp, dm, pc)
    case Killed => Known(sp, dm, pc) && Execute(sp, dm, pc, g).Trapped?
    case Faulted(kind) => kind.Timeout? || (Known(sp, dm, pc) && Execute(sp, dm, pc, g) == Effect.Faulted(kind))
    case Debugged => false
  }

  /** The stay of a round goes along the guest's path. */
  lemma StayPath(sp: Space, dm: DataMap, irs: seq<Instr>, d: Debuggee)
    requires Compiled(sp, dm, irs) && Runnable(sp, irs, d)
    ensures Known(sp, dm, d.pc)
    ensures var x := Stay(sp, irs, d);
            && OnPath(sp, dm, ArmedIn(d), d.pc, d.g, Budget(d), Steps(sp, dm, d), x)
            && (x.Left? ==> (Known(sp, dm, x.pc) <==> x.pc != 0 && Reference.InText(sp, x.pc) && Translated(irs, x.pc)))
  {
    hide Known, Closed, Stream, StreamOk, DirectTargetsOk, RunIr, FirstAt, OnPath, Translated, StaySteps, ArmedIn;
    KnownTranslated(sp, dm, irs, d.pc);
    StayWalks(sp, dm, irs, ArmedIn(d), d.pc, d.pc, d.g, Budget(d));
    var x := Stay(sp, irs, d);
    if x.Left? {
      KnownTranslated(sp, dm, irs, x.pc);
      if Known(sp, dm, x.pc) { KnownInText(sp, dm, x.pc); }
    }
  }

  /** A round moves the guest along its path, and ends the call only where the guest would. */
  lemma RoundPath(l: Layout, sp: Space, dm: DataMap, irs: seq<Instr>, d: Debuggee, input: Input)
    requires Compiled(sp, dm, irs) && Runnable(sp, irs, d)
    ensures var (d', s), w := Round(l, sp, irs, d, input), Walk(sp, dm, d.pc, d.g, Steps(sp, dm, d));
            && w.Some? && (s != End(Dispatcher.Killed) ==> w.value == (d'.pc, d'.g))
            && (s.End? ==> EndsAsGuest(sp, dm, s.outcome, w.value.0, w.value.1))
  {
    hide Closed, Stream, StreamOk, DirectTargetsOk, RunIr, FirstAt, Translated, StaySteps, ArmedIn, Walk, Known, Execute, AllObeyed, Stay;
    StayPath(sp, dm, irs, d);
    var x := Stay(sp, irs, d);
  }

  lemma StayArmed(sp: Space, dm: DataMap, armed: set<u64>, pc: u64, g: Guest, fuel: u64)
    requires TextOk(sp, dm) && GuestFits(sp, g) && pc in armed
    ensures StaySteps(sp, dm, armed, pc, g, fuel) == 0
  {
  }

  lemma StepsOfTwo(sp: Space, dm: DataMap, armed: set<u64>, pc: u64, g: Guest)
    requires TextOk(sp, dm) && GuestFits(sp, g)
    ensures StaySteps(sp, dm, armed, pc, g, 2) <= 1
  {
    hide Execute, Known, After;
  }

  /** From an address that is not armed a stay completes an instruction, or its first one is where
      it faults. */
  lemma StayMoves(sp: Space, dm: DataMap, irs: seq<Instr>, armed: set<u64>, pc: u64, at: u64, g: Guest, fuel: u64)
    requires Compiled(sp, dm, irs) && Known(sp, dm, pc) && GuestFits(sp, g) && StreamOk(sp, irs) && DirectTargetsOk(sp, irs)
    requires pc !in armed && StaySteps(sp, dm, armed, pc, g, fuel) == 0
    ensures var x := RunIr(sp, irs, armed, FirstAt(irs, pc, 0), at, g, fuel); x.Trap? || (x.Fault? && (fuel == 2 ==> !x.kind.Timeout?))
  {
    hide Closed, Stream, StreamOk, DirectTargetsOk, FirstAt, Known, Execute, RunIr, After;
    var next := StayStep(sp, dm, irs, armed, pc, at, g, fuel);
    NeverTimesOut(sp, dm, pc, g);
  }

  /** From an address that is not armed every round completes an instruction, or the call ends; on
      borrowed fuel it completes exactly one. */
  lemma RoundMoves(l: Layout, sp: Space, dm: DataMap, irs: seq<Instr>, d: Debuggee, input: Input)
    requires Compiled(sp, dm, irs) && Runnable(sp, irs, d) && !Round(l, sp, irs, d, input).1.End?
    ensures Steps(sp, dm, d) == 0 <==> d.pc in ArmedIn(d)
    ensures d.pc !in ArmedIn(d) && Borrowed(d) ==> Steps(sp, dm, d) == 1
  {
    hide Closed, Stream, StreamOk, DirectTargetsOk, FirstAt, Translated, ArmedIn, Known, StaySteps, AllObeyed, RunIr;
    StayPath(sp, dm, irs, d);
    if d.pc in ArmedIn(d) {
      StayArmed(sp, dm, ArmedIn(d), d.pc, d.g, Budget(d));
    } else {
      StepsOfTwo(sp, dm, ArmedIn(d), d.pc, d.g);
      if Steps(sp, dm, d) == 0 { StayMoves(sp, dm, irs, ArmedIn(d), d.pc, d.pc, d.g, Budget(d)); }
    }
  }

  // ---------------------------------------------------------------- any number of rounds

  /** How many instructions complete over the rounds. */
  ghost function TotalSteps(l: Layout, sp: Space, dm: DataMap, irs: seq<Instr>, d: Debuggee, inputs: seq<Input>): nat
    requires TextOk(sp, dm) && Runnable(sp, irs, d)
  {
    if inputs == [] then 0
    else
      var init := inputs[..|inputs| - 1];
      var (d', s) := Rounds(l, sp, irs, d, init);
      TotalSteps(l, sp, dm, irs, d, init) + if s.Going? then Steps(sp, dm, d') else 0
  }

  /** Those that complete in stays on the call's own fuel. */
  ghost function OwnSteps(l: Layout, sp: Space, dm: DataMap, irs: seq<Instr>, d: Debuggee, inputs: seq<Input>): nat
    requires TextOk(sp, dm) && Runnable(sp, irs, d)
  {
    if inputs == [] then 0
    else
      var init := inputs[..|inputs| - 1];
      var (d', s) := Rounds(l, sp, irs, d, init);
      OwnSteps(l, sp, dm, irs, d, init) + if s.Going? && !Borrowed(d') then Steps(sp, dm, d') else 0
  }

  /** Rounds under the debugger, whatever it sets, removes, steps or breaks into: the guest goes
      through the states it goes through by itself, and the call ends only where it would end. */
  lemma {:induction false} RunPath(l: Layout, sp: Space, dm: DataMap, irs: seq<Instr>, d: Debuggee, inputs: seq<Input>)
    requires Compiled(sp, dm, irs) && Runnable(sp, irs, d)
    ensures var (d', s), w := Rounds(l, sp, irs, d, inputs), Walk(sp, dm, d.pc, d.g, TotalSteps(l, sp, dm, irs, d, inputs));
            && w.Some? && (s != End(Dispatcher.Killed) ==> w.value == (d'.pc, d'.g))
            && (s.End? ==> EndsAsGuest(sp, dm, s.outcome, w.value.0, w.value.1))
    decreases |inputs|
  {
    hide TextOk, Closed, Stream, StreamOk, DirectTargetsOk, Translated, Round, Steps, Walk, EndsAsGuest;
    if inputs != [] {
      var init := inputs[..|inputs| - 1];
      RunPath(l, sp, dm, irs, d, init);
      var (d', s) := Rounds(l, sp, irs, d, init);
      if s.Going? {
        RoundPath(l, sp, dm, irs, d', inputs[|inputs| - 1]);
        WalkOn(sp, dm, d.pc, d.g, TotalSteps(l, sp, dm, irs, d, init), Steps(sp, dm, d'));
      }
    } else {
      NoSteps(sp, dm, d);
    }
  }

  lemma NoSteps(sp: Space, dm: DataMap, d: Debuggee)
    requires TextOk(sp, dm) && GuestFits(sp, d.g)
    ensures Walk(sp, dm, d.pc, d.g, 0) == Some((d.pc, d.g))
  {
  }

  /** The same for a whole call, with the stop before its first instruction. */
  lemma CallPath(l: Layout, sp: Space, dm: DataMap, irs: seq<Instr>, d: Debuggee, first: DebugSpec.Stop, inputs: seq<Input>) returns (n: nat)
    requires Compiled(sp, dm, irs) && Runnable(sp, irs, d)
    ensures var (d', s), w := Called(l, sp, irs, d, first, inputs), Walk(sp, dm, d.pc, d.g, n);
            && w.Some? && (s != End(Dispatcher.Killed) ==> w.value == (d'.pc, d'.g))
            && (s.End? ==> EndsAsGuest(sp, dm, s.outcome, w.value.0, w.value.1))
  {
    hide TextOk, Closed, Stream, StreamOk, DirectTargetsOk, Translated, Rounds, TotalSteps, EndsAsGuest, AllObeyed;
    var d' := Stopped(l, d, first).0;
    n := if first.resume.Detach? then 0 else TotalSteps(l, sp, dm, irs, d', inputs);
    if first.resume.Detach? { NoSteps(sp, dm, d); } else { RunPath(l, sp, dm, irs, d', inputs); }
  }

  /** The fuel of one round. */
  lemma RoundCharged(l: Layout, sp: Space, dm: DataMap, irs: seq<Instr>, d: Debuggee, input: Input)
    requires Compiled(sp, dm, irs) && Runnable(sp, irs, d) && 1 <= d.fuel < TWO63
    ensures var (d', s), n := Round(l, sp, irs, d, input), if Borrowed(d) then 0 else Steps(sp, dm, d);
            && (s.Going? ==> d'.fuel == d.fuel - n && d'.fuel > 0)
            && (s == End(Dispatcher.Outcome.Faulted(Timeout)) ==> !Borrowed(d) && n == d.fuel - 1)
  {
    hide Closed, Stream, StreamOk, DirectTargetsOk, RunIr, FirstAt, Translated, StaySteps, ArmedIn, Walk, Known, Execute, AllObeyed, Stay;
    StayPath(sp, dm, irs, d);
  }

  /** Fuel is charged for exactly the instructions that complete between the steps: a call that
      still goes on has the rest left, and one that times out has completed all but one of them. */
  lemma {:induction false} RunCharged(l: Layout, sp: Space, dm: DataMap, irs: seq<Instr>, d: Debuggee, inputs: seq<Input>)
    requires Compiled(sp, dm, irs) && Runnable(sp, irs, d) && 1 <= d.fuel < TWO63
    ensures var (d', s), own := Rounds(l, sp, irs, d, inputs), OwnSteps(l, sp, dm, irs, d, inputs);
            && own <= TotalSteps(l, sp, dm, irs, d, inputs)
            && (s.Going? ==> d'.fuel == d.fuel - own && d'.fuel > 0)
            && (s == End(Dispatcher.Outcome.Faulted(Timeout)) ==> own == d.fuel - 1)
    decreases |inputs|
  {
    hide TextOk, Closed, Stream, StreamOk, DirectTargetsOk, Translated, Round, Steps;
    if inputs != [] {
      var init := inputs[..|inputs| - 1];
      RunCharged(l, sp, dm, irs, d, init);
      var (d', s) := Rounds(l, sp, irs, d, init);
      if s.Going? { RoundCharged(l, sp, dm, irs, d', inputs[|inputs| - 1]); }
    }
  }

  /** The first round comes first. */
  lemma {:induction false} FirstRound(l: Layout, sp: Space, irs: seq<Instr>, d: Debuggee, inputs: seq<Input>)
    requires Runnable(sp, irs, d) && inputs != []
    ensures var (d', s) := Round(l, sp, irs, d, inputs[0]);
            Rounds(l, sp, irs, d, inputs) == if s.Going? then Rounds(l, sp, irs, d', inputs[1..]) else (d', s)
    decreases |inputs|
  {
    hide Runnable, Round;
    var init := inputs[..|inputs| - 1];
    if init == [] {
      assert inputs == [inputs[0]] && inputs[1..] == [];
    } else {
      FirstRound(l, sp, irs, d, init);
      assert inputs[1..][..|inputs| - 2] == init[1..];
    }
  }

  // ---------------------------------------------------------------- without stops

  predicate NoBreakIns(inputs: seq<Input>) { forall i | 0 <= i < |inputs| :: inputs[i].breakIn.None? }

  /** Rounds none of which stops or ends: each leaves the code and goes on. */
  ghost predicate Silent(l: Layout, sp: Space, irs: seq<Instr>, d: Debuggee, inputs: seq<Input>)
    requires Runnable(sp, irs, d)
    decreases |inputs|
  {
    inputs != [] ==>
      Stay(sp, irs, d).Left? &&
      var (d', s) := Round(l, sp, irs, d, inputs[0]); s.Going? && Silent(l, sp, irs, d', inputs[1..])
  }

  /** The next n instructions are indirect jumps to instructions, and not armed. */
  predicate Hops(sp: Space, dm: DataMap, armed: set<u64>, pc: u64, g: Guest, n: nat)
    requires TextOk(sp, dm) && GuestFits(sp, g) && Known(sp, dm, pc)
    decreases n
  {
    n > 0 ==>
      pc !in armed &&
      var r := Execute(sp, dm, pc, g); r.Indirect? && Known(sp, dm, r.pc) && Hops(sp, dm, armed, r.pc, r.g, n - 1)
  }

  /** One round of a step: it leaves the code and goes on exactly if the instruction is an indirect
      jump to an instruction, and then nothing but the guest has changed. */
  lemma StepRound(l: Layout, sp: Space, dm: DataMap, irs: seq<Instr>, d: Debuggee, input: Input)
    requires Compiled(sp, dm, irs) && Runnable(sp, irs, d) && Borrowed(d) && input.breakIn.None? && Known(sp, dm, d.pc)
    ensures var (d', s), r := Round(l, sp, irs, d, input), Execute(sp, dm, d.pc, d.g);
            && (Stay(sp, irs, d).Left? && s.Going? <==> d.pc !in ArmedIn(d) && r.Indirect? && Known(sp, dm, r.pc))
            && (Stay(sp, irs, d).Left? && s.Going? ==> d' == d.(pc := r.pc, g := r.g))
  {
    hide Closed, Stream, StreamOk, DirectTargetsOk, RunIr, FirstAt, Translated, ArmedIn, Known, Execute, AllObeyed, After;
    StayPath(sp, dm, irs, d);
    if d.pc in ArmedIn(d) {
      KnownHits(sp, dm, irs, ArmedIn(d), d.pc);
      HitStops(sp, irs, ArmedIn(d), FirstAt(irs, d.pc, 0), d.pc, d.g, STEP_FUEL);
    } else {
      BorrowedStep(sp, dm, irs, ArmedIn(d), d.pc, d.pc, d.g);
    }
  }

  /** A step, asked for or over a breakpoint, left alone for any number of rounds comes to no stop and no
      end exactly as long as the guest meets nothing but indirect jumps. No fuel is charged, and
      breakpoints, the lifted one and the step itself stay as they are. */
  lemma {:induction false} StepSilentIff(l: Layout, sp: Space, dm: DataMap, irs: seq<Instr>, d: Debuggee, inputs: seq<Input>)
    requires Compiled(sp, dm, irs) && Runnable(sp, irs, d) && Borrowed(d) && NoBreakIns(inputs) && Known(sp, dm, d.pc)
    ensures Silent(l, sp, irs, d, inputs) <==> Hops(sp, dm, ArmedIn(d), d.pc, d.g, |inputs|)
    ensures Silent(l, sp, irs, d, inputs) ==>
              var (d', s) := Rounds(l, sp, irs, d, inputs);
              s.Going? && d' == d.(pc := d'.pc, g := d'.g) && Walk(sp, dm, d.pc, d.g, |inputs|) == Some((d'.pc, d'.g))
    decreases |inputs|
  {
    hide TextOk, Closed, Stream, StreamOk, DirectTargetsOk, Translated, Round, Stay, Known, Execute;
    if inputs != [] {
      StepRound(l, sp, dm, irs, d, inputs[0]);
      FirstRound(l, sp, irs, d, inputs);
      var (d', s) := Round(l, sp, irs, d, inputs[0]);
      if Stay(sp, irs, d).Left? && s.Going? {
        assert ArmedIn(d') == ArmedIn(d);
        StepSilentIff(l, sp, dm, irs, d', inputs[1..]);
      }
    }
  }

  /** In particular a step at an indirect jump to itself goes on for ever: any number of rounds
      leaves everything as it was, so that fuel does not bound a call under the debugger. */
  lemma {:induction false} StepSpins(l: Layout, sp: Space, dm: DataMap, irs: seq<Instr>, d: Debuggee, inputs: seq<Input>)
    requires Compiled(sp, dm, irs) && Runnable(sp, irs, d) && Borrowed(d) && NoBreakIns(inputs)
    requires Known(sp, dm, d.pc) && d.pc !in ArmedIn(d) && Execute(sp, dm, d.pc, d.g) == Indirect(d.g, d.pc)
    ensures Rounds(l, sp, irs, d, inputs) == (d, Going)
    decreases |inputs|
  {
    hide TextOk, Closed, Stream, StreamOk, DirectTargetsOk, Translated, Round, Stay, Known, Execute;
    if inputs != [] {
      StepSpins(l, sp, dm, irs, d, inputs[..|inputs| - 1]);
      StepRound(l, sp, dm, irs, d, inputs[|inputs| - 1]);
    }
  }

  lemma ReturnJumps(sp: Space, g: Guest)
    requires Jit.OnlyReturns(sp) && TextOk(sp, None) && Known(sp, None, sp.textAddr) && sp.textAddr % 2 == 0
    requires GuestFits(sp, g) && g.x[1] == sp.textAddr
    ensures Execute(sp, None, sp.textAddr, g) == Indirect(g, sp.textAddr)
  {
    hide Known, Decoded;
    Jit.ReturnDecodes(sp, sp.textAddr);
  }

  /** The conditions of the theorems hold of a text that is one return. */
  lemma ReturnRuns(sp: Space, g: Guest, fuel: u64)
    requires Jit.OnlyReturns(sp) && SpaceOk(sp) && sp.textAddr + 8 <= TWO64 && GuestFits(sp, g)
    ensures Compiled(sp, None, Stream(sp, None, 0)) && StreamOk(sp, Stream(sp, None, 0)) && DirectTargetsOk(sp, Stream(sp, None, 0))
    ensures Known(sp, None, sp.textAddr) && Reference.InText(sp, sp.textAddr) && Translated(Stream(sp, None, 0), sp.textAddr)
  {
    hide Stream, StreamOk, DirectTargetsOk, Closed, Known, TextOk, SpaceOk, Interpret, Translated, Dispatcher.Dispatch, Jit.OnlyReturns;
    Jit.ReturnReturns(sp, g.(x := g.x[1 := 0]), 2);
    WholeRun(sp, None, sp.textAddr, g, fuel);
    KnownInText(sp, None, sp.textAddr);
  }

  /** Such a call: a single step at a return that returns to itself. */
  lemma ReturnSpins(l: Layout, sp: Space, g: Guest, fuel: u64, inputs: seq<Input>)
    requires Jit.OnlyReturns(sp) && SpaceOk(sp) && sp.textAddr + 8 <= TWO64 && sp.textAddr % 2 == 0
    requires GuestFits(sp, g) && g.x[1] == sp.textAddr && NoBreakIns(inputs)
    ensures var irs, d := Stream(sp, None, 0), Debuggee(sp.textAddr, g, fuel, Table([], 0), None, true);
            Runnable(sp, irs, d) && Rounds(l, sp, irs, d, inputs) == (d, Going)
  {
    hide Stream, StreamOk, DirectTargetsOk, Closed, Rounds, Known, Execute, TextOk, SpaceOk, Translated;
    var d := Debuggee(sp.textAddr, g, fuel, Table([], 0), None, true);
    ReturnRuns(sp, g, fuel);
    ReturnJumps(sp, g);
    StepSpins(l, sp, None, Stream(sp, None, 0), d, inputs);
  }

  // ---------------------------------------------------------------- a debugger that only watches

  /** No breakpoints, no step. */
  predicate Untouched(d: Debuggee) { !Borrowed(d) && forall s <- d.table.slots :: s.None? }

  /** The debugger sets no breakpoint and lets the program go on. */
  predicate HandsOff(stop: Stop) { stop.resume.Continue? && forall c <- stop.commands :: c.RemoveAt? }

  lemma {:induction false} StaysUntouched(l: Layout, t: Table, commands: seq<Command>)
    requires (forall s <- t.slots :: s.None?) && forall c <- commands :: c.RemoveAt?
    ensures AllObeyed(l, t, commands) == t
    decreases |commands|
  {
    if commands != [] {
      StaysUntouched(l, t, commands[..|commands| - 1]);
      assert commands[|commands| - 1] in commands;
    }
  }

  lemma PlainRound(l: Layout, sp: Space, dm: DataMap, irs: seq<Instr>, d: Debuggee, input: Input)
    requires Compiled(sp, dm, irs) && Runnable(sp, irs, d) && Untouched(d) && (input.breakIn.Some? ==> HandsOff(input.breakIn.value))
    ensures var (d', s), f := Round(l, sp, irs, d, input), Interpret(sp, dm, d.pc, d.g, d.fuel);
            && (s.Going? ==> Untouched(d') && d'.fuel < d.fuel && f == Interpret(sp, dm, d'.pc, d'.g, d'.fuel))
            && (s.End? ==> f == if s.outcome.Killed? then Dispatcher.Final(s.outcome, Dispatcher.NO_GUEST, f.pc)
                                else Dispatcher.Final(s.outcome, d'.g, d'.pc))
            && !s.Detached?
  {
    hide Closed, Stream, StreamOk, DirectTargetsOk, Translated, RunIr, FirstAt, Known, Execute, AllObeyed, Interpret, Dispatcher.Dispatch, Stays;
    assert ArmedIn(d) == {};
    StayPath(sp, dm, irs, d);
    ClosedStays(sp, dm);
    Agree(sp, dm, irs, d.pc, d.pc, d.g, d.fuel);
    var x := Stay(sp, irs, d);
    if x.Left? && Known(sp, dm, x.pc) {
      WholeRun(sp, dm, x.pc, x.g, x.fuel);
      Dispatcher.DispatchStep(sp, irs, d.pc, d.g, d.fuel);
      if input.breakIn.Some? { StaysUntouched(l, d.table, input.breakIn.value.commands); }
    }
  }

  /** Without breakpoints and steps the debugger makes no difference: the call ends as the guest
      machine does, and a call that still goes on will. Every round spends fuel, so it does end. */
  lemma {:induction false} OnlyWatching(l: Layout, sp: Space, dm: DataMap, irs: seq<Instr>, d: Debuggee, inputs: seq<Input>)
    requires Compiled(sp, dm, irs) && Runnable(sp, irs, d) && Untouched(d)
    requires forall i | 0 <= i < |inputs| :: inputs[i].breakIn.Some? ==> HandsOff(inputs[i].breakIn.value)
    ensures var (d', s), f := Rounds(l, sp, irs, d, inputs), Interpret(sp, dm, d.pc, d.g, d.fuel);
            && (s.Going? ==> Untouched(d') && d'.fuel + |inputs| <= d.fuel && f == Interpret(sp, dm, d'.pc, d'.g, d'.fuel))
            && (s.End? ==> f == if s.outcome.Killed? then Dispatcher.Final(s.outcome, Dispatcher.NO_GUEST, f.pc)
                                else Dispatcher.Final(s.outcome, d'.g, d'.pc))
            && !s.Detached?
    decreases |inputs|
  {
    hide TextOk, Closed, Stream, StreamOk, DirectTargetsOk, Translated, Round, Interpret, Untouched, HandsOff;
    if inputs != [] {
      var init := inputs[..|inputs| - 1];
      OnlyWatching(l, sp, dm, irs, d, init);
      var (d', s) := Rounds(l, sp, irs, d, init);
      if s.Going? { PlainRound(l, sp, dm, irs, d', inputs[|inputs| - 1]); }
    }
  }
}
