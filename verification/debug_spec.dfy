/** A call under the debugger, by value: what a stay in the code and the stop after it make of the
    guest, of its fuel and of the breakpoints. */
module DebugSpec {
  import opened Words
  import opened Ir
  import opened Reference
  import opened Breakpoints
  import opened Dispatcher
  import Simulation

  const STEP_FUEL: u64 := 2

  /** How the debugger lets the program go on after a stop. */
  datatype Resume = Continue | SingleStep | Detach

  /** A stop: what the debugger does with breakpoints, and how it resumes. */
  datatype Stop = Stop(commands: seq<Command>, resume: Resume)

  /** What the debugger does in one round, if the round lets it: at a stop, and by breaking in. */
  datatype Input = Input(stop: Stop, breakIn: Option<Stop>)

  /** A call between two stays. */
  datatype Debuggee = Debuggee(pc: u64, g: Guest, fuel: u64, table: Table, lifted: Option<u64>, stepping: bool)

  datatype Status = Going | End(outcome: Outcome) | Detached

  // ---------------------------------------------------------------- a stay

  /** The addresses a stay stops at: those with a breakpoint that is not lifted. */
  ghost function ArmedIn(d: Debuggee): set<u64>
  {
    set pc <- Pcs(d.table) | d.lifted != Some(pc)
  }

  /** Single steps, and steps over a breakpoint, run on borrowed fuel. */
  predicate Borrowed(d: Debuggee) { d.stepping || d.lifted.Some? }

  function Budget(d: Debuggee): u64 { if Borrowed(d) then STEP_FUEL else d.fuel }

  ghost function Stay(sp: Space, irs: seq<Instr>, d: Debuggee): (x: Exit)
    requires StreamOk(sp, irs) && DirectTargetsOk(sp, irs) && GuestFits(sp, d.g)
    ensures !x.Trap? ==> GuestFits(sp, x.g)
  {
    RunIr(sp, irs, ArmedIn(d), FirstAt(irs, d.pc, 0), d.pc, d.g, Budget(d))
  }

  /** After a stay; borrowed fuel is not charged. */
  function Moved(d: Debuggee, x: Exit): Debuggee
    requires !x.Trap?
  {
    d.(pc := x.pc, g := x.g, fuel := if Borrowed(d) then d.fuel else x.fuel)
  }

  // ---------------------------------------------------------------- a stop

  /** Nothing is left unarmed, the commands run, and the debugger says how to go on. */
  function Stopped(l: Layout, d: Debuggee, stop: Stop): (Debuggee, Status)
  {
    var stepping := if stop.resume.Detach? then d.stepping else stop.resume.SingleStep?;
    (d.(table := AllObeyed(l, d.table, stop.commands), lifted := None, stepping := stepping),
     if stop.resume.Detach? then Detached else Going)
  }

  /** At a breakpoint: a stop; then the breakpoint is lifted for its own instruction. */
  function AfterBreak(l: Layout, d: Debuggee, stop: Stop): (Debuggee, Status)
  {
    var (d', s) := Stopped(l, d, stop);
    (if s.Going? && Some(d.pc) in d'.table.slots then d'.(lifted := Some(d.pc)) else d', s)
  }

  /** A borrowed step ran out: a stop if the debugger had asked for the step. */
  function AfterStep(l: Layout, d: Debuggee, stop: Stop): (Debuggee, Status)
  {
    var d' := d.(lifted := None, stepping := false);
    if d.stepping then Stopped(l, d', stop) else (d', Going)
  }

  /** The code was left by an indirect jump: the end of the call, or another stay. */
  function AfterLeft(l: Layout, sp: Space, irs: seq<Instr>, d: Debuggee, breakIn: Option<Stop>): (Debuggee, Status)
    requires GuestFits(sp, d.g)
  {
    if d.pc == 0 then (d, End(Returned(d.g.x[10])))
    else if !(Reference.InText(sp, d.pc) && Translated(irs, d.pc)) then (d, End(BadPc))
    else if breakIn.Some? then Stopped(l, d, breakIn.value) else (d, Going)
  }

  function AfterStay(l: Layout, sp: Space, irs: seq<Instr>, d: Debuggee, x: Exit, input: Input): (Debuggee, Status)
    requires !x.Trap? ==> GuestFits(sp, x.g)
  {
    match x
    case Trap(_) => (d, End(Killed))
    case Break(_, _, _) => AfterBreak(l, Moved(d, x), input.stop)
    case Fault(kind, _, _, _) =>
      if kind.Timeout? && Borrowed(d) then AfterStep(l, Moved(d, x), input.stop)
      else (Stopped(l, Moved(d, x), input.stop).0, End(Outcome.Faulted(kind)))
    case Left(_, _, _) => AfterLeft(l, sp, irs, Moved(d, x), input.breakIn)
  }

  ghost predicate Runnable(sp: Space, irs: seq<Instr>, d: Debuggee)
  {
    StreamOk(sp, irs) && DirectTargetsOk(sp, irs) && GuestFits(sp, d.g) && Reference.InText(sp, d.pc) && Translated(irs, d.pc)
  }

  /** One round of the loop: a stay in the code and what follows it. */
  ghost function Round(l: Layout, sp: Space, irs: seq<Instr>, d: Debuggee, input: Input): (r: (Debuggee, Status))
    requires Runnable(sp, irs, d)
    ensures r.1.Going? ==> Runnable(sp, irs, r.0)
    ensures GuestFits(sp, r.0.g)
  {
    StopsTranslated(sp, irs, ArmedIn(d), FirstAt(irs, d.pc, 0), d.pc, d.g, Budget(d));
    AfterStay(l, sp, irs, d, Stay(sp, irs, d), input)
  }

  /** Rounds as long as there is input and the call goes on. */
  ghost function Rounds(l: Layout, sp: Space, irs: seq<Instr>, d: Debuggee, inputs: seq<Input>): (r: (Debuggee, Status))
    requires Runnable(sp, irs, d)
    ensures r.1.Going? ==> Runnable(sp, irs, r.0)
    ensures GuestFits(sp, r.0.g)
  {
    if inputs == [] then (d, Going)
    else
      var (d', s) := Rounds(l, sp, irs, d, inputs[..|inputs| - 1]);
      if s.Going? then Round(l, sp, irs, d', inputs[|inputs| - 1]) else (d', s)
  }

  /** A call: the debugger is heard before anything runs, then come the rounds. */
  ghost function Called(l: Layout, sp: Space, irs: seq<Instr>, d: Debuggee, first: Stop, inputs: seq<Input>): (Debuggee, Status)
    requires Runnable(sp, irs, d)
  {
    var (d', s) := Stopped(l, d, first);
    if s.Going? then Rounds(l, sp, irs, d', inputs) else (d', s)
  }

  /** Stays that end at an instruction name a translated one. */
  lemma {:induction false} StopsTranslated(sp: Space, irs: seq<Instr>, armed: set<u64>, i: nat, at: u64, g: Guest, fuel: u64)
    requires StreamOk(sp, irs) && DirectTargetsOk(sp, irs) && i <= |irs| && GuestFits(sp, g)
    ensures var x := RunIr(sp, irs, armed, i, at, g, fuel);
            x.Break? || x.Fault? ==> Translated(irs, x.pc) && Reference.InText(sp, x.pc)
    decreases fuel, Rank(irs, i)
  {
    hide StreamOk, DirectTargetsOk, Ir.Step, FirstAt, Reference.InText;
    if i < |irs| {
      Simulation.StreamInstrOk(sp, irs, i);
      OwnPcTranslated(irs, i);
      if Hits(irs, armed, i) {
      } else if irs[i].op.FuelCheck? {
        var rest := W64(fuel - 1);
        if S64(rest) > 0 { StopsTranslated(sp, irs, armed, i + 1, at, g, rest); }
      } else {
        StepKeepsShape(sp, irs[i], g);
        var s := Ir.Step(sp, irs[i], g);
        if s.Next? {
          StopsTranslated(sp, irs, armed, i + 1, at, s.g, fuel);
        } else if s.Direct? && Reference.InText(sp, s.pc) {
          DirectTarget(sp, irs, i, g);
          StopsTranslated(sp, irs, armed, FirstAt(irs, s.pc, 0), at, s.g, fuel);
        }
      }
    }
  }

  lemma OwnPcTranslated(irs: seq<Instr>, i: nat)
    requires i < |irs|
    ensures Translated(irs, irs[i].pc)
  {
  }

  // ---------------------------------------------------------------- how a call goes on and ends

  /** The debugger took its leave in this round. */
  predicate Detaches(input: Input)
  {
    input.stop.resume.Detach? || (input.breakIn.Some? && input.breakIn.value.resume.Detach?)
  }

  /** A call goes on as long as there is input. If not, there was a round that ended it: with the
      debugger's detaching, or with an outcome; and it timed out only on the call's own fuel. */
  lemma {:induction false} LastRound(l: Layout, sp: Space, irs: seq<Instr>, d: Debuggee, inputs: seq<Input>) returns (k: nat)
    requires Runnable(sp, irs, d) && !Rounds(l, sp, irs, d, inputs).1.Going?
    ensures k < |inputs| && Rounds(l, sp, irs, d, inputs[..k]).1.Going?
    ensures Rounds(l, sp, irs, d, inputs) == Rounds(l, sp, irs, d, inputs[..k + 1]) ==
            Round(l, sp, irs, Rounds(l, sp, irs, d, inputs[..k]).0, inputs[k])
    ensures Rounds(l, sp, irs, d, inputs).1.Detached? ==> Detaches(inputs[k])
    ensures Rounds(l, sp, irs, d, inputs).1 == End(Outcome.Faulted(Timeout)) ==> !Borrowed(Rounds(l, sp, irs, d, inputs[..k]).0)
  {
    hide Runnable, Stay, AllObeyed;
    var init := inputs[..|inputs| - 1];
    if Rounds(l, sp, irs, d, init).1.Going? {
      k := |init|;
      assert inputs[..k + 1] == inputs && inputs[..k + 1][..k] == inputs[..k];
    } else {
      k := LastRound(l, sp, irs, d, init);
      assert init[..k] == inputs[..k] && init[..k + 1] == inputs[..k + 1];
    }
  }

  /** Rounds on borrowed fuel leave the fuel of the call alone, and so does a round that starts at
      an armed address. Every other round spends some. */
  lemma RoundFuel(l: Layout, sp: Space, irs: seq<Instr>, d: Debuggee, input: Input)
    requires Runnable(sp, irs, d) && d.fuel > 0 && !Stay(sp, irs, d).Trap?
    ensures var d' := Round(l, sp, irs, d, input).0;
            d'.fuel <= d.fuel && (d'.fuel == d.fuel <==> Borrowed(d) || d.pc in ArmedIn(d))
  {
    hide StreamOk, DirectTargetsOk, AllObeyed, Stay, FirstAt;
    StayFuel(sp, irs, d);
  }

  lemma StayFuel(sp: Space, irs: seq<Instr>, d: Debuggee)
    requires Runnable(sp, irs, d) && d.fuel > 0 && !Stay(sp, irs, d).Trap?
    ensures !Borrowed(d) ==> Stay(sp, irs, d).fuel <= d.fuel && (Stay(sp, irs, d).fuel == d.fuel <==> d.pc in ArmedIn(d))
  {
    hide StreamOk, DirectTargetsOk, Ir.Step, FirstAt;
    FirstIsGroup(sp, irs, d.pc);
    FuelSpent(sp, irs, ArmedIn(d), FirstAt(irs, d.pc, 0), d.pc, d.g, Budget(d));
  }

  /** A call that goes on from a breakpoint has it lifted: the next stay does not stop at once. */
  lemma GoesOnUnarmed(l: Layout, sp: Space, irs: seq<Instr>, d: Debuggee, input: Input)
    requires Runnable(sp, irs, d) && Stay(sp, irs, d).Break? && Round(l, sp, irs, d, input).1.Going?
    ensures var d' := Round(l, sp, irs, d, input).0; d'.pc !in ArmedIn(d') && (Borrowed(d') <==> d'.stepping || d'.pc in Pcs(d'.table))
  {
    hide StreamOk, DirectTargetsOk, AllObeyed, Stay, FirstAt;
    var d' := Round(l, sp, irs, d, input).0;
    InPcs(d'.table, d'.pc);
  }
}
