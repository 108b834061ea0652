/** What the debugger gets from a round: whether it is heard, what becomes of its commands, and how the
    call goes on. */
module DebugRounds {
  import opened Words
  import opened Ir
  import opened Reference
  import opened Translate
  import opened Isa
  import opened Breakpoints
  import opened Debug
  import opened DebugSpec
  import opened DebugRun
  import Dispatcher

  /** The debugger was heard: its commands have run, and the call goes on as it said, in steps or not,
      or was let go. */
  predicate Heard(l: Layout, t: Table, stop: DebugSpec.Stop, d: Debuggee, s: Status)
  {
    && d.table == AllObeyed(l, t, stop.commands)
    && s == (if stop.resume.Detach? then Detached else Going)
    && (s.Going? ==> (d.stepping <==> stop.resume.SingleStep?))
  }

  /** The breakpoint stopped at is out of the way of its own instruction, if it is still set and the
      call goes on; no other is. */
  ghost predicate LiftedHere(d: Debuggee, s: Status)
  {
    d.lifted == if s.Going? && d.pc in Pcs(d.table) then Some(d.pc) else None
  }

  /** At a breakpoint the debugger is heard, and the breakpoint is lifted. A fault ends the call, but the
      debugger's commands have run. Where an indirect jump led, the call returns, ends for want of an
      instruction, or goes on; only there can the debugger break in. */
  lemma RoundHears(l: Layout, sp: Space, irs: seq<Instr>, d: Debuggee, input: Input)
    requires Runnable(sp, irs, d) && !Stay(sp, irs, d).Trap?
    ensures var x, (d', s) := Stay(sp, irs, d), Round(l, sp, irs, d, input);
            && d'.pc == x.pc && d'.g == x.g && d'.fuel == (if d.stepping || d.lifted.Some? then d.fuel else x.fuel)
            && (x.Break? ==> Heard(l, d.table, input.stop, d', s) && LiftedHere(d', s))
            && (x.Fault? && !(x.kind.Timeout? && (d.stepping || d.lifted.Some?)) ==>
                  s == End(Dispatcher.Outcome.Faulted(x.kind)) && d'.table == AllObeyed(l, d.table, input.stop.commands) && d'.lifted.None?)
            && (x.Left? && x.pc == 0 ==> s == End(Dispatcher.Returned(x.g.x[10])))
            && (x.Left? && x.pc != 0 && !(Reference.InText(sp, x.pc) && Translated(irs, x.pc)) ==> s == End(Dispatcher.BadPc))
            && (x.Left? && x.pc != 0 && Reference.InText(sp, x.pc) && Translated(irs, x.pc) ==>
                  match input.breakIn
                  case None => s.Going? && d'.table == d.table && d'.lifted == d.lifted && d'.stepping == d.stepping
                  case Some(stop) => Heard(l, d.table, stop, d', s) && d'.lifted.None?)
  {
    hide StreamOk, DirectTargetsOk, RunIr, FirstAt, Translated, ArmedIn, AllObeyed, Reference.InText;
    var d' := Round(l, sp, irs, d, input).0;
    InPcs(d'.table, d'.pc);
  }

  /** A step that the debugger asked for, at an instruction that continues or jumps directly: the guest
      stops at its successor, nothing is charged, and the debugger is heard. A breakpoint there is hit
      in the same stop. */
  lemma UserStepStops(l: Layout, sp: Space, dm: DataMap, irs: seq<Instr>, d: Debuggee, input: Input)
    requires Compiled(sp, dm, irs) && Runnable(sp, irs, d) && d.stepping && d.pc !in ArmedIn(d) && Known(sp, dm, d.pc)
    requires var r := Execute(sp, dm, d.pc, d.g); r.Next? || r.Direct?
    ensures var (d', s), (next, g') := Round(l, sp, irs, d, input), Successor(sp, dm, d.pc, d.g).value;
            && d'.pc == next && d'.g == g' && d'.fuel == d.fuel
            && Heard(l, d.table, input.stop, d', s)
            && (if next in ArmedIn(d) then LiftedHere(d', s) else d'.lifted.None?)
  {
    hide Closed, Stream, StreamOk, DirectTargetsOk, RunIr, FirstAt, Translated, ArmedIn, Known, Execute, AllObeyed, After;
    BorrowedStep(sp, dm, irs, ArmedIn(d), d.pc, d.pc, d.g);
    var d' := Round(l, sp, irs, d, input).0;
    InPcs(d'.table, d'.pc);
  }

  /** Stepping over a breakpoint, at such an instruction: the breakpoint is armed again, nothing is
      charged, and nobody is asked, unless the successor has a breakpoint too. */
  lemma StepsOver(l: Layout, sp: Space, dm: DataMap, irs: seq<Instr>, d: Debuggee, input: Input)
    requires Compiled(sp, dm, irs) && Runnable(sp, irs, d) && !d.stepping && d.lifted.Some? && d.pc !in ArmedIn(d)
    requires Known(sp, dm, d.pc) && var r := Execute(sp, dm, d.pc, d.g); r.Next? || r.Direct?
    ensures var (d', s), (next, g') := Round(l, sp, irs, d, input), Successor(sp, dm, d.pc, d.g).value;
            && d'.pc == next && d'.g == g' && d'.fuel == d.fuel
            && if next in ArmedIn(d) then Heard(l, d.table, input.stop, d', s) && LiftedHere(d', s)
               else s.Going? && d' == Debuggee(next, g', d.fuel, d.table, None, false)
  {
    hide Closed, Stream, StreamOk, DirectTargetsOk, RunIr, FirstAt, Translated, ArmedIn, Known, Execute, AllObeyed, After;
    BorrowedStep(sp, dm, irs, ArmedIn(d), d.pc, d.pc, d.g);
    var d' := Round(l, sp, irs, d, input).0;
    InPcs(d'.table, d'.pc);
  }

  /** Before the first instruction of a call the debugger is heard, with everything armed; the rounds
      start from what it left. */
  lemma CallHears(l: Layout, sp: Space, irs: seq<Instr>, d: Debuggee, first: DebugSpec.Stop, inputs: seq<Input>) returns (d': Debuggee)
    requires Runnable(sp, irs, d)
    ensures d'.pc == d.pc && d'.g == d.g && d'.fuel == d.fuel && d'.lifted.None? && Runnable(sp, irs, d')
    ensures Heard(l, d.table, first, d', if first.resume.Detach? then Detached else Going)
    ensures Called(l, sp, irs, d, first, inputs) ==
            if first.resume.Detach? then (d', Detached) else Rounds(l, sp, irs, d', inputs)
  {
    hide StreamOk, DirectTargetsOk, Translated, AllObeyed, Rounds;
    d' := Stopped(l, d, first).0;
  }
}
