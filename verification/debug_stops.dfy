/** Where calls under the debugger stop: at the breakpoints on the guest's path, but for one that is
    being stepped over. */
module DebugStops {
  import opened Words
  import opened Ir
  import opened Reference
  import opened Translate
  import opened Isa
  import opened Breakpoints
  import opened Debug
  import opened DebugSpec
  import opened DebugRun
  import Jit

  /** The call stops at a breakpoint after n instructions, before any other stop. */
  ghost function FirstStop(l: Layout, sp: Space, dm: DataMap, irs: seq<Instr>, d: Debuggee, inputs: seq<Input>): Option<nat>
    requires TextOk(sp, dm) && Runnable(sp, irs, d)
    decreases |inputs|
  {
    if inputs == [] then None
    else if Stay(sp, irs, d).Break? then Some(Steps(sp, dm, d))
    else
      var (d', s) := Round(l, sp, irs, d, inputs[0]);
      if !s.Going? then None
      else
        match FirstStop(l, sp, dm, irs, d', inputs[1..])
        case None => None
        case Some(n) => Some(Steps(sp, dm, d) + n)
  }

  /** Position n of the guest's path is an instruction with a breakpoint, and not the lifted one
      reached over indirect jumps only: these do not end the step over a breakpoint. */
  ghost predicate Hit(sp: Space, dm: DataMap, d: Debuggee, n: nat)
    requires TextOk(sp, dm) && GuestFits(sp, d.g)
  {
    var w := Walk(sp, dm, d.pc, d.g, n);
    && w.Some? && Known(sp, dm, w.value.0) && w.value.0 in Pcs(d.table)
    && (d.lifted == Some(w.value.0) ==> Known(sp, dm, d.pc) && !Hops(sp, dm, {}, d.pc, d.g, n))
  }

  ghost predicate FirstHit(sp: Space, dm: DataMap, d: Debuggee, n: nat)
    requires TextOk(sp, dm) && GuestFits(sp, d.g)
  {
    Hit(sp, dm, d, n) && forall j: nat | j < n :: !Hit(sp, dm, d, j)
  }

  /** The instructions a step over a breakpoint takes, of the next n: indirect jumps, and the first
      one that is none. */
  function StepLength(sp: Space, dm: DataMap, pc: u64, g: Guest, n: nat): (k: nat)
    requires TextOk(sp, dm) && GuestFits(sp, g)
    ensures k <= n
    decreases n
  {
    if n == 0 || !Known(sp, dm, pc) then 0
    else
      var r := Execute(sp, dm, pc, g);
      if r.Indirect? then 1 + StepLength(sp, dm, r.pc, r.g, n - 1) else 1
  }

  /** What n instructions cost a call that is not single-stepping: all but the step over a breakpoint. */
  function Cost(sp: Space, dm: DataMap, d: Debuggee, n: nat): (k: nat)
    requires TextOk(sp, dm) && GuestFits(sp, d.g)
    ensures k <= n
  {
    if d.lifted.None? then n else n - StepLength(sp, dm, d.pc, d.g, n)
  }

  /** A round without a stop, away from single-stepping. */
  ghost predicate Passes(l: Layout, sp: Space, irs: seq<Instr>, d: Debuggee, input: Input)
    requires Runnable(sp, irs, d)
  {
    !d.stepping && input.breakIn.None? && !Stay(sp, irs, d).Break? && Round(l, sp, irs, d, input).1.Going?
  }

  /** It changes nothing but guest, fuel and the lifted breakpoint, which stays lifted exactly over
      an indirect jump. */
  lemma PassedRound(l: Layout, sp: Space, dm: DataMap, irs: seq<Instr>, d: Debuggee, input: Input)
    requires Compiled(sp, dm, irs) && Runnable(sp, irs, d) && Passes(l, sp, irs, d, input) && Known(sp, dm, d.pc)
    ensures var d', m, r := Round(l, sp, irs, d, input).0, Steps(sp, dm, d), Execute(sp, dm, d.pc, d.g);
            && m > 0 && Walk(sp, dm, d.pc, d.g, m) == Some((d'.pc, d'.g)) && Known(sp, dm, d'.pc)
            && d'.table == d.table && !d'.stepping
            && (Borrowed(d) ==> m == 1 && d'.fuel == d.fuel && d'.lifted == if r.Indirect? then d.lifted else None)
            && (!Borrowed(d) ==> m <= d.fuel && d'.fuel == d.fuel - m && d'.lifted.None?)
  {
    hide Closed, Stream, StreamOk, DirectTargetsOk, RunIr, FirstAt, Translated, ArmedIn, Known, Execute, AllObeyed, After, StaySteps, Walk;
    StayPath(sp, dm, irs, d);
    RoundPath(l, sp, dm, irs, d, input);
    RoundMoves(l, sp, dm, irs, d, input);
    if d.pc in ArmedIn(d) {
      KnownHits(sp, dm, irs, ArmedIn(d), d.pc);
      HitStops(sp, irs, ArmedIn(d), FirstAt(irs, d.pc, 0), d.pc, d.g, Budget(d));
    } else if Borrowed(d) {
      BorrowedStep(sp, dm, irs, ArmedIn(d), d.pc, d.pc, d.g);
    }
    KnownTranslated(sp, dm, irs, Round(l, sp, irs, d, input).0.pc);
  }

  lemma HopsOneMore(sp: Space, dm: DataMap, pc: u64, g: Guest, n: nat)
    requires TextOk(sp, dm) && GuestFits(sp, g) && Known(sp, dm, pc)
    ensures var r := Execute(sp, dm, pc, g);
            Hops(sp, dm, {}, pc, g, n + 1) <==> r.Indirect? && Known(sp, dm, r.pc) && Hops(sp, dm, {}, r.pc, r.g, n)
  {
    hide Known, Execute;
  }

  lemma OneInstruction(sp: Space, dm: DataMap, pc: u64, g: Guest)
    requires TextOk(sp, dm) && GuestFits(sp, g) && Known(sp, dm, pc) && Walk(sp, dm, pc, g, 1).Some?
    ensures Execute(sp, dm, pc, g).Indirect? ==>
              Walk(sp, dm, pc, g, 1) == Some((Execute(sp, dm, pc, g).pc, Execute(sp, dm, pc, g).g))
  {
    hide Known, Execute;
  }

  /** What lies ahead after a passed round lay ahead before it. */
  lemma HitLater(l: Layout, sp: Space, dm: DataMap, irs: seq<Instr>, d: Debuggee, input: Input, j: nat)
    requires Compiled(sp, dm, irs) && Runnable(sp, irs, d) && Passes(l, sp, irs, d, input) && Known(sp, dm, d.pc)
    ensures Hit(sp, dm, Round(l, sp, irs, d, input).0, j) <==> Hit(sp, dm, d, Steps(sp, dm, d) + j)
  {
    hide TextOk, Closed, Stream, StreamOk, DirectTargetsOk, Translated, Known, Execute, Round, Steps, Walk, Hops, Stay;
    PassedRound(l, sp, dm, irs, d, input);
    WalkOn(sp, dm, d.pc, d.g, Steps(sp, dm, d), j);
    if Borrowed(d) {
      HopsOneMore(sp, dm, d.pc, d.g, j);
      OneInstruction(sp, dm, d.pc, d.g);
    }
  }

  /** Where a stay stops, the guest has come to a hit. */
  lemma StopIsHit(sp: Space, dm: DataMap, irs: seq<Instr>, d: Debuggee)
    requires Compiled(sp, dm, irs) && Runnable(sp, irs, d) && Stay(sp, irs, d).Break?
    ensures Hit(sp, dm, d, Steps(sp, dm, d))
  {
    hide Closed, Stream, StreamOk, DirectTargetsOk, Translated, Known, Execute, Stay, Steps, Walk, Hops;
    StayPath(sp, dm, irs, d);
  }

  /** One round of looking for the first stop. */
  lemma FirstStopStep(l: Layout, sp: Space, dm: DataMap, irs: seq<Instr>, d: Debuggee, inputs: seq<Input>)
    requires TextOk(sp, dm) && Runnable(sp, irs, d) && !d.stepping && NoBreakIns(inputs) && inputs != []
    ensures var n := FirstStop(l, sp, dm, irs, d, inputs);
            if Stay(sp, irs, d).Break? then n == Some(Steps(sp, dm, d))
            else if !Round(l, sp, irs, d, inputs[0]).1.Going? then n == None
            else Passes(l, sp, irs, d, inputs[0]) && NoBreakIns(inputs[1..]) &&
                 var rest := FirstStop(l, sp, dm, irs, Round(l, sp, irs, d, inputs[0]).0, inputs[1..]);
                 (n.Some? <==> rest.Some?) && (n.Some? ==> n.value == Steps(sp, dm, d) + rest.value)
  {
    hide TextOk, Round, Stay, Steps, StreamOk, DirectTargetsOk, Translated;
  }

  /** A call that stops, stops at a hit. */
  lemma {:induction false} StopsAtHit(l: Layout, sp: Space, dm: DataMap, irs: seq<Instr>, d: Debuggee, inputs: seq<Input>)
    requires Compiled(sp, dm, irs) && Runnable(sp, irs, d) && !d.stepping && NoBreakIns(inputs)
    ensures var n := FirstStop(l, sp, dm, irs, d, inputs); n.Some? ==> Hit(sp, dm, d, n.value)
    decreases |inputs|
  {
    hide TextOk, Closed, Stream, StreamOk, DirectTargetsOk, Translated, Round, Stay, Steps, Hit, FirstStop, Known, Passes, Walk, Execute, NoBreakIns;
    if inputs == [] {
      NoInputs(l, sp, dm, irs, d);
    } else {
      FirstStopStep(l, sp, dm, irs, d, inputs);
      StayPath(sp, dm, irs, d);
      if Stay(sp, irs, d).Break? {
        StopIsHit(sp, dm, irs, d);
      } else if Round(l, sp, irs, d, inputs[0]).1.Going? {
        var d' := Round(l, sp, irs, d, inputs[0]).0;
        PassedRound(l, sp, dm, irs, d, inputs[0]);
        StopsAtHit(l, sp, dm, irs, d', inputs[1..]);
        var n := FirstStop(l, sp, dm, irs, d', inputs[1..]);
        if n.Some? { HitLater(l, sp, dm, irs, d, inputs[0], n.value); }
      }
    }
  }

  lemma NoInputs(l: Layout, sp: Space, dm: DataMap, irs: seq<Instr>, d: Debuggee)
    requires TextOk(sp, dm) && Runnable(sp, irs, d)
    ensures FirstStop(l, sp, dm, irs, d, []) == None
  {
  }

  // ---------------------------------------------------------------- a hit ahead is reached

  /** Up to the first hit of a call on its own fuel nothing is armed. */
  lemma {:induction false} ClearPath(sp: Space, dm: DataMap, d: Debuggee, pc: u64, g: Guest, i: nat, n: nat)
    requires TextOk(sp, dm) && GuestFits(sp, d.g) && GuestFits(sp, g) && d.lifted.None?
    requires Walk(sp, dm, d.pc, d.g, i) == Some((pc, g)) && Walk(sp, dm, pc, g, n).Some?
    requires forall j: nat | j < i + n :: !Hit(sp, dm, d, j)
    ensures Unstopped(sp, dm, ArmedIn(d), pc, g, n)
    decreases n
  {
    hide TextOk, Known, Successor;
    if n > 0 {
      assert !Hit(sp, dm, d, i);
      WalkOn(sp, dm, d.pc, d.g, i, 1);
      var s := Successor(sp, dm, pc, g).value;
      assert Walk(sp, dm, pc, g, 1) == Some(s) by { assert Walk(sp, dm, s.0, s.1, 0) == Some(s); }
      ClearPath(sp, dm, d, s.0, s.1, i + 1, n - 1);
    }
  }

  lemma FirstIs(sp: Space, dm: DataMap, d: Debuggee, n: nat, m: nat)
    requires TextOk(sp, dm) && GuestFits(sp, d.g) && FirstHit(sp, dm, d, n) && Hit(sp, dm, d, m)
    ensures n <= m
  {
    hide TextOk, Hit;
  }

  lemma NextKnown(sp: Space, dm: DataMap, armed: set<u64>, pc: u64, g: Guest, n: nat)
    requires TextOk(sp, dm) && GuestFits(sp, g) && Unstopped(sp, dm, armed, pc, g, n)
    requires var w := Walk(sp, dm, pc, g, n); w.Some? && Known(sp, dm, w.value.0)
    ensures Known(sp, dm, pc)
  {
    hide Known, Successor;
  }

  lemma ApproachStay(l: Layout, sp: Space, dm: DataMap, irs: seq<Instr>, d: Debuggee, input: Input, n: nat)
    requires Compiled(sp, dm, irs) && Runnable(sp, irs, d) && !Borrowed(d) && input.breakIn.None?
    requires FirstHit(sp, dm, d, n) && n < d.fuel < TWO63
    ensures Steps(sp, dm, d) <= n
    ensures if Stay(sp, irs, d).Break? then Stay(sp, irs, d).fuel == d.fuel - n else Passes(l, sp, irs, d, input)
  {
    hide Closed, Stream, StreamOk, DirectTargetsOk, RunIr, FirstAt, Translated, Known, Execute, StaySteps, Unstopped, ArmedIn;
    ArmedWithoutLifted(d);
    ClearPath(sp, dm, d, d.pc, d.g, 0, n);
    StayPath(sp, dm, irs, d);
    var m := StayReaches(sp, dm, irs, ArmedIn(d), d.pc, d.pc, d.g, d.fuel, n);
    var x := Stay(sp, irs, d);
    if x.Left? {
      WalkOn(sp, dm, d.pc, d.g, m, n - m);
      NextKnown(sp, dm, ArmedIn(d), x.pc, x.g, n - m);
    }
  }

  lemma ArmedWithoutLifted(d: Debuggee)
    requires d.lifted.None?
    ensures ArmedIn(d) == Pcs(d.table)
  {
  }

  /** The first instruction of a guest with n more to complete. */
  lemma NextCompletes(sp: Space, dm: DataMap, pc: u64, g: Guest, n: nat)
    requires TextOk(sp, dm) && GuestFits(sp, g) && n > 0 && Known(sp, dm, pc)
    requires var w := Walk(sp, dm, pc, g, n); w.Some? && Known(sp, dm, w.value.0)
    ensures var r := Execute(sp, dm, pc, g);
            (r.Next? || r.Direct? || r.Indirect?) && (r.Indirect? ==> Known(sp, dm, r.pc))
  {
    hide Known, Execute, After;
  }

  lemma ApproachStep(l: Layout, sp: Space, dm: DataMap, irs: seq<Instr>, d: Debuggee, input: Input, n: nat)
    requires Compiled(sp, dm, irs) && Runnable(sp, irs, d) && Borrowed(d) && !d.stepping && input.breakIn.None?
    requires FirstHit(sp, dm, d, n)
    ensures Steps(sp, dm, d) <= n && (Stay(sp, irs, d).Break? || Passes(l, sp, irs, d, input))
  {
    hide Closed, Stream, StreamOk, DirectTargetsOk, RunIr, FirstAt, Translated, Known, Execute, StaySteps, AllObeyed, After, Walk;
    StayPath(sp, dm, irs, d);
    if d.pc in ArmedIn(d) {
      KnownHits(sp, dm, irs, ArmedIn(d), d.pc);
      HitStops(sp, irs, ArmedIn(d), FirstAt(irs, d.pc, 0), d.pc, d.g, STEP_FUEL);
      StayArmed(sp, dm, ArmedIn(d), d.pc, d.g, STEP_FUEL);
    } else {
      if n == 0 { NoSteps(sp, dm, d); }
      assert n > 0;
      NextCompletes(sp, dm, d.pc, d.g, n);
      StepsOfTwo(sp, dm, ArmedIn(d), d.pc, d.g);
      BorrowedStep(sp, dm, irs, ArmedIn(d), d.pc, d.pc, d.g);
    }
  }

  /** A stay does not run past the first hit, and the call goes on unless it stops there. */
  lemma Approach(l: Layout, sp: Space, dm: DataMap, irs: seq<Instr>, d: Debuggee, input: Input, n: nat)
    requires Compiled(sp, dm, irs) && Runnable(sp, irs, d) && !d.stepping && input.breakIn.None?
    requires FirstHit(sp, dm, d, n) && n < d.fuel < TWO63
    ensures Steps(sp, dm, d) <= n
    ensures if Stay(sp, irs, d).Break? then Steps(sp, dm, d) == n && (!Borrowed(d) ==> Stay(sp, irs, d).fuel == d.fuel - n)
            else Passes(l, sp, irs, d, input)
  {
    hide TextOk, Closed, Stream, StreamOk, DirectTargetsOk, Translated, Steps, FirstHit, Stay, Passes, Hit;
    if Borrowed(d) { ApproachStep(l, sp, dm, irs, d, input, n); } else { ApproachStay(l, sp, dm, irs, d, input, n); }
    if Stay(sp, irs, d).Break? {
      StopIsHit(sp, dm, irs, d);
      FirstIs(sp, dm, d, n, Steps(sp, dm, d));
    }
  }

  /** What is ahead is still ahead after a passed round. */
  lemma StillAhead(l: Layout, sp: Space, dm: DataMap, irs: seq<Instr>, d: Debuggee, input: Input, n: nat)
    requires Compiled(sp, dm, irs) && Runnable(sp, irs, d) && Passes(l, sp, irs, d, input) && Known(sp, dm, d.pc)
    requires FirstHit(sp, dm, d, n) && Steps(sp, dm, d) <= n
    ensures FirstHit(sp, dm, Round(l, sp, irs, d, input).0, n - Steps(sp, dm, d))
  {
    hide TextOk, Closed, Stream, StreamOk, DirectTargetsOk, Translated, Known, Steps, Hit, Passes, Round;
    var d', m := Round(l, sp, irs, d, input).0, Steps(sp, dm, d);
    HitLater(l, sp, dm, irs, d, input, n - m);
    forall j: nat | j < n - m ensures !Hit(sp, dm, d', j) { HitLater(l, sp, dm, irs, d, input, j); }
  }

  /** The call at position n of its path, if it is not single-stepping. */
  ghost function Arrived(sp: Space, dm: DataMap, d: Debuggee, n: nat): Debuggee
    requires TextOk(sp, dm) && GuestFits(sp, d.g) && Walk(sp, dm, d.pc, d.g, n).Some? && n <= d.fuel
  {
    var w := Walk(sp, dm, d.pc, d.g, n).value;
    d.(pc := w.0, g := w.1, fuel := d.fuel - Cost(sp, dm, d, n), lifted := None)
  }

  lemma CostLater(l: Layout, sp: Space, dm: DataMap, irs: seq<Instr>, d: Debuggee, input: Input, n: nat)
    requires Compiled(sp, dm, irs) && Runnable(sp, irs, d) && Passes(l, sp, irs, d, input) && Known(sp, dm, d.pc)
    requires Steps(sp, dm, d) <= n <= d.fuel && !d.stepping
    ensures var d', m := Round(l, sp, irs, d, input).0, Steps(sp, dm, d);
            n - m <= d'.fuel && d'.fuel - Cost(sp, dm, d', n - m) == d.fuel - Cost(sp, dm, d, n)
  {
    hide TextOk, Closed, Stream, StreamOk, DirectTargetsOk, Translated, Known, Execute, Round, Steps, Passes, Walk;
    PassedRound(l, sp, dm, irs, d, input);
    if Borrowed(d) {
      NoMore(sp, dm, d.pc, d.g);
      OneInstruction(sp, dm, d.pc, d.g);
    }
  }

  lemma NoMore(sp: Space, dm: DataMap, pc: u64, g: Guest)
    requires TextOk(sp, dm) && GuestFits(sp, g)
    ensures StepLength(sp, dm, pc, g, 0) == 0 && (Known(sp, dm, pc) ==> StepLength(sp, dm, pc, g, 1) == 1)
  {
    hide Known, Execute;
  }

  lemma StopRound(l: Layout, sp: Space, dm: DataMap, irs: seq<Instr>, d: Debuggee, input: Input, n: nat)
    requires Compiled(sp, dm, irs) && Runnable(sp, irs, d) && !d.stepping && Stay(sp, irs, d).Break? && Steps(sp, dm, d) == n <= d.fuel
    requires Known(sp, dm, d.pc) && (!Borrowed(d) ==> Stay(sp, irs, d).fuel == d.fuel - n)
    ensures Walk(sp, dm, d.pc, d.g, n).Some?
    ensures Round(l, sp, irs, d, input) == AfterBreak(l, Arrived(sp, dm, d, n), input.stop)
  {
    hide TextOk, Closed, Stream, StreamOk, DirectTargetsOk, Translated, Known, Execute, Stay, StaySteps, Walk, AllObeyed, StepLength;
    StayPath(sp, dm, irs, d);
    if Borrowed(d) {
      StepsOfTwo(sp, dm, ArmedIn(d), d.pc, d.g);
      NoMore(sp, dm, d.pc, d.g);
    }
  }

  /** A breakpoint on the path is hit. From any moment of a call that is not single-stepping, the
      step over a breakpoint included: if position n is the first hit of the path and there is fuel
      for it, the call stops there, in the state of the guest at that point. What does not belong to
      a step over a breakpoint has been charged. */
  lemma {:induction false} BreakpointReached(l: Layout, sp: Space, dm: DataMap, irs: seq<Instr>, d: Debuggee, inputs: seq<Input>, n: nat)
    returns (k: nat)
    requires Compiled(sp, dm, irs) && Runnable(sp, irs, d) && !d.stepping && NoBreakIns(inputs) && n < |inputs|
    requires FirstHit(sp, dm, d, n) && n < d.fuel < TWO63
    ensures Walk(sp, dm, d.pc, d.g, n).Some?
    ensures k <= n && Rounds(l, sp, irs, d, inputs[..k]).1.Going?
    ensures Rounds(l, sp, irs, d, inputs[..k + 1]) == AfterBreak(l, Arrived(sp, dm, d, n), inputs[k].stop)
    decreases n
  {
    hide TextOk, Closed, Stream, StreamOk, DirectTargetsOk, Translated, AfterBreak, FirstHit, Round, Rounds, Steps, Stay, Walk, Known, Execute,
         Cost, Passes;
    StayPath(sp, dm, irs, d);
    Approach(l, sp, dm, irs, d, inputs[0], n);
    var (d', s) := Round(l, sp, irs, d, inputs[0]);
    if Stay(sp, irs, d).Break? {
      k := 0;
      StopRound(l, sp, dm, irs, d, inputs[0], n);
      OneRound(l, sp, irs, d, inputs);
    } else {
      PassesOn(l, sp, irs, d, inputs[0]);
      PassedRound(l, sp, dm, irs, d, inputs[0]);
      StillAhead(l, sp, dm, irs, d, inputs[0], n);
      CostLater(l, sp, dm, irs, d, inputs[0], n);
      WalkOn(sp, dm, d.pc, d.g, Steps(sp, dm, d), n - Steps(sp, dm, d));
      k := BreakpointReached(l, sp, dm, irs, d', inputs[1..], n - Steps(sp, dm, d));
      MoreRounds(l, sp, irs, d, inputs, k);
      k := k + 1;
    }
  }

  lemma {:induction false} HitStopsCall(l: Layout, sp: Space, dm: DataMap, irs: seq<Instr>, d: Debuggee, inputs: seq<Input>, n: nat)
    requires Compiled(sp, dm, irs) && Runnable(sp, irs, d) && !d.stepping && NoBreakIns(inputs) && n < |inputs|
    requires FirstHit(sp, dm, d, n) && n < d.fuel < TWO63
    ensures FirstStop(l, sp, dm, irs, d, inputs) == Some(n)
    decreases n
  {
    hide TextOk, Closed, Stream, StreamOk, DirectTargetsOk, Translated, FirstHit, Round, Steps, Stay, Walk, Known, Execute, FirstStop, Passes;
    StayPath(sp, dm, irs, d);
    Approach(l, sp, dm, irs, d, inputs[0], n);
    FirstStopStep(l, sp, dm, irs, d, inputs);
    if !Stay(sp, irs, d).Break? {
      PassesOn(l, sp, irs, d, inputs[0]);
      PassedRound(l, sp, dm, irs, d, inputs[0]);
      StillAhead(l, sp, dm, irs, d, inputs[0], n);
      HitStopsCall(l, sp, dm, irs, Round(l, sp, irs, d, inputs[0]).0, inputs[1..], n - Steps(sp, dm, d));
    }
  }

  /** With fuel and rounds enough, a call that is not single-stepping first stops at position n if
      and only if that is the first hit of the path. */
  lemma FirstStopIff(l: Layout, sp: Space, dm: DataMap, irs: seq<Instr>, d: Debuggee, inputs: seq<Input>, n: nat)
    requires Compiled(sp, dm, irs) && Runnable(sp, irs, d) && !d.stepping && NoBreakIns(inputs) && n < |inputs|
    requires n < d.fuel < TWO63
    ensures FirstStop(l, sp, dm, irs, d, inputs) == Some(n) <==> FirstHit(sp, dm, d, n)
  {
    hide TextOk, Closed, Stream, StreamOk, DirectTargetsOk, Translated, FirstStop, Hit, NoBreakIns;
    if FirstStop(l, sp, dm, irs, d, inputs) == Some(n) {
      StopsAtHit(l, sp, dm, irs, d, inputs);
      var m := LeastHit(sp, dm, d, n);
      HitStopsCall(l, sp, dm, irs, d, inputs, m);
    } else if FirstHit(sp, dm, d, n) {
      HitStopsCall(l, sp, dm, irs, d, inputs, n);
    }
  }

  lemma {:induction false} LeastHit(sp: Space, dm: DataMap, d: Debuggee, n: nat) returns (m: nat)
    requires TextOk(sp, dm) && GuestFits(sp, d.g) && Hit(sp, dm, d, n)
    ensures m <= n && FirstHit(sp, dm, d, m)
    decreases n
  {
    hide TextOk, Hit;
    m := n;
    if j: nat :| j < n && Hit(sp, dm, d, j) { m := LeastHit(sp, dm, d, j); }
  }

  /** Going on from a breakpoint: let position n > 0 be the next of the path that has one. The call
      stops there if and only if it is another breakpoint, or the instructions up to it are not all
      indirect jumps. */
  lemma NextBreakpointIff(l: Layout, sp: Space, dm: DataMap, irs: seq<Instr>, d: Debuggee, inputs: seq<Input>, n: nat)
    requires Compiled(sp, dm, irs) && Runnable(sp, irs, d) && d.lifted == Some(d.pc) && !d.stepping
    requires NoBreakIns(inputs) && 0 < n < |inputs| && n < d.fuel < TWO63 && Known(sp, dm, d.pc)
    requires HasBreakpoint(sp, dm, d, n) && forall j: nat | 0 < j < n :: !HasBreakpoint(sp, dm, d, j)
    ensures FirstStop(l, sp, dm, irs, d, inputs) == Some(n) <==>
            Walk(sp, dm, d.pc, d.g, n).value.0 != d.pc || !Hops(sp, dm, {}, d.pc, d.g, n)
  {
    hide TextOk, Closed, Stream, StreamOk, DirectTargetsOk, Translated, FirstStop, Known, NoBreakIns, Execute, Pcs;
    FirstStopIff(l, sp, dm, irs, d, inputs, n);
    NoSteps(sp, dm, d);
    assert !Hit(sp, dm, d, 0);
    forall j: nat | j < n ensures !Hit(sp, dm, d, j) { if j > 0 { assert !HasBreakpoint(sp, dm, d, j); } }
  }

  /** Position n of the path is an instruction that has a breakpoint. */
  ghost predicate HasBreakpoint(sp: Space, dm: DataMap, d: Debuggee, n: nat)
    requires TextOk(sp, dm) && GuestFits(sp, d.g)
  {
    var w := Walk(sp, dm, d.pc, d.g, n);
    w.Some? && Known(sp, dm, w.value.0) && w.value.0 in Pcs(d.table)
  }

  predicate JumpsIndirectly(op: Op) { op.JmpReg? || op.Jalr? }

  /** To be read off the text: a breakpoint at an instruction that is no indirect jump never makes
      the call miss the next one. */
  lemma NextBreakpointReached(l: Layout, sp: Space, dm: DataMap, irs: seq<Instr>, d: Debuggee, inputs: seq<Input>, n: nat)
    requires Compiled(sp, dm, irs) && Runnable(sp, irs, d) && d.lifted == Some(d.pc) && !d.stepping
    requires NoBreakIns(inputs) && 0 < n < |inputs| && n < d.fuel < TWO63 && Known(sp, dm, d.pc)
    requires HasBreakpoint(sp, dm, d, n) && forall j: nat | 0 < j < n :: !HasBreakpoint(sp, dm, d, j)
    requires forall op <- OpsAt(sp, dm, d.pc) :: !JumpsIndirectly(op.op)
    ensures FirstStop(l, sp, dm, irs, d, inputs) == Some(n)
  {
    hide TextOk, Closed, Stream, StreamOk, DirectTargetsOk, Translated, FirstStop, Known, NoBreakIns, Execute, HasBreakpoint, OpsAt;
    NextBreakpointIff(l, sp, dm, irs, d, inputs, n);
    NoIndirectOps(sp, dm, d.pc, d.g);
    HopsOneMore(sp, dm, d.pc, d.g, n - 1);
  }

  lemma NoIndirectOps(sp: Space, dm: DataMap, pc: u64, g: Guest)
    requires TextOk(sp, dm) && Known(sp, dm, pc) && GuestFits(sp, g) && forall op <- OpsAt(sp, dm, pc) :: !JumpsIndirectly(op.op)
    ensures !Execute(sp, dm, pc, g).Indirect?
  {
    hide TextOk, Known, OpsAt, RunOps;
    DirectOps(sp, OpsAt(sp, dm, pc), g);
  }

  lemma {:induction false} DirectOps(sp: Space, ops: seq<Instr>, g: Guest)
    requires GuestFits(sp, g) && OpsOk(ops) && forall op <- ops :: !JumpsIndirectly(op.op)
    ensures !RunOps(sp, ops, g).Indirect?
    decreases |ops|
  {
    hide Step;
    if ops != [] {
      assert ops[0] in ops;
      StepKeepsShape(sp, ops[0], g);
      DirectOp(sp, ops[0], g);
      if Step(sp, ops[0], g).Next? { DirectOps(sp, ops[1..], Step(sp, ops[0], g).g); }
    }
  }

  lemma DirectOp(sp: Space, i: Instr, g: Guest)
    requires GuestFits(sp, g) && InstrOk(i) && !JumpsIndirectly(i.op)
    ensures !Step(sp, i, g).Indirect?
  {
    hide AluResult, AluWResult, SltResult, MulResult, DivResult, Find, Extend, SetRd;
  }

  lemma PassesOn(l: Layout, sp: Space, irs: seq<Instr>, d: Debuggee, input: Input)
    requires Runnable(sp, irs, d) && Passes(l, sp, irs, d, input)
    ensures Round(l, sp, irs, d, input).1.Going? && Runnable(sp, irs, Round(l, sp, irs, d, input).0)
  {
    hide Round, Stay;
  }

  lemma OneRound(l: Layout, sp: Space, irs: seq<Instr>, d: Debuggee, inputs: seq<Input>)
    requires Runnable(sp, irs, d) && inputs != []
    ensures Rounds(l, sp, irs, d, inputs[..0]) == (d, Going) && Rounds(l, sp, irs, d, inputs[..1]) == Round(l, sp, irs, d, inputs[0])
  {
    hide Runnable, Round;
    FirstRound(l, sp, irs, d, inputs[..1]);
    assert inputs[..1][1..] == [] && inputs[..0] == [];
  }

  /** A first round that goes on, and k more. */
  lemma MoreRounds(l: Layout, sp: Space, irs: seq<Instr>, d: Debuggee, inputs: seq<Input>, k: nat)
    requires Runnable(sp, irs, d) && k + 1 < |inputs| && Round(l, sp, irs, d, inputs[0]).1.Going?
    ensures var d' := Round(l, sp, irs, d, inputs[0]).0;
            && Rounds(l, sp, irs, d, inputs[..k + 1]) == Rounds(l, sp, irs, d', inputs[1..][..k])
            && Rounds(l, sp, irs, d, inputs[..k + 2]) == Rounds(l, sp, irs, d', inputs[1..][..k + 1])
  {
    hide Runnable, Round, Rounds;
    FirstRound(l, sp, irs, d, inputs[..k + 2]);
    FirstRound(l, sp, irs, d, inputs[..k + 1]);
    assert inputs[..k + 2][1..] == inputs[1..][..k + 1] && inputs[..k + 1][1..] == inputs[1..][..k];
  }

  // ---------------------------------------------------------------- a breakpoint that is lost

  /** A return that returns to itself, with a breakpoint on it: the call stops there once. Told to
      go on, it steps over the breakpoint for ever: the address has a breakpoint, its instruction
      runs in every round, and the call never stops again. */
  lemma ReturnLosesBreakpoint(l: Layout, sp: Space, g: Guest, fuel: u64, handedOut: nat, input: Input, inputs: seq<Input>)
    requires Jit.OnlyReturns(sp) && SpaceOk(sp) && sp.textAddr + 8 <= TWO64 && sp.textAddr % 2 == 0
    requires GuestFits(sp, g) && g.x[1] == sp.textAddr && NoBreakIns(inputs) && input.stop == DebugSpec.Stop.Stop([], Continue)
    ensures var irs, d := Stream(sp, None, 0), Debuggee(sp.textAddr, g, fuel, Table([Some(sp.textAddr)], handedOut), None, false);
            var lost := d.(lifted := Some(d.pc));
            && TextOk(sp, None) && Runnable(sp, irs, d) && Stay(sp, irs, d) == Break(g, d.pc, fuel)
            && Round(l, sp, irs, d, input) == (lost, Going)
            && lost.pc in Pcs(lost.table) && Known(sp, None, lost.pc) && Execute(sp, None, lost.pc, g) == Indirect(g, lost.pc)
            && Rounds(l, sp, irs, lost, inputs) == (lost, Going) && FirstStop(l, sp, None, irs, lost, inputs) == None
  {
    hide Stream, StreamOk, DirectTargetsOk, Closed, Rounds, Known, Execute, TextOk, Translated, RunIr, FirstAt, FirstStop;
    var irs, d := Stream(sp, None, 0), Debuggee(sp.textAddr, g, fuel, Table([Some(sp.textAddr)], handedOut), None, false);
    var lost := d.(lifted := Some(d.pc));
    ReturnRuns(sp, g, fuel);
    ReturnJumps(sp, g);
    InPcs(d.table, d.pc);
    assert d.table.slots[0] == Some(d.pc);
    KnownHits(sp, None, irs, ArmedIn(d), d.pc);
    HitStops(sp, irs, ArmedIn(d), FirstAt(irs, d.pc, 0), d.pc, g, fuel);
    StepSpins(l, sp, None, irs, lost, inputs);
    NeverStops(l, sp, None, irs, lost, inputs);
  }

  /** A call at an indirect jump to itself whose breakpoint is lifted. */
  lemma {:induction false} NeverStops(l: Layout, sp: Space, dm: DataMap, irs: seq<Instr>, d: Debuggee, inputs: seq<Input>)
    requires Compiled(sp, dm, irs) && Runnable(sp, irs, d) && d.lifted == Some(d.pc) && !d.stepping && NoBreakIns(inputs)
    requires Known(sp, dm, d.pc) && Execute(sp, dm, d.pc, d.g) == Indirect(d.g, d.pc)
    ensures FirstStop(l, sp, dm, irs, d, inputs) == None
    decreases |inputs|
  {
    hide TextOk, Closed, Stream, StreamOk, DirectTargetsOk, Translated, Round, Known, Execute, FirstStop, Stay;
    if inputs == [] {
      NoInputs(l, sp, dm, irs, d);
    } else {
      FirstStopStep(l, sp, dm, irs, d, inputs);
      StepRound(l, sp, dm, irs, d, inputs[0]);
      NeverStops(l, sp, dm, irs, d, inputs[1..]);
    }
  }
}
