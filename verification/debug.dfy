/** Running under the debugger: breakpoints in the code, single steps on borrowed fuel. */
module Debug {
  import opened Words
  import opened Ir
  import opened Reference
  import opened Translate
  import opened Isa
  import opened Dispatcher

  // ---------------------------------------------------------------- stopping does not change the run

  lemma HitStops(sp: Space, irs: seq<Instr>, armed: set<u64>, i: nat, at: u64, g: Guest, fuel: u64)
    requires StreamOk(sp, irs) && DirectTargetsOk(sp, irs) && i < |irs| && GuestFits(sp, g) && Hits(irs, armed, i)
    ensures RunIr(sp, irs, armed, i, at, g, fuel) == Break(g, irs[i].pc, fuel)
  {
    hide StreamOk, DirectTargetsOk, Step, FirstAt;
  }

  lemma KnownHits(sp: Space, dm: DataMap, irs: seq<Instr>, armed: set<u64>, pc: u64)
    requires TextOk(sp, dm) && Known(sp, dm, pc) && irs == Stream(sp, dm, 0)
    ensures var i := FirstAt(irs, pc, 0); i < |irs| && irs[i].pc == pc && (Hits(irs, armed, i) <==> pc in armed)
  {
    hide Stream, Starts, OpsAt, FirstAt, Known;
    var f, rest := FromInstruction(sp, dm, pc);
    assert irs[f] == irs[f..][0];
  }

  /** A run stopped by a breakpoint is a prefix of the plain run: it stops before an armed
      instruction on the guest's own path, and going on from there ends as the plain run would.
      A run that meets no breakpoint is the plain run. */
  lemma {:induction false} StopsOnPath(sp: Space, dm: DataMap, irs: seq<Instr>, armed: set<u64>, pc: u64, at: u64, g: Guest, fuel: u64)
    requires TextOk(sp, dm) && Closed(sp, dm) && Known(sp, dm, pc) && irs == Stream(sp, dm, 0) && GuestFits(sp, g)
    requires StreamOk(sp, irs) && DirectTargetsOk(sp, irs)
    ensures var x := RunIr(sp, irs, armed, FirstAt(irs, pc, 0), at, g, fuel);
            if x.Break? then
              x.pc in armed && Known(sp, dm, x.pc) && Interpret(sp, dm, pc, g, fuel) == Interpret(sp, dm, x.pc, x.g, x.fuel)
            else x == RunIr(sp, irs, {}, FirstAt(irs, pc, 0), at, g, fuel)
    decreases fuel
  {
    hide Stream, Starts, FirstAt, OpsAt, After, StreamOk, DirectTargetsOk, RunIr, Execute, Known, Hits;
    KnownHits(sp, dm, irs, armed, pc);
    if pc in armed {
      HitStops(sp, irs, armed, FirstAt(irs, pc, 0), at, g, fuel);
    } else {
      var next := StayStep(sp, dm, irs, armed, pc, at, g, fuel);
      var next' := StayStep(sp, dm, irs, {}, pc, at, g, fuel);
      ExecuteStays(sp, dm, pc, g);
      if S64(W64(fuel - 1)) > 0 {
        var r := Execute(sp, dm, pc, g);
        if r.Next? {
          StopsOnPath(sp, dm, irs, armed, After(sp, dm, pc), at, r.g, fuel - 1);
        } else if r.Direct? {
          KnownInText(sp, dm, r.pc);
          StopsOnPath(sp, dm, irs, armed, r.pc, at, r.g, fuel - 1);
        }
      }
    }
  }

  // ---------------------------------------------------------------- single steps

  /** Where a step on borrowed fuel stops, having reached pc. */
  function StopAt(armed: set<u64>, pc: u64, g: Guest): Exit
  {
    if pc in armed then Break(g, pc, 1) else Fault(Timeout, g, pc, 0)
  }

  lemma ReachedStops(sp: Space, dm: DataMap, irs: seq<Instr>, armed: set<u64>, pc: u64, at: u64, g: Guest)
    requires TextOk(sp, dm) && Known(sp, dm, pc) && irs == Stream(sp, dm, 0) && GuestFits(sp, g)
    requires StreamOk(sp, irs) && DirectTargetsOk(sp, irs)
    ensures RunIr(sp, irs, armed, FirstAt(irs, pc, 0), at, g, 1) == StopAt(armed, pc, g)
  {
    hide Stream, Starts, FirstAt, OpsAt, After, StreamOk, DirectTargetsOk, RunIr, Execute, Known, Hits;
    KnownHits(sp, dm, irs, armed, pc);
    if pc in armed {
      HitStops(sp, irs, armed, FirstAt(irs, pc, 0), at, g, 1);
    } else {
      var next := StayStep(sp, dm, irs, armed, pc, at, g, 1);
    }
  }

  /** With two units of borrowed fuel exactly one instruction runs. If it continues or branches,
      the run stops at its successor: on the timeout, or on the successor's own breakpoint. An
      indirect jump leaves without stopping, and a fault is the instruction's own. */
  lemma BorrowedStep(sp: Space, dm: DataMap, irs: seq<Instr>, armed: set<u64>, pc: u64, at: u64, g: Guest)
    requires TextOk(sp, dm) && Closed(sp, dm) && Known(sp, dm, pc) && irs == Stream(sp, dm, 0) && GuestFits(sp, g)
    requires StreamOk(sp, irs) && DirectTargetsOk(sp, irs) && pc !in armed
    ensures var x, r := RunIr(sp, irs, armed, FirstAt(irs, pc, 0), at, g, 2), Execute(sp, dm, pc, g);
            && (r.Next? ==> x == StopAt(armed, After(sp, dm, pc), r.g))
            && (r.Direct? ==> x == StopAt(armed, r.pc, r.g))
            && (r.Indirect? ==> x == Left(r.g, r.pc, 1))
            && (r.Faulted? ==> x == Fault(r.kind, g, pc, 1))
            && (r.Trapped? ==> x == Exit.Trap(pc))
  {
    hide Stream, Starts, FirstAt, OpsAt, After, StreamOk, DirectTargetsOk, RunIr, Execute, Known, StopAt;
    var next := StayStep(sp, dm, irs, armed, pc, at, g, 2);
    ExecuteStays(sp, dm, pc, g);
    var r := Execute(sp, dm, pc, g);
    if r.Next? {
      ReachedStops(sp, dm, irs, armed, After(sp, dm, pc), at, r.g);
    } else if r.Direct? {
      KnownInText(sp, dm, r.pc);
      ReachedStops(sp, dm, irs, armed, r.pc, at, r.g);
    }
  }

  // ---------------------------------------------------------------- the guest's own path

  /** The guest after n instructions; None if it ends before. */
  function Walk(sp: Space, dm: DataMap, pc: u64, g: Guest, n: nat): (r: Option<(u64, Guest)>)
    requires TextOk(sp, dm) && GuestFits(sp, g)
    ensures r.Some? ==> GuestFits(sp, r.value.1)
    decreases n
  {
    if n == 0 then Some((pc, g))
    else if !Known(sp, dm, pc) then None
    else
      match Successor(sp, dm, pc, g)
      case None => None
      case Some((pc', g')) => Walk(sp, dm, pc', g', n - 1)
  }

  lemma {:induction false} WalkOn(sp: Space, dm: DataMap, pc: u64, g: Guest, m: nat, n: nat)
    requires TextOk(sp, dm) && GuestFits(sp, g) && Walk(sp, dm, pc, g, m).Some?
    ensures var s := Walk(sp, dm, pc, g, m).value; Walk(sp, dm, pc, g, m + n) == Walk(sp, dm, s.0, s.1, n)
    decreases m
  {
    hide Successor, Known;
    if m > 0 {
      var s := Successor(sp, dm, pc, g).value;
      WalkOn(sp, dm, s.0, s.1, m - 1, n);
    }
  }

  /** How many instructions a stay completes. */
  function StaySteps(sp: Space, dm: DataMap, armed: set<u64>, pc: u64, g: Guest, fuel: u64): nat
    requires TextOk(sp, dm) && GuestFits(sp, g)
    decreases fuel
  {
    if pc in armed || !Known(sp, dm, pc) || fuel == 0 || S64(fuel - 1) <= 0 then 0
    else
      match Execute(sp, dm, pc, g)
      case Next(g') => 1 + StaySteps(sp, dm, armed, After(sp, dm, pc), g', fuel - 1)
      case Direct(g', t) => 1 + StaySteps(sp, dm, armed, t, g', fuel - 1)
      case Indirect(_, _) => 1
      case _ => 0
  }

  /** Every completed instruction is charged one unit, and so is one that could not complete for
      want of fuel or by a fault. */
  predicate Charged(fuel: u64, n: nat, x: Exit)
  {
    && n <= fuel
    && (x.Left? || x.Break? ==> x.fuel == fuel - n && (x.fuel == 0 ==> fuel == 0))
    && (x.Fault? ==> x.fuel == W64(fuel - n - 1) && (n == fuel ==> fuel == 0) && (x.kind.Timeout? ==> S64(x.fuel) <= 0))
  }

  /** A stay in the code moves the guest n instructions along its path, and ends where the path
      allows it: before a known instruction that is armed or has no fuel, at one that faults or
      traps, or wherever a jump led. */
  ghost predicate OnPath(sp: Space, dm: DataMap, armed: set<u64>, pc: u64, g: Guest, fuel: u64, n: nat, x: Exit)
    requires TextOk(sp, dm) && GuestFits(sp, g)
  {
    Walk(sp, dm, pc, g, n).Some? && Charged(fuel, n, x) &&
    var s := Walk(sp, dm, pc, g, n).value;
    && s.0 == x.pc && (!x.Trap? ==> s.1 == x.g) && (!x.Left? ==> Known(sp, dm, x.pc))
    && (x.Break? ==> x.pc in armed)
    && (x.Trap? ==> Execute(sp, dm, x.pc, s.1).Trapped?)
    && (x.Fault? && !x.kind.Timeout? ==> Execute(sp, dm, x.pc, s.1) == Effect.Faulted(x.kind))
  }

  lemma OnPathNow(sp: Space, dm: DataMap, armed: set<u64>, pc: u64, g: Guest, fuel: u64, x: Exit)
    requires TextOk(sp, dm) && GuestFits(sp, g) && x.pc == pc && (!x.Trap? ==> x.g == g) && (!x.Left? ==> Known(sp, dm, pc))
    requires Charged(fuel, 0, x) && (x.Break? ==> pc in armed)
    requires x.Trap? ==> Execute(sp, dm, pc, g).Trapped?
    requires x.Fault? && !x.kind.Timeout? ==> Execute(sp, dm, pc, g) == Effect.Faulted(x.kind)
    ensures OnPath(sp, dm, armed, pc, g, fuel, 0, x)
  {
    hide Known, Execute, Charged;
  }

  lemma OnPathLater(sp: Space, dm: DataMap, armed: set<u64>, pc: u64, g: Guest, fuel: u64, n: nat, x: Exit)
    requires TextOk(sp, dm) && GuestFits(sp, g) && Known(sp, dm, pc) && Successor(sp, dm, pc, g).Some? && fuel > 1
    requires var s := Successor(sp, dm, pc, g).value; OnPath(sp, dm, armed, s.0, s.1, fuel - 1, n, x)
    ensures OnPath(sp, dm, armed, pc, g, fuel, n + 1, x)
  {
    hide Known, Execute, Successor;
  }

  lemma {:induction false} StayWalks(sp: Space, dm: DataMap, irs: seq<Instr>, armed: set<u64>, pc: u64, at: u64, g: Guest, fuel: u64)
    requires TextOk(sp, dm) && Closed(sp, dm) && Known(sp, dm, pc) && irs == Stream(sp, dm, 0) && GuestFits(sp, g)
    requires StreamOk(sp, irs) && DirectTargetsOk(sp, irs)
    ensures OnPath(sp, dm, armed, pc, g, fuel, StaySteps(sp, dm, armed, pc, g, fuel), RunIr(sp, irs, armed, FirstAt(irs, pc, 0), at, g, fuel))
    decreases fuel
  {
    hide Stream, Starts, FirstAt, OpsAt, After, StreamOk, DirectTargetsOk, RunIr, Execute, Known, Hits, OnPath;
    KnownHits(sp, dm, irs, armed, pc);
    var x := RunIr(sp, irs, armed, FirstAt(irs, pc, 0), at, g, fuel);
    if pc in armed {
      HitStops(sp, irs, armed, FirstAt(irs, pc, 0), at, g, fuel);
      OnPathNow(sp, dm, armed, pc, g, fuel, x);
    } else {
      var next := StayStep(sp, dm, irs, armed, pc, at, g, fuel);
      ExecuteStays(sp, dm, pc, g);
      NeverTimesOut(sp, dm, pc, g);
      var r := Execute(sp, dm, pc, g);
      if S64(W64(fuel - 1)) <= 0 {
        OnPathNow(sp, dm, armed, pc, g, fuel, x);
      } else {
        if r.Next? {
          StayWalks(sp, dm, irs, armed, After(sp, dm, pc), at, r.g, fuel - 1);
          OnPathLater(sp, dm, armed, pc, g, fuel, StaySteps(sp, dm, armed, After(sp, dm, pc), r.g, fuel - 1), x);
        } else if r.Direct? {
          KnownInText(sp, dm, r.pc);
          StayWalks(sp, dm, irs, armed, r.pc, at, r.g, fuel - 1);
          OnPathLater(sp, dm, armed, pc, g, fuel, StaySteps(sp, dm, armed, r.pc, r.g, fuel - 1), x);
        } else if r.Indirect? {
          OnPathNow(sp, dm, armed, r.pc, r.g, fuel - 1, x);
          OnPathLater(sp, dm, armed, pc, g, fuel, 0, x);
        } else {
          OnPathNow(sp, dm, armed, pc, g, fuel, x);
        }
      }
    }
  }

  // ---------------------------------------------------------------- a breakpoint on the path is hit

  /** The next n instructions complete, and none of them is armed. */
  predicate Unstopped(sp: Space, dm: DataMap, armed: set<u64>, pc: u64, g: Guest, n: nat)
    requires TextOk(sp, dm) && GuestFits(sp, g)
    decreases n
  {
    n > 0 ==>
      && Known(sp, dm, pc) && pc !in armed && Successor(sp, dm, pc, g).Some?
      && var s := Successor(sp, dm, pc, g).value; Unstopped(sp, dm, armed, s.0, s.1, n - 1)
  }

  /** How far a guest heading for an armed address, n instructions ahead, gets in a stay: it stops
      there, or leaves the code by an indirect jump on the way, from where it is still going there. */
  ghost predicate Heading(sp: Space, dm: DataMap, armed: set<u64>, pc: u64, g: Guest, fuel: u64, n: nat, m: nat, x: Exit)
    requires TextOk(sp, dm) && GuestFits(sp, g)
  {
    && m <= n <= fuel && Walk(sp, dm, pc, g, m).Some?
    && var s := Walk(sp, dm, pc, g, m).value;
       || (m == n && x == Break(s.1, s.0, fuel - n))
       || (0 < m && x == Left(s.1, s.0, fuel - m) && Unstopped(sp, dm, armed, s.0, s.1, n - m))
  }

  lemma HeadingLater(sp: Space, dm: DataMap, armed: set<u64>, pc: u64, g: Guest, fuel: u64, n: nat, m: nat, x: Exit)
    requires TextOk(sp, dm) && GuestFits(sp, g) && Known(sp, dm, pc) && Successor(sp, dm, pc, g).Some? && 0 < n <= fuel
    requires var s := Successor(sp, dm, pc, g).value; Heading(sp, dm, armed, s.0, s.1, fuel - 1, n - 1, m, x)
    ensures Heading(sp, dm, armed, pc, g, fuel, n, m + 1, x)
  {
    hide Known, Successor, Unstopped;
  }

  lemma {:induction false} StayReaches(sp: Space, dm: DataMap, irs: seq<Instr>, armed: set<u64>, pc: u64, at: u64, g: Guest, fuel: u64, n: nat)
    returns (m: nat)
    requires TextOk(sp, dm) && Closed(sp, dm) && Known(sp, dm, pc) && irs == Stream(sp, dm, 0) && GuestFits(sp, g)
    requires StreamOk(sp, irs) && DirectTargetsOk(sp, irs) && n < fuel < TWO63 && Unstopped(sp, dm, armed, pc, g, n)
    requires Walk(sp, dm, pc, g, n).Some? && Walk(sp, dm, pc, g, n).value.0 in armed
    ensures Heading(sp, dm, armed, pc, g, fuel, n, m, RunIr(sp, irs, armed, FirstAt(irs, pc, 0), at, g, fuel))
    decreases n
  {
    hide Stream, Starts, FirstAt, OpsAt, After, StreamOk, DirectTargetsOk, RunIr, Execute, Known, Hits, Heading;
    KnownHits(sp, dm, irs, armed, pc);
    var x := RunIr(sp, irs, armed, FirstAt(irs, pc, 0), at, g, fuel);
    if n == 0 {
      m := 0;
      HitStops(sp, irs, armed, FirstAt(irs, pc, 0), at, g, fuel);
      HeadingHere(sp, dm, armed, pc, g, fuel, x);
    } else {
      var next := StayStep(sp, dm, irs, armed, pc, at, g, fuel);
      ExecuteStays(sp, dm, pc, g);
      var r := Execute(sp, dm, pc, g);
      if r.Next? {
        m := StayReaches(sp, dm, irs, armed, After(sp, dm, pc), at, r.g, fuel - 1, n - 1);
        HeadingLater(sp, dm, armed, pc, g, fuel, n, m, x);
        m := m + 1;
      } else if r.Direct? {
        KnownInText(sp, dm, r.pc);
        m := StayReaches(sp, dm, irs, armed, r.pc, at, r.g, fuel - 1, n - 1);
        HeadingLater(sp, dm, armed, pc, g, fuel, n, m, x);
        m := m + 1;
      } else {
        m := 1;
        HeadingAway(sp, dm, armed, pc, g, fuel, n, x);
      }
    }
  }

  lemma HeadingHere(sp: Space, dm: DataMap, armed: set<u64>, pc: u64, g: Guest, fuel: u64, x: Exit)
    requires TextOk(sp, dm) && GuestFits(sp, g) && x == Break(g, pc, fuel)
    ensures Heading(sp, dm, armed, pc, g, fuel, 0, 0, x)
  {
  }

  lemma HeadingAway(sp: Space, dm: DataMap, armed: set<u64>, pc: u64, g: Guest, fuel: u64, n: nat, x: Exit)
    requires TextOk(sp, dm) && GuestFits(sp, g) && 0 < n <= fuel && Unstopped(sp, dm, armed, pc, g, n)
    requires var s := Successor(sp, dm, pc, g).value; x == Left(s.1, s.0, fuel - 1)
    ensures Heading(sp, dm, armed, pc, g, fuel, n, 1, x)
  {
    hide Known, Successor;
  }
}
