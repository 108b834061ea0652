/** One stay in the generated code, from the trampoline to the return, does what the IR
    program means. */
module Simulation {
  import opened Words
  import opened X86
  import opened Snippet
  import opened Lowering
  import opened LoweringAlu
  import opened LoweringMulDiv
  import opened LoweringMemory
  import opened LoweringOps
  import opened LoweringShape
  import opened Assembler
  import opened X86Encoding
  import opened Execution
  import opened Reference
  import opened Program
  import Sizes
  import Ir

  // ---------------------------------------------------------------- the image is installed

  ghost predicate AllPlaced(e: Env, irs: seq<Ir.Instr>, at: nat, piece: seq<Item>)
    requires Compilable(e, irs)
  {
    forall j | 0 <= j < |piece| :: WellPlaced(e, irs, at + j, piece[j])
  }

  lemma PlacedConcat(e: Env, irs: seq<Ir.Instr>, at: nat, a: seq<Item>, b: seq<Item>)
    requires Compilable(e, irs) && AllPlaced(e, irs, at, a) && AllPlaced(e, irs, at + |a|, b)
    ensures AllPlaced(e, irs, at, a + b)
  {
    hide WellPlaced;
    forall j | 0 <= j < |a + b| ensures WellPlaced(e, irs, at + j, (a + b)[j]) {
      if j >= |a| { assert WellPlaced(e, irs, at + |a| + (j - |a|), b[j - |a|]); }
    }
  }

  lemma {:induction false} BodiesPlaced(e: Env, irs: seq<Ir.Instr>, n: nat)
    requires Compilable(e, irs) && n <= |irs|
    ensures AllPlaced(e, irs, 13, Bodies(e, irs, n))
  {
    hide WellPlaced, LowerAt;
    if n > 0 {
      BodiesPlaced(e, irs, n - 1);
      var piece, at := LowerAt(e, irs, n - 1), Start(e, irs, n - 1);
      forall j | 0 <= j < |piece| ensures WellPlaced(e, irs, at + j, piece[j]) {
        BodyPlaced(e, irs, n - 1, j);
      }
      PlacedConcat(e, irs, 13, Bodies(e, irs, n - 1), LowerAt(e, irs, n - 1));
    }
  }

  lemma FixedGood(e: Env, pc: u64, kind: Ir.FaultKind)
    requires e.sp.textAddr + |e.sp.text| < TWO64
    ensures NoJumps(Trampoline(e)) && NoJumps(EpilogueCode()) && NoJumps(StubCode(pc, kind)[..4])
    ensures StubCode(pc, kind)[4] == JmpTo(Epilogue)
  {
    hide Encode, Le;
  }

  lemma StraightPlaced(e: Env, irs: seq<Ir.Instr>, at: nat, piece: seq<Item>)
    requires Compilable(e, irs) && NoJumps(piece)
    ensures AllPlaced(e, irs, at, piece)
  {
    hide GoodItem, Place, Items;
  }

  lemma {:induction false} StubsPlaced(e: Env, irs: seq<Ir.Instr>, kind: Ir.FaultKind, n: nat, at: nat)
    requires Compilable(e, irs) && n <= |irs|
    ensures AllPlaced(e, irs, at, Stubs(irs, kind, n))
  {
    hide WellPlaced, StubCode, Records;
    if n > 0 {
      StubsPlaced(e, irs, kind, n - 1, at);
      var s := Stubs(irs, kind, n - 1);
      if Records(irs[n - 1], kind) {
        OneStubPlaced(e, irs, irs[n - 1].pc, kind, at + |s|);
        PlacedConcat(e, irs, at, s, StubCode(irs[n - 1].pc, kind));
      }
    }
  }

  lemma OneStubPlaced(e: Env, irs: seq<Ir.Instr>, pc: u64, kind: Ir.FaultKind, at: nat)
    requires Compilable(e, irs)
    ensures AllPlaced(e, irs, at, StubCode(pc, kind))
  {
    hide StubCode, GoodItem, Items;
    FixedGood(e, pc, kind);
    var s := StubCode(pc, kind);
    StraightPlaced(e, irs, at, s[..4]);
    StartBound(e, irs, |irs|);
    assert GoodItem(s[4]) by { JumpGood(s[4]); }
    assert AllPlaced(e, irs, at + 4, s[4..]);
    PlacedConcat(e, irs, at, s[..4], s[4..]);
    assert s == s[..4] + s[4..];
  }

  lemma JumpGood(i: Item)
    requires IsJump(i)
    ensures GoodItem(i)
  {
  }

  lemma ItemsPlaced(e: Env, irs: seq<Ir.Instr>)
    requires Compilable(e, irs)
    ensures AllPlaced(e, irs, 0, Items(e, irs))
  {
    var n := |irs|;
    var t, b, ep := Trampoline(e), Bodies(e, irs, n), EpilogueCode();
    var r, w, o := Stubs(irs, Ir.Read, n), Stubs(irs, Ir.Write, n), Stubs(irs, Ir.Timeout, n);
    assert Items(e, irs) == t + b + ep + r + w + o;
    FixedGood(e, 0, Ir.Read);
    hide AllPlaced, Items, Bodies, Stubs, Trampoline, EpilogueCode;
    StraightPlaced(e, irs, 0, t);
    BodiesPlaced(e, irs, n);
    PlacedConcat(e, irs, 0, t, b);
    StraightPlaced(e, irs, |t + b|, ep);
    PlacedConcat(e, irs, 0, t + b, ep);
    StubsPlaced(e, irs, Ir.Read, n, |t + b + ep|);
    PlacedConcat(e, irs, 0, t + b + ep, r);
    StubsPlaced(e, irs, Ir.Write, n, |t + b + ep + r|);
    PlacedConcat(e, irs, 0, t + b + ep + r, w);
    StubsPlaced(e, irs, Ir.Timeout, n, |t + b + ep + r + w|);
    PlacedConcat(e, irs, 0, t + b + ep + r + w, o);
  }

  /** Code that is the program up to the last stub that fits can be executed up to there. */
  lemma WholeInstalled(e: Env, irs: seq<Ir.Instr>, code: seq<u8>)
    requires Compilable(e, irs) && |code| < TWO31 && AssembledIn(e, irs, code)
    ensures Installed(code, Items(e, irs), TargetsIn(e, irs, |code|), 0, Whole(e, irs, |code|))
  {
    hide Items, Off, GoodItem, Place, Dest, Asm, FittingStubs, Epi;
    var items, tgt, n := Items(e, irs), TargetsIn(e, irs, |code|), Whole(e, irs, |code|);
    ItemsPlaced(e, irs);
    AsmLength(items, tgt, n);
    forall j | 0 <= j < n ensures GoodItem(items[j]) && PlacedAt(code, items, tgt, j) {
      assert WellPlaced(e, irs, 0 + j, items[j]);
      AsmPlaced(items, tgt, n, j);
      OffMonotone(items, j, j + 1);
      OffMonotone(items, j + 1, n);
      SliceOfSlice(code, 0, Asm(items, tgt, n), Off(items, j), Off(items, j + 1));
    }
    TargetsResolved(e, irs, |code|);
  }

  /** The code is the program up to the last stub that fits. */
  ghost predicate AssembledIn(e: Env, irs: seq<Ir.Instr>, code: seq<u8>)
    requires Compilable(e, irs)
  {
    var items, n := Items(e, irs), Whole(e, irs, |code|);
    n <= |items| && Off(items, n) <= |code| && code[..Off(items, n)] == Asm(items, TargetsIn(e, irs, |code|), n)
  }

  /** With room for the whole code every jump leads to its place. */
  lemma FullTargets(e: Env, irs: seq<Ir.Instr>, room: nat)
    requires Compilable(e, irs) && CodeBytes(e, irs) <= room
    ensures TargetsIn(e, irs, room) == AllTargets(e, irs) && Whole(e, irs, room) == |Items(e, irs)|
    ensures forall m: nat | m < AllStubs(irs) :: StubFits(e, irs, room, m)
  {
    hide Items, GoodItem, Epi, StubsAt, Count, Off;
    ItemsPlaced(e, irs);
    Sizes.CodeBytesSum(e, irs);
    StubsBehind(e, irs);
    var items := Items(e, irs);
    forall j: nat | j < |items| && IsJump(items[j]) ensures Dest(e, irs, room, j, items[j].to) == Place(e, irs, j, items[j].to) {
      assert WellPlaced(e, irs, 0 + j, items[j]);
    }
  }

  lemma TargetsResolved(e: Env, irs: seq<Ir.Instr>, room: nat)
    requires Compilable(e, irs)
    ensures Resolved(Items(e, irs), TargetsIn(e, irs, room), 0, |Items(e, irs)|)
  {
    hide Items, GoodItem, Start, Epi, StubStart, StubsAt;
    ItemsPlaced(e, irs);
    var items := Items(e, irs);
    forall j | 0 <= j < |items| && IsJump(items[j]) && items[j].to.Local? ensures Place(e, irs, j, items[j].to) <= |items| {
      assert WellPlaced(e, irs, 0 + j, items[j]);
    }
  }

  // ---------------------------------------------------------------- one operation at a time

  /** The bytes of a breakpoint's trap stub, with its distance to the epilogue. */
  ghost function StubImage(pc: u64, rel: i32): seq<u8>
  {
    Encode(MovImm(RAX, pc)) + Encode(StoreM(Ir.St64, R15, OFF_PC, RAX)) + Encode(MovImm(RAX, FAULT_DEBUG))
    + Encode(StoreM(Ir.St64, R15, OFF_FAULT, RAX)) + Encode(Jmp(rel))
  }

  /** At from a jump leads to a trap stub for pc, and from there to the epilogue. */
  ghost predicate PatchedVia(code: seq<u8>, from: nat, pc: u64, epilogue: nat, stub: nat, back: i32)
  {
    && from + 5 <= |code| && stub + 39 <= |code|
    && -TWO31 <= stub - (from + 5) < TWO31 && code[from..from + 5] == Encode(Jmp(stub - (from + 5)))
    && code[stub..stub + 39] == StubImage(pc, back) && stub + 39 + back == epilogue
  }

  ghost predicate Patched(code: seq<u8>, from: nat, pc: u64, epilogue: nat)
  {
    exists stub: nat, back: i32 :: PatchedVia(code, from, pc, epilogue, stub, back)
  }

  /** Everything the run theorems need to know about the code in memory: it is the compiled
      program, except for a jump to a trap stub at each armed address. */
  ghost predicate Loaded(e: Env, irs: seq<Ir.Instr>, code: seq<u8>, armed: set<u64>)
  {
    && EnvOk(e) && Compilable(e, irs) && StreamOk(e.sp, irs) && DirectTargetsOk(e.sp, irs)
    && FrameInstalled(e, irs, code)
    && forall i | 0 <= i < |irs| ::
         if Hits(irs, armed, i) then Patched(code, CodeAt(e, irs, i), irs[i].pc, CodeAt(e, irs, |irs|))
         else OpInstalled(e, irs, code, i)
  }

  /** The trampoline, the epilogue and the fault stubs that fit stand in the code. */
  ghost predicate FrameInstalled(e: Env, irs: seq<Ir.Instr>, code: seq<u8>)
    requires Compilable(e, irs)
  {
    var items, tgt, n := Items(e, irs), TargetsIn(e, irs, |code|), Whole(e, irs, |code|);
    && 13 <= Epi(e, irs) <= n <= |items|
    && Installed(code, items, tgt, 0, 13) && Installed(code, items, tgt, Epi(e, irs), n)
  }

  /** Control can leave for this label: a stub has to be there. */
  ghost predicate Lands(e: Env, irs: seq<Ir.Instr>, room: nat, l: Label)
    requires Compilable(e, irs)
  {
    l.Stub? ==> StubRank(irs, l.kind, l.index) < FittingStubs(e, irs, room)
  }

  lemma LabelReached(e: Env, irs: seq<Ir.Instr>, code: seq<u8>, j: nat)
    requires Compilable(e, irs) && FrameInstalled(e, irs, code) && j < |Items(e, irs)| && IsJump(Items(e, irs)[j])
    requires !Items(e, irs)[j].to.Local? && Lands(e, irs, |code|, Items(e, irs)[j].to)
    ensures var tgt := TargetsIn(e, irs, |code|);
            Reached(Items(e, irs), tgt, j) && tgt[j] == Place(e, irs, j, Items(e, irs)[j].to)
  {
    hide Items, Start, StubsAt, Count, Off, GoodItem, PlacedAt;
    var l := Items(e, irs)[j].to;
    if l.Stub? {
      assert StubFits(e, irs, |code|, StubRank(irs, l.kind, l.index));
    } else if l.GuestPc? && InText(e.sp, l.pc) {
      StartBound(e, irs, FirstAt(irs, l.pc, 0));
    }
    OffMonotone(Items(e, irs), Place(e, irs, j, l), Whole(e, irs, |code|));
  }

  ghost predicate OpInstalled(e: Env, irs: seq<Ir.Instr>, code: seq<u8>, i: nat)
    requires Compilable(e, irs) && i < |irs|
  {
    Start(e, irs, i + 1) <= |Items(e, irs)| &&
    Installed(code, Items(e, irs), TargetsIn(e, irs, |code|), Start(e, irs, i), Start(e, irs, i + 1))
  }

  lemma FrameRange(e: Env, irs: seq<Ir.Instr>, code: seq<u8>, armed: set<u64>, lo: nat, hi: nat)
    requires Loaded(e, irs, code, armed) && lo <= hi && (hi <= 13 || (Epi(e, irs) <= lo && hi <= Whole(e, irs, |code|)))
    ensures hi <= |Items(e, irs)| && Installed(code, Items(e, irs), TargetsIn(e, irs, |code|), lo, hi)
  {
    hide Items, TargetsIn, Epi, Installed, StreamOk, DirectTargetsOk, EnvOk, OpInstalled, Patched, FittingStubs;
    if hi <= 13 { InstalledWithin(code, Items(e, irs), TargetsIn(e, irs, |code|), 0, 13, lo, hi); }
    else { InstalledWithin(code, Items(e, irs), TargetsIn(e, irs, |code|), Epi(e, irs), Whole(e, irs, |code|), lo, hi); }
  }

  lemma InstalledWithin(code: seq<u8>, items: seq<Item>, tgt: Targets, lo: nat, hi: nat, lo': nat, hi': nat)
    requires lo <= lo' <= hi' <= hi <= |items| && Installed(code, items, tgt, lo, hi)
    ensures Installed(code, items, tgt, lo', hi')
  {
    hide Off, GoodItem, PlacedAt;
    OffMonotone(items, hi', hi);
  }

  /** A run that leaves a piece does so at a jump of the piece, to that jump's label. */
  lemma {:induction false} OutLabel(e: Env, piece: seq<Item>, k: nat, h: Host)
    requires Run(e, piece, k, h).Out?
    ensures var r := Run(e, piece, k, h);
            r.at < |piece| && IsJump(piece[r.at]) && piece[r.at].to == r.to && !r.to.Local?
    decreases |piece| - k
  {
    hide Exec, Holds;
    match piece[k]
    case Op(ins) => OutLabel(e, piece, k + 1, Exec(e, ins, h).h);
    case JmpTo(l) => if l.Local? { OutLabel(e, piece, k + l.skip, h); }
    case JccTo(c, l) =>
      if !Holds(c, h.f) { OutLabel(e, piece, k + 1, h); }
      else if l.Local? { OutLabel(e, piece, k + l.skip, h); }
  }

  /** Where the machine is after a piece of the program that stands at item at. */
  ghost function Arrive(e: Env, irs: seq<Ir.Instr>, at: nat, n: nat, r: Ending): Conf
    requires Compilable(e, irs) && at + n <= |Items(e, irs)|
  {
    var items := Items(e, irs);
    match r
    case Done(h) => At(Off(items, at + n), h)
    case Out(j, l, h) =>
      var t := Place(e, irs, at + j, l);
      if t <= |items| then At(Off(items, t), h) else Crashed
    case Trapped => Signalled
    case Failed => Crashed
  }

  /** A piece that ends at a jump leaves for a label that is there. */
  ghost predicate Leaves(e: Env, irs: seq<Ir.Instr>, room: nat, r: Ending)
    requires Compilable(e, irs)
  {
    r.Out? ==> Lands(e, irs, room, r.to)
  }

  lemma LandingArrives(e: Env, irs: seq<Ir.Instr>, code: seq<u8>, at: nat, piece: seq<Item>, h: Host)
    requires Compilable(e, irs) && FrameInstalled(e, irs, code)
    requires at + |piece| <= |Items(e, irs)| && Items(e, irs)[at..at + |piece|] == piece
    requires Leaves(e, irs, |code|, Run(e, piece, 0, h))
    ensures var r, tgt := Run(e, piece, 0, h), TargetsIn(e, irs, |code|);
            && (r.Out? ==> Reached(Items(e, irs), tgt, at + r.at))
            && Landing(Items(e, irs), tgt, at, |piece|, r) == Arrive(e, irs, at, |piece|, r)
  {
    hide Items, Off, Run, Place, FrameInstalled, Lands;
    var r := Run(e, piece, 0, h);
    if r.Out? {
      OutLabel(e, piece, 0, h);
      assert Items(e, irs)[at + r.at] == piece[r.at];
      LabelReached(e, irs, code, at + r.at);
    }
  }

  /** Runs a piece of the program at a known position. */
  lemma PieceSteps(e: Env, irs: seq<Ir.Instr>, code: seq<u8>, at: nat, piece: seq<Item>, h: Host) returns (n: nat)
    requires Compilable(e, irs) && at + |piece| <= |Items(e, irs)| && Items(e, irs)[at..at + |piece|] == piece
    requires FrameInstalled(e, irs, code) && Leaves(e, irs, |code|, Run(e, piece, 0, h))
    requires Installed(code, Items(e, irs), TargetsIn(e, irs, |code|), at, at + |piece|)
    requires Run(e, piece, 0, h) != Failed
    ensures Steps(e, code, n, At(Off(Items(e, irs), at), h)) == Arrive(e, irs, at, |piece|, Run(e, piece, 0, h))
  {
    hide Items, Off, Run, Place, Step, Steps, Arrive, Landing, TargetsIn, Installed, FrameInstalled, Leaves, Reached;
    var items, tgt := Items(e, irs), TargetsIn(e, irs, |code|);
    LandingArrives(e, irs, code, at, piece, h);
    n := RunSteps(e, code, items, tgt, at, piece, 0, h);
  }

  /** The state between operations: registers ready, guest well-formed, native stack holding
      the caller's registers. */
  ghost predicate Inside(e: Env, h: Host, saved: Regs, base: seq<u64>)
  {
    && Ready(e, h) && h.cpu.x[0] == 0 && h.cpu.fault == 0
    && h.native == base + [saved.rbp, saved.rbx, saved.r12, saved.r13, saved.r14, saved.r15]
    && h.r.rsp == saved.rsp
  }

  /** Back in the caller: the ABI's callee-saved registers and the native stack are as they
      were, and the cpu record holds the outcome. */
  ghost predicate Back(e: Env, c: Conf, x: Exit, h0: Host, saved: Regs, base: seq<u64>)
  {
    if x.Trap? then c == Signalled
    else
      c.Finished? && Restored(c.h, saved, base) && GuestOf(c.h) == x.g &&
      c.h.cpu == h0.cpu.(x := x.g.x, pc := x.pc, fuel := x.fuel, fault := FaultOf(x))
  }

  /** The fault code a stay leaves in the cpu record. */
  function FaultOf(x: Exit): u64
    requires !x.Trap?
  {
    if x.Fault? then FaultCode(x.kind) else if x.Break? then FAULT_DEBUG else 0
  }

  ghost predicate Restored(h: Host, saved: Regs, base: seq<u64>)
  {
    h.native == base && h.r.rbp == saved.rbp && h.r.rbx == saved.rbx && h.r.rsp == saved.rsp &&
    h.r.r12 == saved.r12 && h.r.r13 == saved.r13 && h.r.r14 == saved.r14 && h.r.r15 == saved.r15
  }

  // ---------------------------------------------------------------- epilogue and stubs

  lemma PopExec(e: Env, r: Reg, h: Host, below: seq<u64>, v: u64)
    requires |h.cpu.x| == 32 && h.native == below + [v]
    ensures Exec(e, Pop(r), h) == Fall(Put(h, r, v).(native := below))
  {
    hide Bits64, Bits32, ShiftValue, Grp3Value, ReadHost, WriteHost, CallEcall, Set;
    assert h.native[..|h.native| - 1] == below;
  }

  lemma RetExec(e: Env, h: Host)
    requires |h.cpu.x| == 32
    ensures Exec(e, Ret, h) == Return(h)
  {
    hide Bits64, Bits32, ShiftValue, Grp3Value, ReadHost, WriteHost, CallEcall;
  }

  lemma PopStep(e: Env, code: seq<u8>, items: seq<Item>, tgt: Targets, lo: nat, hi: nat, j: nat, r: Reg, h: Host,
                below: seq<u64>, v: u64)
    returns (h': Host)
    requires lo <= j < hi <= |items| && items[j] == Op(Pop(r))
    requires Installed(code, items, tgt, lo, hi) && |h.cpu.x| == 32 && h.native == below + [v]
    ensures h' == Put(h, r, v).(native := below)
    ensures Step(e, code, At(Off(items, j), h)) == At(Off(items, j + 1), h')
  {
    hide Exec, Off, Step, Set, Installed;
    PopExec(e, r, h, below, v);
    OpStep(e, code, items, tgt, lo, hi, j, h);
    h' := Put(h, r, v).(native := below);
  }

  lemma EpilogueItems(items: seq<Item>, ep: nat)
    requires ep + 7 <= |items| && items[ep..ep + 7] == EpilogueCode()
    ensures items[ep] == Op(Pop(R15)) && items[ep + 1] == Op(Pop(R14)) && items[ep + 2] == Op(Pop(R13))
    ensures items[ep + 3] == Op(Pop(R12)) && items[ep + 4] == Op(Pop(RBX)) && items[ep + 5] == Op(Pop(RBP))
    ensures items[ep + 6] == Op(Ret)
  {
    var s := items[ep..ep + 7];
    assert s[0] == items[ep] && s[1] == items[ep + 1] && s[2] == items[ep + 2] && s[3] == items[ep + 3];
    assert s[4] == items[ep + 4] && s[5] == items[ep + 5] && s[6] == items[ep + 6];
  }

  lemma EpilogueRun(e: Env, code: seq<u8>, items: seq<Item>, tgt: Targets, ep: nat, h: Host, saved: Regs, base: seq<u64>)
    returns (h': Host)
    requires ep + 7 <= |items| && items[ep..ep + 7] == EpilogueCode() && Installed(code, items, tgt, ep, ep + 7)
    requires |h.cpu.x| == 32 && h.r.rsp == saved.rsp
    requires h.native == base + [saved.rbp, saved.rbx, saved.r12, saved.r13, saved.r14, saved.r15]
    ensures Steps(e, code, 7, At(Off(items, ep), h)) == Finished(h')
    ensures Restored(h', saved, base) && h'.cpu == h.cpu && h'.stack == h.stack && h'.data == h.data
  {
    hide Exec, Off, Step, Steps, Installed, EpilogueCode;
    EpilogueItems(items, ep);
    var s1 := base + [saved.rbp];
    var s2 := s1 + [saved.rbx];
    var s3 := s2 + [saved.r12];
    var s4 := s3 + [saved.r13];
    var s5 := s4 + [saved.r14];
    assert h.native == s5 + [saved.r15];
    var h1 := PopStep(e, code, items, tgt, ep, ep + 7, ep, R15, h, s5, saved.r15);
    var h2 := PopStep(e, code, items, tgt, ep, ep + 7, ep + 1, R14, h1, s4, saved.r14);
    var h3 := PopStep(e, code, items, tgt, ep, ep + 7, ep + 2, R13, h2, s3, saved.r13);
    var h4 := PopStep(e, code, items, tgt, ep, ep + 7, ep + 3, R12, h3, s2, saved.r12);
    var h5 := PopStep(e, code, items, tgt, ep, ep + 7, ep + 4, RBX, h4, s1, saved.rbx);
    h' := PopStep(e, code, items, tgt, ep, ep + 7, ep + 5, RBP, h5, base, saved.rbp);
    RetExec(e, h');
    OpStep(e, code, items, tgt, ep, ep + 7, ep + 6, h');
    SevenSteps(e, code, At(Off(items, ep), h), At(Off(items, ep + 1), h1), At(Off(items, ep + 2), h2),
               At(Off(items, ep + 3), h3), At(Off(items, ep + 4), h4), At(Off(items, ep + 5), h5),
               At(Off(items, ep + 6), h'), Finished(h'));
  }

  lemma SevenSteps(e: Env, code: seq<u8>, c0: Conf, c1: Conf, c2: Conf, c3: Conf, c4: Conf, c5: Conf, c6: Conf, c7: Conf)
    requires Step(e, code, c0) == c1 && Step(e, code, c1) == c2 && Step(e, code, c2) == c3 && Step(e, code, c3) == c4
    requires Step(e, code, c4) == c5 && Step(e, code, c5) == c6 && Step(e, code, c6) == c7
    ensures Steps(e, code, 7, c0) == c7
  {
    hide Step;
    assert Steps(e, code, 1, c6) == c7 by { assert Steps(e, code, 0, c7) == c7; }
    assert Steps(e, code, 2, c5) == c7;
    assert Steps(e, code, 3, c4) == c7;
    assert Steps(e, code, 4, c3) == c7;
    assert Steps(e, code, 5, c2) == c7;
    assert Steps(e, code, 6, c1) == c7;
  }

  lemma EpilogueSteps(e: Env, irs: seq<Ir.Instr>, code: seq<u8>, armed: set<u64>, h: Host, saved: Regs, base: seq<u64>)
    returns (h': Host)
    requires Loaded(e, irs, code, armed) && |h.cpu.x| == 32 && h.r.rsp == saved.rsp
    requires h.native == base + [saved.rbp, saved.rbx, saved.r12, saved.r13, saved.r14, saved.r15]
    ensures Steps(e, code, 7, At(CodeAt(e, irs, |irs|), h)) == Finished(h')
    ensures Restored(h', saved, base) && h'.cpu == h.cpu && h'.stack == h.stack && h'.data == h.data
  {
    hide Items, Installed, TargetsIn, Off, Steps, EnvOk, StreamOk, DirectTargetsOk, FittingStubs, OpInstalled, Patched, FrameInstalled,
         Restored, EpilogueCode, Start;
    PartSlices(e, irs);
    FrameRange(e, irs, code, armed, Epi(e, irs), Epi(e, irs) + 7);
    h' := EpilogueRun(e, code, Items(e, irs), TargetsIn(e, irs, |code|), Epi(e, irs), h, saved, base);
  }

  lemma StubRun(e: Env, pc: u64, kind: Ir.FaultKind, h: Host) returns (h': Host)
    requires Ready(e, h)
    ensures Run(e, StubCode(pc, kind), 0, h) == Out(4, Epilogue, h')
    ensures Ready(e, h') && SameReserved(h.r, h'.r) && h'.native == h.native
    ensures h'.cpu == h.cpu.(pc := pc, fault := FaultCode(kind)) && h'.stack == h.stack && h'.data == h.data
  {
    hide Run, Exec, EnvOk;
    var code := StubCode(pc, kind);
    var h1 := Put(h, RAX, pc);
    MovImmExec(e, RAX, pc, h); RunOp(e, code, 0, h, h1);
    StorePcExec(e, h1);
    var h2 := h1.(cpu := h1.cpu.(pc := pc));
    RunOp(e, code, 1, h1, h2);
    var h3 := Put(h2, RAX, FaultCode(kind));
    MovImmExec(e, RAX, FaultCode(kind), h2); RunOp(e, code, 2, h2, h3);
    h' := h3.(cpu := h3.cpu.(fault := FaultCode(kind)));
    StoreCpuExec(e, OFF_FAULT, RAX, h3); RunOp(e, code, 3, h3, h');
    RunOut(e, code, 4, h');
  }

  /** From the epilogue on, a stay that ended normally. */
  lemma LeaveSteps(e: Env, irs: seq<Ir.Instr>, code: seq<u8>, armed: set<u64>, h: Host, saved: Regs, base: seq<u64>)
    returns (n: nat, c: Conf)
    requires Loaded(e, irs, code, armed) && Inside(e, h, saved, base)
    ensures Steps(e, code, n, At(CodeAt(e, irs, |irs|), h)) == c
    ensures Back(e, c, Left(GuestOf(h), h.cpu.pc, h.cpu.fuel), h, saved, base)
  {
    hide Steps, Loaded, CodeAt, Restored, Ready;
    ReadyBounds(e, h);
    var h' := EpilogueSteps(e, irs, code, armed, h, saved, base);
    n, c := 7, Finished(h');
  }

  /** From a fault stub on. */
  lemma FaultSteps(e: Env, irs: seq<Ir.Instr>, code: seq<u8>, armed: set<u64>,
      i: nat, kind: Ir.FaultKind, h: Host, saved: Regs, base: seq<u64>)
    returns (n: nat, c: Conf)
    requires Loaded(e, irs, code, armed) && Inside(e, h, saved, base) && i < |irs| && Records(irs[i], kind)
    requires StubRank(irs, kind, Count(irs, kind, i)) < FittingStubs(e, irs, |code|)
    ensures var t := StubStart(e, irs, kind) + 5 * Count(irs, kind, i);
            t <= |Items(e, irs)| && Steps(e, code, n, At(Off(Items(e, irs), t), h)) == c
    ensures Back(e, c, Fault(kind, GuestOf(h), irs[i].pc, h.cpu.fuel), h, saved, base)
  {
    hide Steps, Step, CodeAt, Restored, Ready, Items, Off, Run, StubCode, Records, Installed, EnvOk, StreamOk, DirectTargetsOk;
    hide FrameInstalled, OpInstalled, Patched, TargetsIn, FittingStubs, Count;
    ReadyBounds(e, h);
    var t := StubStart(e, irs, kind) + 5 * Count(irs, kind, i);
    StubSlice(e, irs, kind, i);
    var h1 := StubRun(e, irs[i].pc, kind, h);
    StartBound(e, irs, |irs|);
    FrameRange(e, irs, code, armed, t, t + 5);
    var m := PieceSteps(e, irs, code, t, StubCode(irs[i].pc, kind), h);
    assert Steps(e, code, m, At(Off(Items(e, irs), t), h)) == At(CodeAt(e, irs, |irs|), h1) by { OffEpi(e, irs); }
    ReadyBounds(e, h1);
    var h2 := EpilogueSteps(e, irs, code, armed, h1, saved, base);
    StepsAdd(e, code, m, 7, At(Off(Items(e, irs), t), h));
    n, c := m + 7, Finished(h2);
  }

  // ---------------------------------------------------------------- breakpoints

  /** Fetches one encoded instruction that falls through. */
  lemma FetchFalls(e: Env, code: seq<u8>, off: nat, ins: Instr, h: Host, h': Host)
    requires off + |Encode(ins)| <= |code| && code[off..off + |Encode(ins)|] == Encode(ins) && Encodable(ins)
    requires |h.cpu.x| == 32 && Exec(e, ins, h) == Fall(h')
    ensures off < |code| && Step(e, code, At(off, h)) == At(off + |Encode(ins)|, h')
  {
    hide Encode, Decode, Encodable, Exec;
    FetchDecodes(code, off, ins);
  }

  lemma FetchDecodes(code: seq<u8>, off: nat, ins: Instr)
    requires off + |Encode(ins)| <= |code| && code[off..off + |Encode(ins)|] == Encode(ins) && Encodable(ins)
    ensures off < |code| && Decode(code[off..]) == Some((ins, |Encode(ins)|))
  {
    hide Encode, Decode, Encodable;
    var n := |Encode(ins)|;
    assert code[off..] == Encode(ins) + code[off + n..];
    DecodeEncode(ins, code[off + n..]);
    if off == |code| {
      assert Encode(ins) + code[off + n..] == [];
      DecodeEmpty();
    }
  }

  lemma FetchJumps(e: Env, code: seq<u8>, off: nat, rel: i32, h: Host)
    requires off + 5 <= |code| && code[off..off + 5] == Encode(Jmp(rel)) && |h.cpu.x| == 32
    ensures Step(e, code, At(off, h)) == At(off + 5 + rel, h)
  {
    hide Decode, Exec;
    JumpEncoding(Snippet.JmpTo(Epilogue), rel);
    FetchDecodes(code, off, Jmp(rel));
    JumpExec(e, Snippet.JmpTo(Epilogue), rel, h);
  }

  /** The five instructions of a trap stub, where they stand. */
  lemma StubPlaces(code: seq<u8>, stub: nat, pc: u64, back: i32)
    requires stub + 39 <= |code| && code[stub..stub + 39] == StubImage(pc, back)
    ensures var a, b, c, d, j := Encode(MovImm(RAX, pc)), Encode(StoreM(Ir.St64, R15, OFF_PC, RAX)),
                                 Encode(MovImm(RAX, FAULT_DEBUG)), Encode(StoreM(Ir.St64, R15, OFF_FAULT, RAX)), Encode(Jmp(back));
            && |a| == 10 && |b| == 7 && |c| == 10 && |d| == 7 && |j| == 5
            && code[stub..stub + 10] == a && code[stub + 10..stub + 17] == b && code[stub + 17..stub + 27] == c
            && code[stub + 27..stub + 34] == d && code[stub + 34..stub + 39] == j
  {
    hide Encode;
    StubSizes(pc, back);
    FiveParts(Encode(MovImm(RAX, pc)), Encode(StoreM(Ir.St64, R15, OFF_PC, RAX)), Encode(MovImm(RAX, FAULT_DEBUG)),
              Encode(StoreM(Ir.St64, R15, OFF_FAULT, RAX)), Encode(Jmp(back)));
    var s := code[stub..stub + 39];
    SliceOfSlice(code, stub, s, 0, 10);
    SliceOfSlice(code, stub, s, 10, 17);
    SliceOfSlice(code, stub, s, 17, 27);
    SliceOfSlice(code, stub, s, 27, 34);
    SliceOfSlice(code, stub, s, 34, 39);
  }

  lemma FiveParts(a: seq<u8>, b: seq<u8>, c: seq<u8>, d: seq<u8>, j: seq<u8>)
    requires |a| == 10 && |b| == 7 && |c| == 10 && |d| == 7 && |j| == 5
    ensures var s := a + b + c + d + j;
            s[0..10] == a && s[10..17] == b && s[17..27] == c && s[27..34] == d && s[34..39] == j
  {
  }

  lemma StubSizes(pc: u64, back: i32)
    ensures |Encode(MovImm(RAX, pc))| == 10 && |Encode(MovImm(RAX, FAULT_DEBUG))| == 10 && |Encode(Jmp(back))| == 5
    ensures |Encode(StoreM(Ir.St64, R15, OFF_PC, RAX))| == 7 && |Encode(StoreM(Ir.St64, R15, OFF_FAULT, RAX))| == 7
  {
  }

  /** Running a trap stub: the address and the debug fault are stored, nothing else changes. */
  lemma TrapStub(e: Env, code: seq<u8>, stub: nat, pc: u64, back: i32, h: Host) returns (h': Host)
    requires Ready(e, h) && stub + 39 <= |code| && code[stub..stub + 39] == StubImage(pc, back)
    ensures Steps(e, code, 5, At(stub, h)) == At(stub + 39 + back, h')
    ensures Ready(e, h') && SameReserved(h.r, h'.r) && h'.native == h.native
    ensures h'.cpu == h.cpu.(pc := pc, fault := FAULT_DEBUG) && h'.stack == h.stack && h'.data == h.data
  {
    hide Exec, EnvOk, Encode, Step, Steps, StubImage;
    StubPlaces(code, stub, pc, back);
    StubEncodable(pc);
    var h1 := Put(h, RAX, pc);
    MovImmExec(e, RAX, pc, h);
    FetchFalls(e, code, stub, MovImm(RAX, pc), h, h1);
    StorePcExec(e, h1);
    var h2 := h1.(cpu := h1.cpu.(pc := pc));
    FetchFalls(e, code, stub + 10, StoreM(Ir.St64, R15, OFF_PC, RAX), h1, h2);
    var h3 := Put(h2, RAX, FAULT_DEBUG);
    MovImmExec(e, RAX, FAULT_DEBUG, h2);
    FetchFalls(e, code, stub + 17, MovImm(RAX, FAULT_DEBUG), h2, h3);
    h' := h3.(cpu := h3.cpu.(fault := FAULT_DEBUG));
    StoreCpuExec(e, OFF_FAULT, RAX, h3);
    FetchFalls(e, code, stub + 27, StoreM(Ir.St64, R15, OFF_FAULT, RAX), h3, h');
    FetchJumps(e, code, stub + 34, back, h');
    FiveSteps(e, code, At(stub, h), At(stub + 10, h1), At(stub + 17, h2), At(stub + 27, h3), At(stub + 34, h'),
              At(stub + 39 + back, h'));
  }

  lemma StubEncodable(pc: u64)
    ensures Encodable(MovImm(RAX, pc)) && Encodable(MovImm(RAX, FAULT_DEBUG))
    ensures Encodable(StoreM(Ir.St64, R15, OFF_PC, RAX)) && Encodable(StoreM(Ir.St64, R15, OFF_FAULT, RAX))
  {
  }

  lemma FiveSteps(e: Env, code: seq<u8>, c0: Conf, c1: Conf, c2: Conf, c3: Conf, c4: Conf, c5: Conf)
    requires Step(e, code, c0) == c1 && Step(e, code, c1) == c2 && Step(e, code, c2) == c3
    requires Step(e, code, c3) == c4 && Step(e, code, c4) == c5
    ensures Steps(e, code, 5, c0) == c5
  {
    hide Step;
    assert Steps(e, code, 0, c5) == c5;
    assert Steps(e, code, 1, c4) == c5;
    assert Steps(e, code, 2, c3) == c5;
    assert Steps(e, code, 3, c2) == c5;
    assert Steps(e, code, 4, c1) == c5;
  }

  /** At an armed address the machine stops before the instruction has done anything. */
  lemma BreakSteps(e: Env, irs: seq<Ir.Instr>, code: seq<u8>, armed: set<u64>, i: nat, h: Host, saved: Regs, base: seq<u64>)
    returns (n: nat, c: Conf)
    requires Loaded(e, irs, code, armed) && Inside(e, h, saved, base) && i < |irs| && Hits(irs, armed, i)
    ensures Steps(e, code, n, At(CodeAt(e, irs, i), h)) == c
    ensures Back(e, c, Break(GuestOf(h), irs[i].pc, h.cpu.fuel), h, saved, base)
  {
    hide Steps, Step, CodeAt, Restored, Ready, Encode, FrameInstalled, OpInstalled, EnvOk, StreamOk, DirectTargetsOk, StubImage;
    ReadyBounds(e, h);
    var from, pc := CodeAt(e, irs, i), irs[i].pc;
    assert Patched(code, from, pc, CodeAt(e, irs, |irs|));
    var stub: nat, back: i32 :| PatchedVia(code, from, pc, CodeAt(e, irs, |irs|), stub, back);
    var rel: i32 := stub - (from + 5);
    FetchJumps(e, code, from, rel, h);
    OneStep(e, code, At(from, h));
    var h1 := TrapStub(e, code, stub, pc, back, h);
    StepsAdd(e, code, 1, 5, At(from, h));
    ReadyBounds(e, h1);
    var h2 := EpilogueSteps(e, irs, code, armed, h1, saved, base);
    StepsAdd(e, code, 6, 7, At(from, h));
    n, c := 13, Finished(h2);
  }

  lemma OffEpi(e: Env, irs: seq<Ir.Instr>)
    requires Compilable(e, irs)
    ensures Epi(e, irs) <= |Items(e, irs)| && CodeAt(e, irs, |irs|) == Off(Items(e, irs), Epi(e, irs))
  {
    hide Items, Off;
    StartBound(e, irs, |irs|);
  }

  // ---------------------------------------------------------------- the whole stay

  lemma InsideShape(e: Env, h: Host, saved: Regs, base: seq<u64>)
    requires Inside(e, h, saved, base)
    ensures GuestFits(e.sp, GuestOf(h)) && Ready(e, h) && h.cpu.x[0] == 0 && |h.cpu.x| == 32
  {
    hide EnvOk;
  }

  /** The state after an operation is again a state between operations. */
  lemma InsideKept(e: Env, h: Host, h': Host, g: Ir.Guest, pc: u64, saved: Regs, base: seq<u64>)
    requires Inside(e, h, saved, base) && Became(h, h', g, pc) && GuestFits(e.sp, g)
    ensures Inside(e, h', saved, base) && GuestOf(h') == g && h'.cpu.pc == pc && h'.cpu.fuel == h.cpu.fuel
  {
    hide EnvOk;
  }

  /** Outcomes compose along a run. */
  lemma BackKept(e: Env, c: Conf, x: Exit, h: Host, h': Host, saved: Regs, base: seq<u64>)
    requires Back(e, c, x, h', saved, base)
    requires h'.cpu.stackMem == h.cpu.stackMem && h'.cpu.stackSize == h.cpu.stackSize
    ensures Back(e, c, x, h, saved, base)
  {
    hide Restored;
  }

  /** Runs the code of one operation. */
  lemma OpSteps(e: Env, irs: seq<Ir.Instr>, code: seq<u8>, armed: set<u64>, i: nat, h: Host) returns (n: nat, r: Ending)
    requires Loaded(e, irs, code, armed) && i < |irs| && !Hits(irs, armed, i) && Run(e, LowerAt(e, irs, i), 0, h) != Failed
    requires Leaves(e, irs, |code|, Run(e, LowerAt(e, irs, i), 0, h))
    ensures r == Run(e, LowerAt(e, irs, i), 0, h)
    ensures r.Done? ==> Steps(e, code, n, At(CodeAt(e, irs, i), h)) == At(CodeAt(e, irs, i + 1), r.h)
    ensures r.Trapped? ==> Steps(e, code, n, At(CodeAt(e, irs, i), h)) == Signalled
    ensures r.Out? ==> !r.to.Local? && LabelFits(r.to, 0, 0, irs[i], Count(irs, KindOf(irs[i]), i))
    ensures r.Out? ==>
            var t := Place(e, irs, 0, r.to);
            t <= |Items(e, irs)| ==> Steps(e, code, n, At(CodeAt(e, irs, i), h)) == At(Off(Items(e, irs), t), r.h)
  {
    hide Steps, Step, Items, Off, Run, Lower, Installed, EnvOk, StreamOk, DirectTargetsOk, Start, Epi, StubStart, GoodItem, Records;
    hide FrameInstalled, Patched, TargetsIn, Leaves;
    var piece := LowerAt(e, irs, i);
    assert OpInstalled(e, irs, code, i);
    BodySlice(e, irs, i);
    n := PieceSteps(e, irs, code, Start(e, irs, i), piece, h);
    r := Run(e, piece, 0, h);
    if r.Out? {
      OutLabel(e, piece, 0, h);
      LowerFits(e, irs[i], Count(irs, KindOf(irs[i]), i));
    }
  }

  ghost function Meaning(e: Env, irs: seq<Ir.Instr>, armed: set<u64>, i: nat, h: Host): Exit
    requires StreamOk(e.sp, irs) && DirectTargetsOk(e.sp, irs) && i <= |irs| && GuestFits(e.sp, GuestOf(h))
  {
    RunIr(e.sp, irs, armed, i, h.cpu.pc, GuestOf(h), h.cpu.fuel)
  }

  /** A stay that faults does so at an instruction whose stub is there. */
  ghost predicate Covered(e: Env, irs: seq<Ir.Instr>, room: nat, x: Exit)
    requires Compilable(e, irs)
  {
    x.Fault? ==> forall i | 0 <= i < |irs| && irs[i].pc == x.pc && Records(irs[i], x.kind) ::
                   StubFits(e, irs, room, StubRank(irs, x.kind, Count(irs, x.kind, i)))
  }

  lemma CoveredStub(e: Env, irs: seq<Ir.Instr>, room: nat, x: Exit, i: nat)
    requires Compilable(e, irs) && Covered(e, irs, room, x) && x.Fault? && i < |irs| && irs[i].pc == x.pc && Records(irs[i], x.kind)
    ensures StubRank(irs, x.kind, Count(irs, x.kind, i)) < FittingStubs(e, irs, room)
  {
    hide StubFits, Records, FittingStubs, Compilable;
    var m := RankBound(irs, x.kind, i);
    FitsRank(e, irs, room, m);
  }

  /** With room for the whole code every stay is covered. */
  lemma AllCovered(e: Env, irs: seq<Ir.Instr>, room: nat, x: Exit)
    requires Compilable(e, irs) && CodeBytes(e, irs) <= room
    ensures Covered(e, irs, room, x)
  {
    hide StubFits, Records, Compilable, AllTargets, TargetsIn, CodeBytes;
    FullTargets(e, irs, room);
    if x.Fault? {
      forall i | 0 <= i < |irs| && irs[i].pc == x.pc && Records(irs[i], x.kind)
        ensures StubFits(e, irs, room, StubRank(irs, x.kind, Count(irs, x.kind, i))) {
        var m := RankBound(irs, x.kind, i);
      }
    }
  }

  lemma RankBound(irs: seq<Ir.Instr>, kind: Ir.FaultKind, i: nat) returns (m: nat)
    requires i < |irs| && Records(irs[i], kind)
    ensures m == StubRank(irs, kind, Count(irs, kind, i)) < AllStubs(irs)
  {
    hide Records;
    m := StubRank(irs, kind, Count(irs, kind, i));
    CountMonotone(irs, kind, i + 1, |irs|);
  }

  lemma FitsRank(e: Env, irs: seq<Ir.Instr>, room: nat, m: nat)
    requires Compilable(e, irs) && StubFits(e, irs, room, m) && m < AllStubs(irs)
    ensures m < FittingStubs(e, irs, room)
  {
    hide StubFits, StubRank, StubsAt;
  }

  /** From the first instruction of any operation, the machine comes back with the outcome
      the IR program has from there. */
  lemma {:induction false} Simulates(e: Env, irs: seq<Ir.Instr>, code: seq<u8>, armed: set<u64>,
      i: nat, h: Host, saved: Regs, base: seq<u64>)
    returns (n: nat, c: Conf)
    requires Loaded(e, irs, code, armed) && i <= |irs| && Inside(e, h, saved, base) && GuestFits(e.sp, GuestOf(h))
    requires Covered(e, irs, |code|, Meaning(e, irs, armed, i, h))
    ensures Steps(e, code, n, At(CodeAt(e, irs, i), h)) == c
    ensures Back(e, c, Meaning(e, irs, armed, i, h), h, saved, base)
    decreases h.cpu.fuel, Rank(irs, i), 1
  {
    hide Steps, Step, Items, FrameInstalled, OpInstalled, Patched, EnvOk, StreamOk, DirectTargetsOk, Back, Inside, CodeAt, RunIr;
    if i == |irs| {
      n, c := LeaveSteps(e, irs, code, armed, h, saved, base);
      RunIrEnd(e, irs, armed, h);
    } else if Hits(irs, armed, i) {
      n, c := BreakSteps(e, irs, code, armed, i, h, saved, base);
      RunIrBreak(e, irs, armed, i, h);
    } else if irs[i].op.FuelCheck? {
      n, c := SimulatesFuel(e, irs, code, armed, i, h, saved, base);
    } else {
      n, c := SimulatesOp(e, irs, code, armed, i, h, saved, base);
    }
  }

  lemma RunIrEnd(e: Env, irs: seq<Ir.Instr>, armed: set<u64>, h: Host)
    requires StreamOk(e.sp, irs) && DirectTargetsOk(e.sp, irs) && GuestFits(e.sp, GuestOf(h))
    ensures Meaning(e, irs, armed, |irs|, h) == Left(GuestOf(h), h.cpu.pc, h.cpu.fuel)
  {
    hide Ir.Step;
  }

  lemma RunIrBreak(e: Env, irs: seq<Ir.Instr>, armed: set<u64>, i: nat, h: Host)
    requires StreamOk(e.sp, irs) && DirectTargetsOk(e.sp, irs) && i < |irs| && GuestFits(e.sp, GuestOf(h))
    requires Hits(irs, armed, i)
    ensures Meaning(e, irs, armed, i, h) == Break(GuestOf(h), irs[i].pc, h.cpu.fuel)
  {
    hide Ir.Step;
  }

  lemma RunIrFuel(e: Env, irs: seq<Ir.Instr>, armed: set<u64>, i: nat, h: Host)
    requires StreamOk(e.sp, irs) && DirectTargetsOk(e.sp, irs) && i < |irs| && GuestFits(e.sp, GuestOf(h))
    requires irs[i].op.FuelCheck? && !Hits(irs, armed, i)
    ensures var rest := W64(h.cpu.fuel - 1);
            Meaning(e, irs, armed, i, h) ==
            if S64(rest) <= 0 then Fault(Ir.Timeout, GuestOf(h), irs[i].pc, rest)
            else RunIr(e.sp, irs, armed, i + 1, h.cpu.pc, GuestOf(h), rest)
  {
    hide Ir.Step, FirstAt, StreamOk, DirectTargetsOk, GuestFits;
  }

  lemma {:induction false} SimulatesFuel(e: Env, irs: seq<Ir.Instr>, code: seq<u8>, armed: set<u64>,
      i: nat, h: Host, saved: Regs, base: seq<u64>)
    returns (n: nat, c: Conf)
    requires Loaded(e, irs, code, armed) && i < |irs| && Inside(e, h, saved, base) && GuestFits(e.sp, GuestOf(h))
    requires irs[i].op.FuelCheck? && !Hits(irs, armed, i)
    requires Covered(e, irs, |code|, Meaning(e, irs, armed, i, h))
    ensures Steps(e, code, n, At(CodeAt(e, irs, i), h)) == c
    ensures Back(e, c, Meaning(e, irs, armed, i, h), h, saved, base)
    decreases h.cpu.fuel, Rank(irs, i), 0
  {
    hide Steps, Step, Items, FrameInstalled, OpInstalled, Patched, EnvOk, StreamOk, DirectTargetsOk, Back, Inside, CodeAt, RunIr, Ready;
    hide Run, Lower, StubStart, Off;
    InsideShape(e, h, saved, base);
    var k := Count(irs, Ir.Timeout, i);
    assert Ir.InstrOk(irs[i]);
    FuelOk(e, irs[i], k, h);
    RunIrFuel(e, irs, armed, i, h);
    if S64(W64(h.cpu.fuel - 1)) <= 0 { CoveredStub(e, irs, |code|, Meaning(e, irs, armed, i, h), i); }
    var m, r := OpSteps(e, irs, code, armed, i, h);
    var fuel := W64(h.cpu.fuel - 1);
    FuelInside(e, h, r.h, fuel, saved, base);
    if S64(fuel) <= 0 {
      var m2, c2 := FaultSteps(e, irs, code, armed, i, Ir.Timeout, r.h, saved, base);
      StepsAdd(e, code, m, m2, At(CodeAt(e, irs, i), h));
      n, c := m + m2, c2;
      BackKept(e, c, Meaning(e, irs, armed, i, h), h, r.h, saved, base);
    } else {
      assert fuel == h.cpu.fuel - 1;
      InsideShape(e, r.h, saved, base);
      var m2, c2 := Simulates(e, irs, code, armed, i + 1, r.h, saved, base);
      StepsAdd(e, code, m, m2, At(CodeAt(e, irs, i), h));
      n, c := m + m2, c2;
      BackKept(e, c, Meaning(e, irs, armed, i, h), h, r.h, saved, base);
    }
  }

  lemma FuelInside(e: Env, h: Host, h': Host, fuel: u64, saved: Regs, base: seq<u64>)
    requires Inside(e, h, saved, base) && ScratchOnly(h.(cpu := h.cpu.(fuel := fuel)), h')
    ensures Inside(e, h', saved, base) && GuestOf(h') == GuestOf(h) && h'.cpu == h.cpu.(fuel := fuel)
  {
    hide EnvOk;
  }

  /** One step of RunIr over an operation that is not a fuel check. */
  lemma RunIrOp(e: Env, irs: seq<Ir.Instr>, armed: set<u64>, i: nat, h: Host)
    requires StreamOk(e.sp, irs) && DirectTargetsOk(e.sp, irs) && i < |irs| && GuestFits(e.sp, GuestOf(h))
    requires !irs[i].op.FuelCheck?
    ensures var r := Ir.Step(e.sp, irs[i], GuestOf(h));
            (r.Next? || r.Direct? || r.Indirect? ==> GuestFits(e.sp, r.g)) &&
            (r.Next? ==> Meaning(e, irs, armed, i, h) == RunIr(e.sp, irs, armed, i + 1, h.cpu.pc, r.g, h.cpu.fuel)) &&
            (r.Direct? && InText(e.sp, r.pc) ==>
               var t := FirstAt(irs, r.pc, 0);
               t < |irs| && irs[t].op.FuelCheck? &&
               Meaning(e, irs, armed, i, h) == RunIr(e.sp, irs, armed, t, h.cpu.pc, r.g, h.cpu.fuel)) &&
            (r.Direct? && !InText(e.sp, r.pc) ==> Meaning(e, irs, armed, i, h) == Left(r.g, h.cpu.pc, h.cpu.fuel)) &&
            (r.Indirect? ==> Meaning(e, irs, armed, i, h) == Left(r.g, r.pc, h.cpu.fuel)) &&
            (r.Faulted? ==> Meaning(e, irs, armed, i, h) == Fault(r.kind, GuestOf(h), irs[i].pc, h.cpu.fuel)) &&
            (r.Trapped? ==> Meaning(e, irs, armed, i, h) == Exit.Trap(irs[i].pc))
  {
    hide Ir.Step, StreamOk, DirectTargetsOk;
    assert Ir.InstrOk(irs[i]) by { StreamInstrOk(e.sp, irs, i); }
    StepKeepsShape(e.sp, irs[i], GuestOf(h));
    if Ir.Step(e.sp, irs[i], GuestOf(h)).Direct? && InText(e.sp, Ir.Step(e.sp, irs[i], GuestOf(h)).pc) {
      DirectTarget(e.sp, irs, i, GuestOf(h));
    }
  }

  lemma StreamInstrOk(sp: Ir.Space, irs: seq<Ir.Instr>, i: nat)
    requires StreamOk(sp, irs) && i < |irs|
    ensures Ir.InstrOk(irs[i]) && InText(sp, irs[i].pc) && (irs[i].op.FuelCheck? <==> GroupStart(irs, i))
  {
  }

  lemma FaultRecords(sp: Ir.Space, ins: Ir.Instr, g: Ir.Guest)
    requires Ir.InstrOk(ins) && GuestFits(sp, g) && Ir.Step(sp, ins, g).Faulted? && !ins.op.FuelCheck?
    ensures Records(ins, Ir.Step(sp, ins, g).kind)
  {
    hide Ir.AluResult, Ir.AluWResult, Ir.SltResult, Ir.MulResult, Ir.DivResult, Ir.Find, Ir.Extend, Ir.SetRd;
  }

  lemma {:induction false} SimulatesOp(e: Env, irs: seq<Ir.Instr>, code: seq<u8>, armed: set<u64>,
      i: nat, h: Host, saved: Regs, base: seq<u64>)
    returns (n: nat, c: Conf)
    requires Loaded(e, irs, code, armed) && i < |irs| && Inside(e, h, saved, base) && GuestFits(e.sp, GuestOf(h))
    requires !irs[i].op.FuelCheck?
    requires Covered(e, irs, |code|, Meaning(e, irs, armed, i, h))
    ensures Steps(e, code, n, At(CodeAt(e, irs, i), h)) == c
    ensures Back(e, c, Meaning(e, irs, armed, i, h), h, saved, base)
    decreases h.cpu.fuel, Rank(irs, i), 0
  {
    hide Steps, Step, Items, FrameInstalled, OpInstalled, Patched, EnvOk, StreamOk, DirectTargetsOk, Back, Inside, RunIr, Ready, Run;
    hide Lower, StubStart, Off, Ir.Step, Bodies, Became;
    InsideShape(e, h, saved, base);
    var g := GuestOf(h);
    LowerOk(e, irs[i], Count(irs, KindOf(irs[i]), i), h);
    RunIrOp(e, irs, armed, i, h);
    if Ir.Step(e.sp, irs[i], g).Faulted? {
      FaultRecords(e.sp, irs[i], g);
      CoveredStub(e, irs, |code|, Meaning(e, irs, armed, i, h), i);
    }
    var m, r := OpSteps(e, irs, code, armed, i, h);
    var c0 := At(CodeAt(e, irs, i), h);
    var m2, c2;
    match Ir.Step(e.sp, irs[i], g) {
      case Next(g') =>
        InsideKept(e, h, r.h, g', h.cpu.pc, saved, base);
        m2, c2 := Simulates(e, irs, code, armed, i + 1, r.h, saved, base);
      case Direct(g', pc) =>
        InsideKept(e, h, r.h, g', h.cpu.pc, saved, base);
        if InText(e.sp, pc) {
          StartBound(e, irs, FirstAt(irs, pc, 0));
          m2, c2 := Simulates(e, irs, code, armed, FirstAt(irs, pc, 0), r.h, saved, base);
        } else {
          StartBound(e, irs, |irs|);
          m2, c2 := LeaveSteps(e, irs, code, armed, r.h, saved, base);
        }
      case Indirect(g', pc) =>
        InsideKept(e, h, r.h, g', pc, saved, base);
        StartBound(e, irs, |irs|);
        m2, c2 := LeaveSteps(e, irs, code, armed, r.h, saved, base);
      case Faulted(kind) =>
        InsideKept(e, h, r.h, g, h.cpu.pc, saved, base);
        m2, c2 := FaultSteps(e, irs, code, armed, i, kind, r.h, saved, base);
      case Trapped =>
        n, c := m, Signalled;
        BackTrap(e, irs, armed, i, h, saved, base);
        return;
    }
    StepsAdd(e, code, m, m2, c0);
    n, c := m + m2, c2;
    BecameFrame(h, r.h, Ir.Step(e.sp, irs[i], g));
    BackKept(e, c, Meaning(e, irs, armed, i, h), h, r.h, saved, base);
  }

  lemma BackTrap(e: Env, irs: seq<Ir.Instr>, armed: set<u64>, i: nat, h: Host, saved: Regs, base: seq<u64>)
    requires StreamOk(e.sp, irs) && DirectTargetsOk(e.sp, irs) && i < |irs| && GuestFits(e.sp, GuestOf(h))
    requires Meaning(e, irs, armed, i, h) == Exit.Trap(irs[i].pc)
    ensures Back(e, Signalled, Meaning(e, irs, armed, i, h), h, saved, base)
  {
    hide RunIr;
  }

  lemma BecameFrame(h: Host, h': Host, eff: Ir.Effect)
    requires eff.Next? || eff.Direct? ==> Became(h, h', eff.g, h.cpu.pc)
    requires eff.Indirect? ==> Became(h, h', eff.g, eff.pc)
    requires eff.Faulted? ==> Became(h, h', GuestOf(h), h.cpu.pc)
    requires !eff.Trapped?
    ensures h'.cpu.stackMem == h.cpu.stackMem && h'.cpu.stackSize == h.cpu.stackSize
  {
  }

  // ---------------------------------------------------------------- the trampoline

  /** The state in which the dispatcher calls the trampoline. */
  ghost predicate AtCall(e: Env, h: Host)
  {
    && EnvOk(e) && HostOk(e, h) && h.r.rdi == e.cpuAt
    && h.cpu.stackMem == e.stackAt && h.cpu.stackSize == e.sp.stackSize
    && h.cpu.x[0] == 0 && h.cpu.fault == 0
  }

  lemma PushExec(e: Env, r: Reg, h: Host)
    requires |h.cpu.x| == 32
    ensures Exec(e, Push(r), h) == Fall(h.(native := h.native + [Get(h.r, r)]))
  {
    hide Bits64, Bits32, ShiftValue, Grp3Value, ReadHost, WriteHost, CallEcall, Get;
  }

  lemma ThreePushes(e: Env, code: seq<Item>, k: nat, a: Reg, b: Reg, c: Reg, h: Host)
    requires k + 3 <= |code| && |h.cpu.x| == 32
    requires code[k] == Op(Push(a)) && code[k + 1] == Op(Push(b)) && code[k + 2] == Op(Push(c))
    ensures Run(e, code, k, h) == Run(e, code, k + 3, h.(native := h.native + [Get(h.r, a), Get(h.r, b), Get(h.r, c)]))
  {
    hide Run, Exec, Get;
    var h1 := h.(native := h.native + [Get(h.r, a)]);
    PushExec(e, a, h); RunOp(e, code, k, h, h1);
    var h2 := h1.(native := h1.native + [Get(h.r, b)]);
    PushExec(e, b, h1); RunOp(e, code, k + 1, h1, h2);
    var h3 := h2.(native := h2.native + [Get(h.r, c)]);
    PushExec(e, c, h2); RunOp(e, code, k + 2, h2, h3);
    assert h3.native == h.native + [Get(h.r, a), Get(h.r, b), Get(h.r, c)];
  }

  lemma SavePushes(e: Env, code: seq<Item>, h: Host)
    requires 6 <= |code| && |h.cpu.x| == 32
    requires code[0] == Op(Push(RBP)) && code[1] == Op(Push(RBX)) && code[2] == Op(Push(R12))
    requires code[3] == Op(Push(R13)) && code[4] == Op(Push(R14)) && code[5] == Op(Push(R15))
    ensures Run(e, code, 0, h) ==
            Run(e, code, 6, h.(native := h.native + [h.r.rbp, h.r.rbx, h.r.r12, h.r.r13, h.r.r14, h.r.r15]))
  {
    hide Run, Exec;
    var h' := h.(native := h.native + [h.r.rbp, h.r.rbx, h.r.r12]);
    ThreePushes(e, code, 0, RBP, RBX, R12, h);
    ThreePushes(e, code, 3, R13, R14, R15, h');
    assert h'.native + [h.r.r13, h.r.r14, h.r.r15] == h.native + [h.r.rbp, h.r.rbx, h.r.r12, h.r.r13, h.r.r14, h.r.r15];
  }

  lemma LoadSlotExec(e: Env, dst: Reg, off: i32, h: Host)
    requires EnvOk(e) && HostOk(e, h) && h.r.r15 == e.cpuAt && (off == OFF_STACK_MEM || off == OFF_STACK_SIZE)
    ensures Exec(e, LoadM(Ir.L64, dst, R15, off), h) ==
            Fall(Put(h, dst, if off == OFF_STACK_MEM then h.cpu.stackMem else h.cpu.stackSize))
  {
    hide ReadHost, WriteHost, EnvOk, Address, Grp3Value, ShiftValue, Get, Set;
    CpuRead(e, h, off);
  }

  lemma LoadBases(e: Env, code: seq<Item>, h: Host) returns (h': Host)
    requires 9 <= |code| && EnvOk(e) && HostOk(e, h) && h.r.rdi == e.cpuAt
    requires h.cpu.stackMem == e.stackAt && h.cpu.stackSize == e.sp.stackSize
    requires code[6] == MovRr(R15, RDI)
    requires code[7] == Op(LoadM(Ir.L64, R14, R15, OFF_STACK_MEM)) && code[8] == Op(LoadM(Ir.L64, R13, R15, OFF_STACK_SIZE))
    ensures h' == h.(r := h.r.(r15 := e.cpuAt, r14 := e.stackAt, r13 := e.sp.stackSize))
    ensures Run(e, code, 6, h) == Run(e, code, 9, h')
  {
    hide Run, Exec, EnvOk;
    var h1 := Put(h, R15, e.cpuAt);
    MovExec(e, R15, RDI, h); RunOp(e, code, 6, h, h1);
    var h2 := Put(h1, R14, e.stackAt);
    LoadSlotExec(e, R14, OFF_STACK_MEM, h1); RunOp(e, code, 7, h1, h2);
    h' := Put(h2, R13, e.sp.stackSize);
    LoadSlotExec(e, R13, OFF_STACK_SIZE, h2); RunOp(e, code, 8, h2, h');
  }

  lemma LoadConstants(e: Env, code: seq<Item>, h: Host, text: u64, lo: u64, hi: u64)
    requires 12 <= |code| && |h.cpu.x| == 32
    requires code[9] == Op(MovImm(R12, text)) && code[10] == Op(MovImm(RBX, lo)) && code[11] == Op(MovImm(RBP, hi))
    ensures Run(e, code, 9, h) == Run(e, code, 12, h.(r := h.r.(r12 := text, rbx := lo, rbp := hi)))
  {
    hide Run, Exec;
    var h1 := Put(h, R12, text);
    MovImmExec(e, R12, text, h); RunOp(e, code, 9, h, h1);
    var h2 := Put(h1, RBX, lo);
    MovImmExec(e, RBX, lo, h1); RunOp(e, code, 10, h1, h2);
    MovImmExec(e, RBP, hi, h2); RunOp(e, code, 11, h2, Put(h2, RBP, hi));
  }

  lemma EnvBound(e: Env)
    requires EnvOk(e)
    ensures e.sp.textAddr + |e.sp.text| < TWO64
  {
  }

  lemma TrampolineItems(e: Env, code: seq<Item>)
    requires e.sp.textAddr + |e.sp.text| < TWO64 && code == Trampoline(e)[..12]
    ensures code[0] == Op(Push(RBP)) && code[1] == Op(Push(RBX)) && code[2] == Op(Push(R12))
    ensures code[3] == Op(Push(R13)) && code[4] == Op(Push(R14)) && code[5] == Op(Push(R15))
    ensures code[6] == MovRr(R15, RDI)
    ensures code[7] == Op(LoadM(Ir.L64, R14, R15, OFF_STACK_MEM)) && code[8] == Op(LoadM(Ir.L64, R13, R15, OFF_STACK_SIZE))
    ensures code[9] == Op(MovImm(R12, e.textAt)) && code[10] == Op(MovImm(RBX, e.sp.textAddr))
    ensures code[11] == Op(MovImm(RBP, e.sp.textAddr + |e.sp.text|))
  {
  }

  lemma SavedHostOk(e: Env, h: Host, native: seq<u64>)
    requires HostOk(e, h)
    ensures HostOk(e, h.(native := native)) && |h.cpu.x| == 32
  {
  }

  lemma EnteredInside(e: Env, h: Host, h': Host)
    requires AtCall(e, h)
    requires h' == h.(native := h.native + [h.r.rbp, h.r.rbx, h.r.r12, h.r.r13, h.r.r14, h.r.r15],
                      r := h.r.(r15 := e.cpuAt, r14 := e.stackAt, r13 := e.sp.stackSize, r12 := e.textAt,
                                rbx := e.sp.textAddr, rbp := h'.r.rbp))
    requires h'.r.rbp == e.sp.textAddr + |e.sp.text|
    ensures Inside(e, h', h.r, h.native) && GuestOf(h') == GuestOf(h)
  {
    hide EnvOk;
  }

  /** The trampoline up to its final jump: the caller's registers are on the native stack and
      every constant register holds its value. */
  lemma TrampolineRun(e: Env, code: seq<Item>, h: Host) returns (h': Host)
    requires AtCall(e, h) && code == Trampoline(e)[..12]
    ensures Run(e, code, 0, h) == Done(h')
    ensures Inside(e, h', h.r, h.native) && h'.r.rsi == h.r.rsi && h'.cpu == h.cpu && GuestOf(h') == GuestOf(h)
  {
    hide Run, EnvOk, Trampoline, HostOk;
    EnvBound(e);
    TrampolineItems(e, code);
    var h0 := h.(native := h.native + [h.r.rbp, h.r.rbx, h.r.r12, h.r.r13, h.r.r14, h.r.r15]);
    SavedHostOk(e, h, h0.native);
    SavePushes(e, code, h);
    var h1 := LoadBases(e, code, h0);
    LoadConstants(e, code, h1, e.textAt, e.sp.textAddr, e.sp.textAddr + |e.sp.text|);
    h' := h1.(r := h1.r.(r12 := e.textAt, rbx := e.sp.textAddr, rbp := e.sp.textAddr + |e.sp.text|));
    RunEnd(e, code, h');
    EnteredInside(e, h, h');
  }

  lemma JmpRsiExec(e: Env, h: Host)
    requires |h.cpu.x| == 32
    ensures Exec(e, JmpR(RSI), h) == Goto(h, h.r.rsi)
  {
    hide Bits64, Bits32, ShiftValue, Grp3Value, ReadHost, WriteHost, CallEcall;
  }

  /** Calling the trampoline with the code address of an operation enters that operation. */
  lemma EnterSteps(e: Env, irs: seq<Ir.Instr>, code: seq<u8>, armed: set<u64>, i: nat, h: Host) returns (n: nat, h': Host)
    requires Loaded(e, irs, code, armed) && AtCall(e, h) && i <= |irs| && h.r.rsi == e.codeAt + CodeAt(e, irs, i)
    ensures Steps(e, code, n, At(0, h)) == At(CodeAt(e, irs, i), h')
    ensures Inside(e, h', h.r, h.native) && h'.cpu == h.cpu && GuestOf(h') == GuestOf(h)
  {
    hide Steps, Items, Installed, EnvOk, StreamOk, DirectTargetsOk, Run, CodeAt, Exec, Off, Inside, TargetsIn, Arrive, Step, Trampoline;
    var items, tgt := Items(e, irs), TargetsIn(e, irs, |code|);
    PartSlices(e, irs);
    var piece := Trampoline(e)[..12];
    assert items[0..12] == piece by { assert items[..13][..12] == items[..12]; }
    assert items[12] == Trampoline(e)[12] by { assert items[..13][12] == items[12]; }
    h' := TrampolineRun(e, piece, h);
    FrameRange(e, irs, code, armed, 0, 12);
    FrameRange(e, irs, code, armed, 0, 13);
    var m := PieceSteps(e, irs, code, 0, piece, h);
    assert Off(items, 0) == 0 by { OffZero(items); }
    assert Steps(e, code, m, At(0, h)) == At(Off(items, 12), h') by { ArriveDone(e, irs, 0, 12, h'); }
    InsideShape(e, h', h.r, h.native);
    assert items[12] == Op(JmpR(RSI)) by { TrampolineEnd(e); }
    JmpRsiExec(e, h');
    OpStep(e, code, items, tgt, 0, 13, 12, h');
    OneStep(e, code, At(Off(items, 12), h'));
    StepsAdd(e, code, m, 1, At(0, h));
    n := m + 1;
  }

  lemma ArriveDone(e: Env, irs: seq<Ir.Instr>, at: nat, n: nat, h: Host)
    requires Compilable(e, irs) && at + n <= |Items(e, irs)|
    ensures Arrive(e, irs, at, n, Done(h)) == At(Off(Items(e, irs), at + n), h)
  {
    hide Items, Off;
  }

  lemma TrampolineEnd(e: Env)
    requires e.sp.textAddr + |e.sp.text| < TWO64
    ensures Trampoline(e)[12] == Op(JmpR(RSI))
  {
  }

  lemma OneStep(e: Env, code: seq<u8>, c: Conf)
    ensures Steps(e, code, 1, c) == Step(e, code, c)
  {
    hide Step;
    assert Steps(e, code, 0, Step(e, code, c)) == Step(e, code, c);
  }

  /** One call of the trampoline: the machine returns to the caller with the outcome of the IR
      program from operation i, the callee-saved registers and native stack restored; it
      never gets stuck, and stops in the generated code only at a trap instruction of the
      guest. */
  lemma CallSimulates(e: Env, irs: seq<Ir.Instr>, code: seq<u8>, armed: set<u64>, i: nat, h: Host) returns (n: nat, c: Conf)
    requires Loaded(e, irs, code, armed) && AtCall(e, h) && i <= |irs| && h.r.rsi == e.codeAt + CodeAt(e, irs, i)
    requires GuestFits(e.sp, GuestOf(h)) && Covered(e, irs, |code|, Meaning(e, irs, armed, i, h))
    ensures Steps(e, code, n, At(0, h)) == c
    ensures Back(e, c, Meaning(e, irs, armed, i, h), h, h.r, h.native)
  {
    hide Steps, Step, Items, FrameInstalled, OpInstalled, Patched, EnvOk, StreamOk, DirectTargetsOk, Back, Inside, CodeAt, RunIr;
    var m, h' := EnterSteps(e, irs, code, armed, i, h);
    InsideShape(e, h', h.r, h.native);
    var m2, c2 := Simulates(e, irs, code, armed, i, h', h.r, h.native);
    StepsAdd(e, code, m, m2, At(0, h));
    n, c := m + m2, c2;
    BackKept(e, c, Meaning(e, irs, armed, i, h'), h, h', h.r, h.native);
  }

  /** Code as it is compiled, cut off or not, with nothing armed. */
  lemma CodeLoaded(e: Env, irs: seq<Ir.Instr>, code: seq<u8>)
    requires EnvOk(e) && Compilable(e, irs) && StreamOk(e.sp, irs) && DirectTargetsOk(e.sp, irs)
    requires |code| < TWO31 && AssembledIn(e, irs, code)
    ensures Loaded(e, irs, code, {})
  {
    hide Items, TargetsIn, Installed, EnvOk, Compilable, StreamOk, DirectTargetsOk, Start, Patched, FittingStubs, Asm, Off;
    WholeInstalled(e, irs, code);
    var items, tgt, n := Items(e, irs), TargetsIn(e, irs, |code|), Whole(e, irs, |code|);
    StartBound(e, irs, |irs|);
    StartBehind(e, irs, |irs|);
    InstalledWithin(code, items, tgt, 0, n, 0, 13);
    InstalledWithin(code, items, tgt, 0, n, Epi(e, irs), n);
    forall i | 0 <= i < |irs| ensures OpInstalled(e, irs, code, i) {
      BodySlice(e, irs, i);
      InstalledWithin(code, items, tgt, 0, n, Start(e, irs, i), Start(e, irs, i + 1));
    }
  }

  /** The finished image, with nothing armed. */
  lemma ImageLoaded(e: Env, irs: seq<Ir.Instr>)
    requires EnvOk(e) && Compilable(e, irs) && StreamOk(e.sp, irs) && DirectTargetsOk(e.sp, irs) && CodeBytes(e, irs) < TWO31
    ensures Loaded(e, irs, Image(e, irs), {})
  {
    hide Items, AllTargets, TargetsIn, Whole, EnvOk, Compilable, StreamOk, DirectTargetsOk, Loaded, Asm, Off;
    var items, code := Items(e, irs), Image(e, irs);
    AsmLength(items, AllTargets(e, irs), |items|);
    FullTargets(e, irs, |code|);
    assert code[..Off(items, |items|)] == code;
    CodeLoaded(e, irs, code);
  }

  lemma StartBehind(e: Env, irs: seq<Ir.Instr>, i: nat)
    requires Compilable(e, irs) && i <= |irs|
    ensures Start(e, irs, i) >= 13
  {
    hide Bodies;
  }
}
