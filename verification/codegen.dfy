/** Compiling a whole IR program. */
module CodeGen {
  import opened Words
  import opened X86
  import opened Snippet
  import opened Lowering
  import opened X86Encoding
  import opened Assembler
  import opened Reference
  import opened Program
  import opened LoweringShape
  import opened Emitter
  import opened CodeGenOps
  import opened CodeGenPatch
  import opened Sizes
  import OpSizes
  import Simulation
  import Ir

  const TRAMPOLINE_MAX_BYTES := 160
  const GUEST_INSTR_MAX_BYTES := 224
  const EPILOGUE_AND_PATCH_BYTES := 256

  datatype Result = Ok | OutOfMemory

  // ---------------------------------------------------------------- what the tables hold

  /** The tables after the first i operations. */
  function TablesAt(irs: seq<Ir.Instr>, i: nat): Tables
    requires i <= |irs|
  {
    if i == 0 then Tables([], 0, [], [], []) else After(TablesAt(irs, i - 1), irs[i - 1])
  }

  function PcsOf(t: Tables, kind: Ir.FaultKind): seq<u64>
  {
    match kind
    case Read => t.readPcs
    case Write => t.writePcs
    case Timeout => t.timeoutPcs
  }

  lemma AfterPcs(t: Tables, ins: Ir.Instr, kind: Ir.FaultKind)
    ensures PcsOf(After(t, ins), kind) == PcsOf(t, kind) + (if Records(ins, kind) then [ins.pc] else [])
    ensures |After(t, ins).branches| <= |t.branches| + 1 && After(t, ins).exits <= t.exits + 1
  {
  }

  /** Every table stays within the number of operations, and its addresses are those of the
      operations that record a stub. */
  lemma {:induction false} TablesBound(irs: seq<Ir.Instr>, i: nat)
    requires i <= |irs|
    ensures var t := TablesAt(irs, i);
            |t.branches| <= i && t.exits <= i && forall kind :: |PcsOf(t, kind)| == Count(irs, kind, i) <= i
  {
    hide Records, After;
    if i > 0 {
      TablesBound(irs, i - 1);
      forall kind ensures |PcsOf(TablesAt(irs, i), kind)| == Count(irs, kind, i) <= i {
        AfterPcs(TablesAt(irs, i - 1), irs[i - 1], kind);
      }
      AfterPcs(TablesAt(irs, i - 1), irs[i - 1], Ir.Read);
    }
  }

  /** The number of an operation's stub counts the earlier operations that record one. */
  lemma StubNumbers(e: Env, irs: seq<Ir.Instr>, i: nat)
    requires i < |irs| && Ir.InstrOk(irs[i])
    ensures StubNumber(TablesAt(irs, i), irs[i]) == Count(irs, KindOf(irs[i]), i)
    ensures LowerAt(e, irs, i) == Lower(e, irs[i], StubNumber(TablesAt(irs, i), irs[i]))
  {
    hide Lower, TablesAt;
    TablesBound(irs, i);
    assert |PcsOf(TablesAt(irs, i), KindOf(irs[i]))| == Count(irs, KindOf(irs[i]), i);
  }

  /** Every recorded branch into the text goes to a translated instruction. */
  lemma {:induction false} BranchesKnown(sp: Ir.Space, irs: seq<Ir.Instr>, i: nat)
    requires i <= |irs| && DirectTargetsOk(sp, irs)
    ensures forall t <- TablesAt(irs, i).branches :: InText(sp, t) ==> Translated(irs, t)
  {
    hide Translated, InText;
    if i > 0 {
      BranchesKnown(sp, irs, i - 1);
    }
  }

  /** The stubs of the program stand in the order of the recorded addresses. */
  lemma {:induction false} StubOf(irs: seq<Ir.Instr>, kind: Ir.FaultKind, n: nat, m: nat)
    requires n <= |irs| && m < |PcsOf(TablesAt(irs, n), kind)|
    ensures |Stubs(irs, kind, n)| == 5 * |PcsOf(TablesAt(irs, n), kind)|
    ensures Stubs(irs, kind, n)[5 * m..5 * m + 5] == StubCode(PcsOf(TablesAt(irs, n), kind)[m], kind)
    decreases n
  {
    hide Records, After, StubCode, PcsOf, TablesAt, Stubs, Count;
    TablesBound(irs, n);
    if n == 0 {
      NoTables(irs, kind);
    } else {
      TablesBound(irs, n - 1);
      LastStub(irs, kind, n);
      var init, pcs := Stubs(irs, kind, n - 1), PcsOf(TablesAt(irs, n - 1), kind);
      if m < |pcs| {
        StubOf(irs, kind, n - 1, m);
        assert Stubs(irs, kind, n)[..|init|] == init;
        SliceOfSlice(Stubs(irs, kind, n), 0, init, 5 * m, 5 * m + 5);
      }
    }
  }

  lemma NoTables(irs: seq<Ir.Instr>, kind: Ir.FaultKind)
    ensures PcsOf(TablesAt(irs, 0), kind) == []
  {
  }

  lemma LastStub(irs: seq<Ir.Instr>, kind: Ir.FaultKind, n: nat)
    requires 0 < n <= |irs|
    ensures var was, now, init := PcsOf(TablesAt(irs, n - 1), kind), PcsOf(TablesAt(irs, n), kind), Stubs(irs, kind, n - 1);
            && |was| <= |now| && now[..|was|] == was && |now| <= |was| + 1
            && Stubs(irs, kind, n) == init + if |now| > |was| then StubCode(now[|was|], kind) else []
  {
    hide Records, After, StubCode, PcsOf, Count;
    NextTables(irs, n - 1);
    AfterPcs(TablesAt(irs, n - 1), irs[n - 1], kind);
  }

  lemma SliceStands(plan: seq<Item>, at: nat, p: seq<Item>)
    requires at + |p| <= |plan| && plan[at..at + |p|] == p
    ensures Stands(plan, at, p)
  {
    forall j | at <= j < at + |p| ensures plan[j] == p[j - at] { assert plan[at..at + |p|][j - at] == plan[j]; }
  }

  lemma StubInOrder(e: Env, irs: seq<Ir.Instr>, kind: Ir.FaultKind, m: nat)
    requires Compilable(e, irs) && m < |PcsOf(TablesAt(irs, |irs|), kind)|
    ensures Stands(Items(e, irs), StubStart(e, irs, kind) + 5 * m, StubCode(PcsOf(TablesAt(irs, |irs|), kind)[m], kind))
  {
    hide *;
    StubsPart(e, irs, kind);
    StubOf(irs, kind, |irs|, m);
    SliceOfSlice(Items(e, irs), StubStart(e, irs, kind), Stubs(irs, kind, |irs|), 5 * m, 5 * m + 5);
    SliceStands(Items(e, irs), StubStart(e, irs, kind) + 5 * m, StubCode(PcsOf(TablesAt(irs, |irs|), kind)[m], kind));
  }

  lemma StubsInOrder(e: Env, irs: seq<Ir.Instr>, kind: Ir.FaultKind)
    requires Compilable(e, irs)
    ensures StubsStand(e, irs, kind, PcsOf(TablesAt(irs, |irs|), kind))
    ensures |PcsOf(TablesAt(irs, |irs|), kind)| == Count(irs, kind, |irs|)
  {
    hide Items, StubCode, TablesAt, Stands, StubStart, PcsOf, Count;
    var pcs := PcsOf(TablesAt(irs, |irs|), kind);
    TablesBound(irs, |irs|);
    forall m | 0 <= m < |pcs| ensures Stands(Items(e, irs), StubStart(e, irs, kind) + 5 * m, StubCode(pcs[m], kind)) {
      StubInOrder(e, irs, kind, m);
    }
  }

  // ---------------------------------------------------------------- offsets

  /** Offsets move past a part of the plan by its size. */
  lemma OffPast(plan: seq<Item>, at: nat, p: seq<Item>)
    requires at + |p| <= |plan| && plan[at..at + |p|] == p
    ensures Off(plan, at + |p|) == Off(plan, at) + Bytes(p)
  {
    hide Off;
    var a, z := plan[..at], plan[at + |p|..];
    assert plan == (a + p) + z && plan == a + (p + z);
    OffPrefix(a + p, z, |a + p|);
    OffPrefix(a, p + z, |a|);
    OffConcat(a, p, |p|);
  }

  lemma OperationBytes(e: Env, irs: seq<Ir.Instr>, i: nat)
    requires Compilable(e, irs) && i < |irs|
    ensures CodeAt(e, irs, i) <= CodeAt(e, irs, i + 1) <= CodeAt(e, irs, i) + GUEST_INSTR_MAX_BYTES
  {
    hide Items, Start, Lower, Off, Bytes, Bodies, Count, LowerAt, Epi;
    BodySlice(e, irs, i);
    OffPast(Items(e, irs), Start(e, irs, i), LowerAt(e, irs, i));
    LowerAtBytes(e, irs, i);
  }

  lemma LowerAtBytes(e: Env, irs: seq<Ir.Instr>, i: nat)
    requires Compilable(e, irs) && i < |irs|
    ensures Bytes(LowerAt(e, irs, i)) <= GUEST_INSTR_MAX_BYTES
  {
    hide Lower, Bytes, Count;
    OpSizes.LowerBytes(e, irs[i], Count(irs, KindOf(irs[i]), i));
  }

  lemma TrampolineBytes(e: Env)
    requires e.sp.textAddr + |e.sp.text| < TWO64
    ensures Bytes(Trampoline(e)) <= 130
  {
    hide Trampoline, Bytes, Off;
    var t := Trampoline(e);
    forall i | 0 <= i < 13 ensures Size(t[i]) <= 10 { TrampolineItem(e, i); }
    BytesAtMost(t, 10, 13);
    BytesAre(t);
  }

  lemma BytesAre(p: seq<Item>)
    ensures Bytes(p) == Off(p, |p|)
  {
    hide Off;
  }

  lemma TrampolineItem(e: Env, i: nat)
    requires e.sp.textAddr + |e.sp.text| < TWO64 && i < 13
    ensures Size(Trampoline(e)[i]) <= 10
  {
    hide Size;
    forall a { StackSizes(a); }
    RegisterSizes(MOV, true, R15, RDI, 0);
    RegisterSizes(MOV, true, R12, R12, e.textAt);
    RegisterSizes(MOV, true, RBX, RBX, e.sp.textAddr);
    RegisterSizes(MOV, true, RBP, RBP, e.sp.textAddr + |e.sp.text|);
    MemorySizes(Ir.L64, Ir.St64, R14, OFF_STACK_MEM);
    MemorySizes(Ir.L64, Ir.St64, R13, OFF_STACK_SIZE);
    ControlSizes(RSI);
  }

  // ---------------------------------------------------------------- compiling

  method HasCodeSpace(jit: Jit, needed: nat) returns (r: bool)
    ensures r <==> jit.buf.size + needed < jit.buf.data.Length
  {
    r := jit.buf.size + needed < jit.buf.data.Length;
  }

  method EmitTrampoline(jit: Jit)
    requires Compilable(jit.e, []) && jit.Valid() && jit.Next(Trampoline(jit.e))
    modifies jit`k, jit.buf, jit.buf.data
    ensures jit.Valid() && jit.k == old(jit.k) + 13
  {
    hide jit.Valid;
    jit.Emit(Push(RBP));
    jit.Emit(Push(RBX));
    jit.Emit(Push(R12));
    jit.Emit(Push(R13));
    jit.Emit(Push(R14));
    jit.Emit(Push(R15));
    jit.Emit(Rr(MOV, true, R15, RDI));
    jit.Emit(LoadM(Ir.L64, R14, R15, OFF_STACK_MEM));
    jit.Emit(LoadM(Ir.L64, R13, R15, OFF_STACK_SIZE));
    jit.Emit(MovImm(R12, jit.e.textAt));
    jit.Emit(MovImm(RBX, jit.e.sp.textAddr));
    jit.Emit(MovImm(RBP, jit.e.sp.textAddr + |jit.e.sp.text|));
    jit.Emit(JmpR(RSI));
  }

  /** The generator between two operations. */
  ghost predicate AtOperation(jit: Jit, irs: seq<Ir.Instr>, i: nat)
    requires i <= |irs|
    reads jit, jit.buf, jit.buf.data
  {
    && Compilable(jit.e, irs) && jit.plan == Items(jit.e, irs) && jit.capacity == |irs|
    && jit.Valid() && jit.k == Start(jit.e, irs, i) && jit.open == {} && jit.Recorded() == TablesAt(irs, i)
  }

  method CompileOperation(jit: Jit, irs: seq<Ir.Instr>, i: nat)
    requires i < |irs| && AtOperation(jit, irs, i) && jit.buf.size + GUEST_INSTR_MAX_BYTES < jit.buf.data.Length
    modifies jit`k, jit`limit, jit`tgt, jit`open, jit`branchHoles, jit`branchTargets, jit`exitJumps, jit`readHoles, jit`readPcs
    modifies jit`writeHoles, jit`writePcs, jit`timeoutHoles, jit`timeoutPcs, jit.buf, jit.buf.data
    ensures AtOperation(jit, irs, i + 1)
  {
    hide jit.Valid, Items, Start, Lower, TablesAt, After, StubNumber, Off, LowerAt, Stands, Count;
    CanEmit(jit, irs, i);
    jit.Allow(Start(jit.e, irs, i + 1));
    EmitOperation(jit, irs[i]);
    NextTables(irs, i);
  }

  lemma NextTables(irs: seq<Ir.Instr>, i: nat)
    requires i < |irs|
    ensures TablesAt(irs, i + 1) == After(TablesAt(irs, i), irs[i])
  {
    hide After;
  }

  /** The next operation is the next part of the plan, and it fits. */
  lemma CanEmit(jit: Jit, irs: seq<Ir.Instr>, i: nat)
    requires i < |irs| && AtOperation(jit, irs, i) && jit.buf.size + GUEST_INSTR_MAX_BYTES < jit.buf.data.Length
    ensures Ir.InstrOk(irs[i]) && Room(jit.Recorded(), jit.capacity)
    ensures var p := Lower(jit.e, irs[i], StubNumber(jit.Recorded(), irs[i]));
            Stands(jit.plan, jit.k, p) && jit.k + |p| == Start(jit.e, irs, i + 1) <= |jit.plan|
    ensures Off(jit.plan, Start(jit.e, irs, i + 1)) <= jit.buf.data.Length
  {
    hide Items, Start, Lower, TablesAt, Off, jit.Laid, jit.TablesOk, Links, Numbered;
    TablesBound(irs, i);
    var t := TablesAt(irs, i);
    assert |PcsOf(t, Ir.Read)| <= i && |PcsOf(t, Ir.Write)| <= i && |PcsOf(t, Ir.Timeout)| <= i;
    StubNumbers(jit.e, irs, i);
    BodySlice(jit.e, irs, i);
    SliceStands(jit.plan, jit.k, LowerAt(jit.e, irs, i));
    OperationBytes(jit.e, irs, i);
    jit.NoOverflow();
  }

  // ---------------------------------------------------------------- the map of guest addresses

  /** After i operations the map sends each translated address to the first of its operations,
      and is otherwise as it was. */
  ghost predicate MapUpTo(e: Env, irs: seq<Ir.Instr>, i: nat, was: seq<u32>, now: seq<u32>)
    requires Compilable(e, irs) && i <= |irs|
  {
    && |now| == |was| == |e.sp.text|
    && forall a | 0 <= a < |was| :: now[a] == MapEntry(e, irs, i, was[a], e.sp.textAddr + a)
  }

  ghost function MapEntry(e: Env, irs: seq<Ir.Instr>, i: nat, was: u32, pc: u64): nat
    requires Compilable(e, irs) && i <= |irs|
  {
    var f := FirstAt(irs, pc, 0);
    if f < i then CodeAt(e, irs, f) else was
  }

  lemma StreamAt(sp: Ir.Space, irs: seq<Ir.Instr>, i: nat)
    requires StreamOk(sp, irs) && i < |irs|
    ensures Ir.InstrOk(irs[i]) && InText(sp, irs[i].pc)
    ensures GroupStart(irs, i) ==> FirstAt(irs, irs[i].pc, 0) == i
  {
    var f := FirstAt(irs, irs[i].pc, 0);
    if f < i { assert irs[f].pc <= irs[i - 1].pc; }
  }

  /** One more operation: it is recorded if it starts a group. */
  lemma MapEntryStep(e: Env, irs: seq<Ir.Instr>, i: nat, was: u32, pc: u64)
    requires Compilable(e, irs) && StreamOk(e.sp, irs) && i < |irs|
    ensures MapEntry(e, irs, i + 1, was, pc) ==
            if GroupStart(irs, i) && irs[i].pc == pc then CodeAt(e, irs, i) else MapEntry(e, irs, i, was, pc)
  {
    hide CodeAt, StreamOk;
    StreamAt(e.sp, irs, i);
    if FirstAt(irs, pc, 0) == i && i > 0 { assert irs[i - 1].pc != pc; }
  }

  lemma MapStep(e: Env, irs: seq<Ir.Instr>, i: nat, was: seq<u32>, now: seq<u32>, offset: u32)
    requires Compilable(e, irs) && StreamOk(e.sp, irs) && i < |irs| && MapUpTo(e, irs, i, was, now)
    requires offset == CodeAt(e, irs, i)
    ensures InText(e.sp, irs[i].pc)
    ensures MapUpTo(e, irs, i + 1, was, if GroupStart(irs, i) then now[irs[i].pc - e.sp.textAddr := offset] else now)
  {
    hide CodeAt, StreamOk, MapEntry, GroupStart;
    StreamAt(e.sp, irs, i);
    forall a | 0 <= a < |was| { MapEntryStep(e, irs, i, was[a], e.sp.textAddr + a); }
  }

  lemma MapDone(jit: Jit, irs: seq<Ir.Instr>, was: seq<u32>)
    requires Compilable(jit.e, irs) && jit.plan == Items(jit.e, irs) && MapUpTo(jit.e, irs, |irs|, was, jit.pcMap[..])
    ensures Mapped(jit, irs)
  {
    hide Items, Start, Off;
    forall i | 0 <= i < |irs| && InText(jit.e.sp, irs[i].pc) ensures
        jit.pcMap[irs[i].pc - jit.e.sp.textAddr] == CodeAt(jit.e, irs, FirstAt(irs, irs[i].pc, 0)) {
      assert jit.pcMap[..][irs[i].pc - jit.e.sp.textAddr] == jit.pcMap[irs[i].pc - jit.e.sp.textAddr];
    }
  }

  // ---------------------------------------------------------------- sizes of the parts

  lemma EpilogueBytes(e: Env, irs: seq<Ir.Instr>)
    requires Compilable(e, irs)
    ensures var ep := Epi(e, irs); ep + 7 <= |Items(e, irs)| && Stands(Items(e, irs), ep, EpilogueCode())
    ensures Off(Items(e, irs), Epi(e, irs)) <= Off(Items(e, irs), Epi(e, irs) + 7) <= Off(Items(e, irs), Epi(e, irs)) + 14
  {
    hide Items, Off, Size, Epi;
    PartSlices(e, irs);
    SliceStands(Items(e, irs), Epi(e, irs), EpilogueCode());
    OffPast(Items(e, irs), Epi(e, irs), EpilogueCode());
    forall i | 0 <= i < 7 ensures Size(EpilogueCode()[i]) <= 2 { EpilogueItem(i); }
    BytesAtMost(EpilogueCode(), 2, 7);
  }

  lemma EpilogueItem(i: nat)
    requires i < 7
    ensures Size(EpilogueCode()[i]) <= 2
  {
    hide Size;
    forall a { StackSizes(a); }
    ControlSizes(RAX);
  }

  lemma {:induction false} HolesBelow(p: seq<Item>, c: Class, k: nat)
    requires k <= |p|
    ensures forall h <- Holes(p, c, k) :: h + 4 <= Off(p, k)
  {
    hide Off, Hole;
    if k > 0 {
      HolesBelow(p, c, k - 1);
      OffMonotone(p, k - 1, k);
      if IsSite(p, c, k - 1) { HoleEnd(p, k - 1); }
    }
  }

  // ---------------------------------------------------------------- the compiler

  /** The space checks made on the way: none of them covers the fault stubs. */
  ghost predicate ChecksPass(e: Env, irs: seq<Ir.Instr>, cap: nat)
    requires Compilable(e, irs)
  {
    && TRAMPOLINE_MAX_BYTES < cap
    && (forall i | 0 <= i < |irs| :: CodeAt(e, irs, i) + GUEST_INSTR_MAX_BYTES < cap)
    && CodeAt(e, irs, |irs|) + EPILOGUE_AND_PATCH_BYTES < cap
  }

  /** A generator about to compile irs. */
  ghost predicate Ready(jit: Jit, irs: seq<Ir.Instr>)
    reads jit, jit.buf, jit.buf.data
  {
    && StreamOk(jit.e.sp, irs) && DirectTargetsOk(jit.e.sp, irs) && AtStart(jit, irs)
    && jit.pcMap.Length == |jit.e.sp.text|
  }

  ghost predicate AtStart(jit: Jit, irs: seq<Ir.Instr>)
    reads jit, jit.buf, jit.buf.data
  {
    && Compilable(jit.e, irs) && jit.plan == Items(jit.e, irs) && jit.capacity == |irs|
    && jit.Valid() && jit.k == 0 && jit.open == {} && jit.Recorded() == TablesAt(irs, 0)
  }

  method StartCode(jit: Jit, ghost irs: seq<Ir.Instr>)
    requires AtStart(jit, irs) && TRAMPOLINE_MAX_BYTES < jit.buf.data.Length
    modifies jit`k, jit`limit, jit.buf, jit.buf.data
    ensures AtOperation(jit, irs, 0)
  {
    hide Items, Off, TablesAt, Trampoline, Stands, Links, Numbered, jit.TablesOk, Asm;
    PartSlices(jit.e, irs);
    SliceStands(jit.plan, 0, Trampoline(jit.e));
    OffPast(jit.plan, 0, Trampoline(jit.e));
    TrampolineBytes(jit.e);
    OffZero(jit.plan);
    jit.Allow(13);
    EmitTrampoline(jit);
  }

  /** What the operations leave for the patching passes. */
  ghost predicate AtEnd(jit: Jit, irs: seq<Ir.Instr>)
    reads jit, jit.buf, jit.buf.data
  {
    && Linking(jit, irs) && jit.k == Epi(jit.e, irs) <= |jit.plan| && Numbered(jit.plan, jit.k)
    && jit.open == Outward(jit.plan, jit.k) && jit.TablesOk() && jit.Recorded() == TablesAt(irs, |irs|)
  }

  ghost method OpenOutward(jit: Jit, irs: seq<Ir.Instr>)
    requires AtOperation(jit, irs, |irs|)
    modifies jit`open
    ensures AtEnd(jit, irs)
  {
    hide Items, Links, Numbered, Outward, Start, TablesAt, Linked, Off, Asm, Holes, ExitOffsets, GuestTargets;
    LinkedStart(jit.e, irs, jit.buf.data.Length, jit.k, jit.tgt);
    jit.open := Outward(jit.plan, jit.k);
  }

  method PatchJumps(jit: Jit, ghost irs: seq<Ir.Instr>)
    requires AtEnd(jit, irs) && Mapped(jit, irs) && DirectTargetsOk(jit.e.sp, irs)
    requires jit.epilogueOffset == Off(jit.plan, jit.k)
    modifies jit`tgt, jit`open, jit.buf.data, jit.buf`all
    ensures Linking(jit, irs) && jit.buf.size == old(jit.buf.size)
    ensures jit.open == SiteSet(jit.plan, ToStub(Ir.Read), jit.k) + SiteSet(jit.plan, ToStub(Ir.Write), jit.k)
                        + SiteSet(jit.plan, ToStub(Ir.Timeout), jit.k)
  {
    hide Items, Linking, Numbered, Epi, Off, Holes, ExitOffsets, GuestTargets, Outward, SiteSet, TablesAt, Mapped, Translated;
    BranchesKnown(jit.e.sp, irs, |irs|);
    OutwardClasses(jit.plan, jit.k);
    PatchGuestBranches(jit, jit.epilogueOffset, irs);
    PatchEpilogueJumps(jit, jit.epilogueOffset, irs);
  }

  /** Everything about the three kinds of stubs that does not depend on the buffer. */
  lemma StubParts(e: Env, irs: seq<Ir.Instr>)
    requires Compilable(e, irs)
    ensures var p, ep, t := Items(e, irs), Epi(e, irs), TablesAt(irs, |irs|);
            && ep + 7 <= |p| && Off(p, ep + 7) == StubsAt(e, irs)
            && StubsStand(e, irs, Ir.Read, t.readPcs) && |t.readPcs| == Count(irs, Ir.Read, |irs|)
            && StubsStand(e, irs, Ir.Write, t.writePcs) && |t.writePcs| == Count(irs, Ir.Write, |irs|)
            && StubsStand(e, irs, Ir.Timeout, t.timeoutPcs) && |t.timeoutPcs| == Count(irs, Ir.Timeout, |irs|)
  {
    hide Items, Off, Epi, Stubs, TablesAt, StubsStand, Count, StubsAt;
    StubsBehind(e, irs);
    StubsInOrder(e, irs, Ir.Read);
    StubsInOrder(e, irs, Ir.Write);
    StubsInOrder(e, irs, Ir.Timeout);
  }

  /** The generator after the exit code. */
  ghost predicate AtStubs(jit: Jit, irs: seq<Ir.Instr>)
    reads jit, jit.buf, jit.buf.data
  {
    && Linking(jit, irs) && Epi(jit.e, irs) + 7 <= |jit.plan| && jit.k == Epi(jit.e, irs) + 7
    && var ep := Epi(jit.e, irs);
       && Numbered(jit.plan, ep) && jit.Recorded() == TablesAt(irs, |irs|)
       && jit.open == SiteSet(jit.plan, ToStub(Ir.Read), ep) + SiteSet(jit.plan, ToStub(Ir.Write), ep)
                      + SiteSet(jit.plan, ToStub(Ir.Timeout), ep)
       && jit.readHoles == Holes(jit.plan, ToStub(Ir.Read), ep) && |jit.readPcs| == |jit.readHoles|
       && jit.writeHoles == Holes(jit.plan, ToStub(Ir.Write), ep) && |jit.writePcs| == |jit.writeHoles|
       && jit.timeoutHoles == Holes(jit.plan, ToStub(Ir.Timeout), ep) && |jit.timeoutPcs| == |jit.timeoutHoles|
       && jit.epilogueOffset == Off(jit.plan, ep)
  }

  lemma HolesInside(jit: Jit, irs: seq<Ir.Instr>, c: Class)
    requires AtStubs(jit, irs)
    ensures jit.buf.size == |jit.buf.all| == Off(jit.plan, jit.k)
    ensures forall h <- Holes(jit.plan, c, Epi(jit.e, irs)) :: h + 4 <= Off(jit.plan, jit.k)
  {
    hide Items, Off, Epi, Linked, Numbered, Holes, SiteSet, TablesAt, Asm;
    jit.NoOverflow();
    HolesBelow(jit.plan, c, Epi(jit.e, irs));
    OffMonotone(jit.plan, Epi(jit.e, irs), jit.k);
  }

  lemma StubSitesApart(p: seq<Item>, k: nat)
    requires k <= |p|
    ensures var r, w, t := SiteSet(p, ToStub(Ir.Read), k), SiteSet(p, ToStub(Ir.Write), k), SiteSet(p, ToStub(Ir.Timeout), k);
            r + w + t - r == w + t && w + t - w == t && t - t == {}
  {
    OutwardClasses(p, k);
  }

  lemma StartStubs(jit: Jit, irs: seq<Ir.Instr>)
    requires AtStubs(jit, irs)
    ensures Trimmed(jit, irs, 0)
  {
    hide Items, Off, Linked, Asm, Epi, Numbered, Holes, SiteSet, TablesAt, StubsAt, Count, FittingStubs;
    StubsBehind(jit.e, irs);
    jit.NoOverflow();
    assert jit.buf.all[..|jit.buf.all|] == jit.buf.all;
  }

  /** All stubs, as far as they fit. */
  method EmitAllStubs(jit: Jit, ghost irs: seq<Ir.Instr>)
    requires AtStubs(jit, irs)
    modifies jit`k, jit`tgt, jit`open, jit.buf, jit.buf.data
    ensures Trimmed(jit, irs, AllStubs(irs)) && jit.open == {}
  {
    hide Items, Off, Epi, Linking, Numbered, Holes, SiteSet, TablesAt, StubStart, StubsStand, Count, StubsAt, Trimmed;
    LinkingShape(jit, irs);
    ghost var e, p, ep := jit.e, jit.plan, Epi(jit.e, irs);
    StubParts(e, irs);
    StubSitesApart(p, ep);
    HolesInside(jit, irs, ToStub(Ir.Read));
    HolesInside(jit, irs, ToStub(Ir.Write));
    HolesInside(jit, irs, ToStub(Ir.Timeout));
    StartStubs(jit, irs);
    EmitFaultStubs(jit, jit.readHoles, jit.readPcs, Ir.Read, jit.epilogueOffset, irs);
    EmitFaultStubs(jit, jit.writeHoles, jit.writePcs, Ir.Write, jit.epilogueOffset, irs);
    EmitFaultStubs(jit, jit.timeoutHoles, jit.timeoutPcs, Ir.Timeout, jit.epilogueOffset, irs);
  }

  lemma LinkingShape(jit: Jit, irs: seq<Ir.Instr>)
    requires Linking(jit, irs)
    ensures Compilable(jit.e, irs) && jit.plan == Items(jit.e, irs) && jit.buf.Valid()
  {
    hide Items, Off, Linked, Asm;
  }

  /** Patching, exit code and stubs. */
  method FinishCode(jit: Jit, ghost irs: seq<Ir.Instr>)
    requires AtOperation(jit, irs, |irs|) && Mapped(jit, irs) && DirectTargetsOk(jit.e.sp, irs)
    requires jit.buf.size + EPILOGUE_AND_PATCH_BYTES < jit.buf.data.Length
    modifies jit, jit.buf, jit.buf.data
    ensures jit.buf.Valid() && |jit.buf.all| == CodeBytes(jit.e, irs)
    ensures if CodeBytes(jit.e, irs) <= jit.buf.data.Length then jit.buf.all == Image(jit.e, irs)
            else Simulation.AssembledIn(jit.e, irs, jit.buf.data[..])
    ensures jit.epilogueOffset == CodeAt(jit.e, irs, |irs|) && jit.trampolineOffset == old(jit.trampolineOffset)
  {
    hide Items, Off, Start, Linked, Links, Numbered, Holes, ExitOffsets, GuestTargets, SiteSet, Outward, TablesAt, Stands, Asm,
         FittingStubs, StubsAt, Image, CodeBytes, Count, Simulation.AssembledIn, Trimmed, AtEnd, Mapped;
    ghost var e, p, ep := jit.e, jit.plan, Epi(jit.e, irs);
    jit.NoOverflow();
    jit.epilogueOffset := jit.buf.size;
    EpilogueBytes(e, irs);
    jit.Allow(ep + 7);
    OpenOutward(jit, irs);
    PatchJumps(jit, irs);
    EmitEpilogue(jit, irs);
    EmitAllStubs(jit, irs);
    TrimmedCode(jit, irs);
  }

  /** What is in the buffer: the program image, or as much of it as counts. */
  lemma TrimmedCode(jit: Jit, irs: seq<Ir.Instr>)
    requires Trimmed(jit, irs, AllStubs(irs)) && jit.open == {}
    ensures jit.buf.Valid() && |jit.buf.all| == CodeBytes(jit.e, irs)
    ensures if CodeBytes(jit.e, irs) <= jit.buf.data.Length then jit.buf.all == Image(jit.e, irs)
            else Simulation.AssembledIn(jit.e, irs, jit.buf.data[..])
  {
    hide Items, Off, Epi, Linked, Asm, StubsAt, Count, TargetsIn, AllTargets, FittingStubs;
    var e, room, all := jit.e, jit.buf.data.Length, jit.buf.all;
    LinkedAll(e, irs, room, jit.k, jit.tgt);
    Sizes.CodeBytesSum(e, irs);
    var n := FittingStubs(e, irs, room);
    StubOff(e, irs, n);
    if n > 0 { assert StubFits(e, irs, room, n - 1); }
    if CodeBytes(e, irs) <= room {
      Simulation.FullTargets(e, irs, room);
      assert all[..|all|] == all;
    } else {
      var m := Off(jit.plan, jit.k);
      assert jit.buf.data[..room] == jit.buf.data[..];
      assert all[..room][..m] == all[..m];
    }
  }

  /** The operations in order, each group of them entered in the map. */
  method EmitOperations(jit: Jit, irs: seq<Ir.Instr>) returns (ok: bool)
    requires AtOperation(jit, irs, 0) && StreamOk(jit.e.sp, irs) && jit.pcMap.Length == |jit.e.sp.text|
    modifies jit`k, jit`limit, jit`tgt, jit`open, jit`branchHoles, jit`branchTargets, jit`exitJumps, jit`readHoles, jit`readPcs
    modifies jit`writeHoles, jit`writePcs, jit`timeoutHoles, jit`timeoutPcs, jit.buf, jit.buf.data, jit.pcMap
    ensures ok <==> forall i | 0 <= i < |irs| :: CodeAt(jit.e, irs, i) + GUEST_INSTR_MAX_BYTES < jit.buf.data.Length
    ensures ok ==> AtOperation(jit, irs, |irs|) && MapUpTo(jit.e, irs, |irs|, old(jit.pcMap[..]), jit.pcMap[..])
  {
    hide StreamOk, MapUpTo, AtOperation, Compilable, CodeAt, FirstAt;
    ghost var was := jit.pcMap[..];
    OperationShape(jit, irs, 0);
    MapNone(jit.e, irs, was);
    var i := 0;
    while i < |irs|
      invariant i <= |irs| && Compilable(jit.e, irs) && AtOperation(jit, irs, i)
      invariant MapUpTo(jit.e, irs, i, was, jit.pcMap[..])
      invariant forall j | 0 <= j < i :: CodeAt(jit.e, irs, j) + GUEST_INSTR_MAX_BYTES < jit.buf.data.Length
    {
      OperationShape(jit, irs, i);
      var room := HasCodeSpace(jit, GUEST_INSTR_MAX_BYTES);
      if !room {
        return false;
      }
      MapStep(jit.e, irs, i, was, jit.pcMap[..], jit.buf.size);
      if i == 0 || irs[i - 1].pc != irs[i].pc {
        jit.pcMap[irs[i].pc - jit.e.sp.textAddr] := jit.buf.size;
      }
      CompileOperation(jit, irs, i);
      i := i + 1;
    }
    return true;
  }

  lemma OperationShape(jit: Jit, irs: seq<Ir.Instr>, i: nat)
    requires i <= |irs| && AtOperation(jit, irs, i)
    ensures Compilable(jit.e, irs) && jit.buf.size == CodeAt(jit.e, irs, i) < TWO32
    ensures jit.buf.data.Length < TWO31
  {
    hide Items, Start, Off, Links, Numbered, jit.TablesOk, TablesAt, Asm;
    jit.NoOverflow();
  }

  lemma MapNone(e: Env, irs: seq<Ir.Instr>, was: seq<u32>)
    requires Compilable(e, irs) && |was| == |e.sp.text|
    ensures MapUpTo(e, irs, 0, was, was)
  {
    hide CodeAt;
  }

  /** The compiler. It succeeds exactly when the space checks pass. The code is then the
      program image if that fits; otherwise fault stubs at its end have been cut off. */
  method Compile(jit: Jit, irs: seq<Ir.Instr>) returns (r: Result)
    requires Ready(jit, irs)
    modifies jit, jit.buf, jit.buf.data, jit.pcMap
    ensures r == (if ChecksPass(jit.e, irs, jit.buf.data.Length) then Ok else OutOfMemory)
    ensures r.Ok? ==> jit.buf.Valid() && |jit.buf.all| == CodeBytes(jit.e, irs)
    ensures r.Ok? && CodeBytes(jit.e, irs) <= jit.buf.data.Length ==>
              jit.buf.size == CodeBytes(jit.e, irs) && jit.buf.data[..jit.buf.size] == Image(jit.e, irs)
    ensures r.Ok? && CodeBytes(jit.e, irs) > jit.buf.data.Length ==>
              jit.buf.size == jit.buf.data.Length && Simulation.AssembledIn(jit.e, irs, jit.buf.data[..])
    ensures r.Ok? ==> MapUpTo(jit.e, irs, |irs|, old(jit.pcMap[..]), jit.pcMap[..])
    ensures r.Ok? ==> jit.trampolineOffset == 0 && jit.epilogueOffset == CodeAt(jit.e, irs, |irs|)
  {
    hide Items, Off, Start, Linked, Links, Numbered, Holes, TablesAt, Asm, StreamOk, DirectTargetsOk, CodeBytes, Image, Simulation.AssembledIn;
    StartAt(jit, irs);
    jit.trampolineOffset := jit.buf.size;
    var room := HasCodeSpace(jit, TRAMPOLINE_MAX_BYTES);
    if !room {
      return OutOfMemory;
    }
    StartCode(jit, irs);
    room := EmitOperations(jit, irs);
    if !room {
      return OutOfMemory;
    }
    OperationShape(jit, irs, |irs|);
    room := HasCodeSpace(jit, EPILOGUE_AND_PATCH_BYTES);
    if !room {
      return OutOfMemory;
    }
    MapDone(jit, irs, old(jit.pcMap[..]));
    FinishCode(jit, irs);
    return Ok;
  }

  lemma StartAt(jit: Jit, irs: seq<Ir.Instr>)
    requires AtStart(jit, irs)
    ensures jit.buf.size == 0 && jit.buf.data.Length < TWO31
  {
    hide Items, Links, Numbered, jit.TablesOk, TablesAt;
    jit.NoOverflow();
  }

  // ---------------------------------------------------------------- what the checks leave out

  /** The bytes after the operations: the exit code, and 39 for each recorded stub. */
  ghost function TailBytes(irs: seq<Ir.Instr>): nat
  {
    11 + 39 * (Count(irs, Ir.Read, |irs|) + Count(irs, Ir.Write, |irs|) + Count(irs, Ir.Timeout, |irs|))
  }

  /** Nothing is cut off if and only if the room behind the last operation holds the tail.
      The check made there asks for more than 256 bytes, whatever the number of stubs. */
  lemma NothingDroppedIff(e: Env, irs: seq<Ir.Instr>, cap: nat)
    requires Compilable(e, irs)
    ensures CodeBytes(e, irs) <= cap <==> CodeAt(e, irs, |irs|) + TailBytes(irs) <= cap
  {
    hide Items, Off, CodeBytes, Count, Epi, StubsAt;
    CodeBytesSum(e, irs);
    StubsBehind(e, irs);
    EpilogueExact(e, irs);
  }

  lemma EpilogueExact(e: Env, irs: seq<Ir.Instr>)
    requires Compilable(e, irs)
    ensures Epi(e, irs) + 7 <= |Items(e, irs)|
    ensures Off(Items(e, irs), Epi(e, irs) + 7) == CodeAt(e, irs, |irs|) + 11
  {
    hide Items, Off, Start, Size;
    PartSlices(e, irs);
    OffPast(Items(e, irs), Epi(e, irs), EpilogueCode());
    EpilogueSize();
  }

  lemma EpilogueSize()
    ensures Bytes(EpilogueCode()) == 11
  {
    hide Bytes, Size;
    var a: seq<Item>, b: seq<Item>, c: seq<Item> :=
      [Op(Pop(R15)), Op(Pop(R14)), Op(Pop(R13))], [Op(Pop(R12)), Op(Pop(RBX)), Op(Pop(RBP))], [Op(Ret)];
    assert EpilogueCode() == a + b + c;
    BytesConcat(a + b, c);
    BytesConcat(a, b);
    BytesTriple(a[0], a[1], a[2]);
    BytesTriple(b[0], b[1], b[2]);
    BytesOne(Op(Ret));
    forall r { PopSize(r); }
    ControlSizes(RAX);
  }

  lemma PopSize(r: Reg)
    ensures Size(Op(Pop(r))) == if Num(r) >= 8 then 2 else 1
  {
    hide Num;
  }

  /** With seven or more recorded stubs there is a buffer size at which every check passes and
      the compiler succeeds with code cut off. */
  lemma ChecksMissStubs(e: Env, irs: seq<Ir.Instr>)
    requires Compilable(e, irs) && TailBytes(irs) >= 11 + 39 * 7
    ensures var cap := CodeAt(e, irs, |irs|) + EPILOGUE_AND_PATCH_BYTES + 1;
            ChecksPass(e, irs, cap) && CodeBytes(e, irs) > cap
  {
    hide CodeBytes, CodeAt, TailBytes;
    var cap := CodeAt(e, irs, |irs|) + EPILOGUE_AND_PATCH_BYTES + 1;
    NothingDroppedIff(e, irs, cap);
    forall i | 0 <= i < |irs| ensures CodeAt(e, irs, i) <= CodeAt(e, irs, |irs|) { CodeAtMonotone(e, irs, i, |irs|); }
  }

  lemma {:induction false} CodeAtMonotone(e: Env, irs: seq<Ir.Instr>, i: nat, j: nat)
    requires Compilable(e, irs) && i <= j <= |irs|
    ensures CodeAt(e, irs, i) <= CodeAt(e, irs, j)
    decreases j - i
  {
    hide CodeAt;
    if i < j {
      OperationBytes(e, irs, i);
      CodeAtMonotone(e, irs, i + 1, j);
    }
  }
}
