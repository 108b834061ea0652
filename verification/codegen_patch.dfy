/** After the last operation: the recorded jumps are patched, and the fault stubs emitted. */
module CodeGenPatch {
  import opened Words
  import opened X86
  import opened Snippet
  import opened Lowering
  import opened X86Encoding
  import opened Assembler
  import opened Reference
  import opened Program
  import opened Emitter
  import opened LoweringShape
  import opened Sizes
  import CodeBuffer
  import Ir

  // ---------------------------------------------------------------- sites by number

  lemma {:induction false} SiteAt(p: seq<Item>, c: Class, k: nat, m: nat)
    requires k <= |p| && m < |Sites(p, c, k)|
    ensures var j := Sites(p, c, k)[m];
            && j < k && IsSite(p, c, j) && |Sites(p, c, j)| == m && Holes(p, c, k)[m] == Hole(p, j)
            && (c == ToGuest ==> GuestTargets(p, k)[m] == p[j].to.pc)
            && (c == ToExit ==> ExitOffsets(p, k)[m] == Off(p, j))
    decreases k
  {
    hide Off, Hole;
    if m < |Sites(p, c, k - 1)| { SiteAt(p, c, k - 1, m); }
  }

  lemma {:induction false} SiteIndex(p: seq<Item>, c: Class, k: nat, j: nat)
    requires j < k <= |p| && IsSite(p, c, j)
    ensures |Sites(p, c, j)| < |Sites(p, c, k)| && Sites(p, c, k)[|Sites(p, c, j)|] == j
    decreases k
  {
    if j < k - 1 { SiteIndex(p, c, k - 1, j); }
  }

  /** The first m jumps of a class. */
  ghost function Before(p: seq<Item>, c: Class, k: nat, m: nat): set<nat>
    requires k <= |p|
  {
    set j: nat | j < k && IsSite(p, c, j) && |Sites(p, c, j)| < m
  }

  lemma BeforeStep(p: seq<Item>, c: Class, k: nat, m: nat)
    requires k <= |p| && m < |Sites(p, c, k)|
    ensures var j := Sites(p, c, k)[m];
            j < k && IsSite(p, c, j) && j !in Before(p, c, k, m) && Before(p, c, k, m + 1) == Before(p, c, k, m) + {j}
  {
    SiteAt(p, c, k, m);
    forall i | i in Before(p, c, k, m + 1) && i !in Before(p, c, k, m) ensures i == Sites(p, c, k)[m] {
      SiteIndex(p, c, k, i);
    }
  }

  ghost function SiteSet(p: seq<Item>, c: Class, k: nat): set<nat>
    requires k <= |p|
  {
    set j: nat | j < k && IsSite(p, c, j)
  }

  lemma BeforeAll(p: seq<Item>, c: Class, k: nat)
    requires k <= |p|
    ensures Before(p, c, k, |Sites(p, c, k)|) == SiteSet(p, c, k)
  {
    forall j: nat | j < k && IsSite(p, c, j) ensures |Sites(p, c, j)| < |Sites(p, c, k)| {
      SiteIndex(p, c, k, j);
    }
  }

  lemma BeforeNone(p: seq<Item>, c: Class, k: nat)
    requires k <= |p|
    ensures Before(p, c, k, 0) == {}
  {
  }

  /** The next jump to patch is still open. */
  lemma NextSite(p: seq<Item>, c: Class, k: nat, m: nat, all: set<nat>)
    requires k <= |p| && m < |Sites(p, c, k)| && SiteSet(p, c, k) <= all
    ensures var j := Sites(p, c, k)[m];
            && j < k && IsSite(p, c, j) && j in all - Before(p, c, k, m)
            && all - Before(p, c, k, m) - {j} == all - Before(p, c, k, m + 1)
  {
    hide Sites;
    BeforeStep(p, c, k, m);
  }

  // ---------------------------------------------------------------- targets of the whole program

  /** Among the first k items, every jump is finished with where it leads in this much room, or open. */
  ghost predicate Linked(e: Env, irs: seq<Ir.Instr>, room: nat, k: nat, tgt: Targets, open: set<nat>)
    requires Compilable(e, irs) && k <= |Items(e, irs)|
  {
    var p := Items(e, irs);
    && (forall j <- tgt :: j < k && IsJump(p[j]) && j !in open && tgt[j] == Dest(e, irs, room, j, p[j].to))
    && (forall j | 0 <= j < k && IsJump(p[j]) :: j in open || j in tgt)
    && (forall j <- open :: j < k && IsJump(p[j]))
  }

  lemma LinkedPatch(e: Env, irs: seq<Ir.Instr>, room: nat, k: nat, tgt: Targets, open: set<nat>, j: nat)
    requires Compilable(e, irs) && k <= |Items(e, irs)| && Linked(e, irs, room, k, tgt, open) && j in open
    ensures j < k && IsJump(Items(e, irs)[j]) && j !in tgt
    ensures Linked(e, irs, room, k, tgt[j := Dest(e, irs, room, j, Items(e, irs)[j].to)], open - {j})
  {
    hide Items, Place, Dest;
  }

  lemma LinkedBelow(e: Env, irs: seq<Ir.Instr>, room: nat, k: nat, tgt: Targets, open: set<nat>)
    requires Compilable(e, irs) && k <= |Items(e, irs)| && Linked(e, irs, room, k, tgt, open)
    ensures forall j <- tgt :: j < k
  {
    hide Items, Place, Dest;
  }

  lemma LinkedOp(e: Env, irs: seq<Ir.Instr>, room: nat, k: nat, tgt: Targets, open: set<nat>)
    requires Compilable(e, irs) && k < |Items(e, irs)| && Linked(e, irs, room, k, tgt, open) && !IsJump(Items(e, irs)[k])
    ensures Linked(e, irs, room, k + 1, tgt, open) && k !in tgt
  {
    hide Items, Place, Dest;
  }

  lemma LinkedJump(e: Env, irs: seq<Ir.Instr>, room: nat, k: nat, tgt: Targets, open: set<nat>)
    requires Compilable(e, irs) && k < |Items(e, irs)| && Linked(e, irs, room, k, tgt, open) && IsJump(Items(e, irs)[k])
    ensures Linked(e, irs, room, k + 1, tgt[k := Dest(e, irs, room, k, Items(e, irs)[k].to)], open) && k !in tgt
  {
    hide Items, Place, Dest;
  }

  /** When no jump is open, the targets are those of the finished program. */
  lemma LinkedAll(e: Env, irs: seq<Ir.Instr>, room: nat, k: nat, tgt: Targets)
    requires Compilable(e, irs) && k <= |Items(e, irs)| && Linked(e, irs, room, k, tgt, {})
    ensures Asm(Items(e, irs), tgt, k) == Asm(Items(e, irs), TargetsIn(e, irs, room), k)
  {
    hide Items, Dest, Asm, RelAt;
    var items, all := Items(e, irs), TargetsIn(e, irs, room);
    forall j | 0 <= j < k ensures RelAt(items, tgt, j) == RelAt(items, all, j) {
      if IsJump(items[j]) {
        assert tgt[j] == all[j];
        SameTarget(items, tgt, all, j);
      } else {
        NoTarget(items, tgt, all, j);
      }
    }
    AsmAgree(items, tgt, all, k);
  }

  lemma SameTarget(items: seq<Item>, tgt: Targets, tgt': Targets, j: nat)
    requires j < |items| && j in tgt && j in tgt' && tgt[j] == tgt'[j]
    ensures RelAt(items, tgt, j) == RelAt(items, tgt', j)
  {
    hide Off, Rel32;
  }

  lemma NoTarget(items: seq<Item>, tgt: Targets, tgt': Targets, j: nat)
    requires j < |items| && j !in tgt && j !in tgt'
    ensures RelAt(items, tgt, j) == RelAt(items, tgt', j)
  {
  }

  /** The jumps left open by the operations: all but those inside an operation. */
  ghost function Outward(p: seq<Item>, k: nat): set<nat>
    requires k <= |p|
  {
    set j: nat | j < k && IsJump(p[j]) && !p[j].to.Local?
  }

  lemma LinkedStart(e: Env, irs: seq<Ir.Instr>, room: nat, k: nat, tgt: Targets)
    requires Compilable(e, irs) && k <= |Items(e, irs)| && Links(Items(e, irs), k, tgt, {})
    ensures Linked(e, irs, room, k, tgt, Outward(Items(e, irs), k))
  {
    hide Items, Start, StubStart;
  }

  lemma OutwardClasses(p: seq<Item>, k: nat)
    requires k <= |p|
    ensures Outward(p, k) == SiteSet(p, ToGuest, k) + SiteSet(p, ToExit, k) + SiteSet(p, ToStub(Ir.Read), k)
                             + SiteSet(p, ToStub(Ir.Write), k) + SiteSet(p, ToStub(Ir.Timeout), k)
    ensures forall c, d | c != d :: SiteSet(p, c, k) !! SiteSet(p, d, k)
  {
    forall j <- Outward(p, k)
      ensures j in SiteSet(p, ClassOf(p[j].to), k)
      ensures ClassOf(p[j].to) in {ToGuest, ToExit, ToStub(Ir.Read), ToStub(Ir.Write), ToStub(Ir.Timeout)}
    {
      if p[j].to.Stub? {
        match p[j].to.kind { case Read => case Write => case Timeout => }
      }
    }
  }

  /** The generator after the operations. */
  ghost predicate Linking(jit: Jit, irs: seq<Ir.Instr>)
    reads jit`k, jit`limit, jit`tgt, jit`open, jit.buf, jit.buf.data
  {
    && Compilable(jit.e, irs) && jit.plan == Items(jit.e, irs) && jit.Laid()
    && Linked(jit.e, irs, jit.buf.data.Length, jit.k, jit.tgt, jit.open)
  }

  /** The map from guest addresses to code, at the addresses that were translated. */
  ghost predicate Mapped(jit: Jit, irs: seq<Ir.Instr>)
    reads jit.pcMap
  {
    && Compilable(jit.e, irs) && jit.plan == Items(jit.e, irs)
    && jit.pcMap.Length == |jit.e.sp.text|
    && forall i | 0 <= i < |irs| && InText(jit.e.sp, irs[i].pc) && Place(jit.e, irs, 0, GuestPc(irs[i].pc)) <= |jit.plan| ::
         jit.pcMap[irs[i].pc - jit.e.sp.textAddr] == Off(jit.plan, Place(jit.e, irs, 0, GuestPc(irs[i].pc)))
  }

  /** A recorded jump is patched to its place. */
  method PatchSite(jit: Jit, hole: nat, target: nat, ghost j: nat, ghost irs: seq<Ir.Instr>)
    requires Linking(jit, irs) && j in jit.open && j < jit.k <= |jit.plan| && IsJump(jit.plan[j]) && hole == Hole(jit.plan, j)
    requires !jit.plan[j].to.Stub? && Place(jit.e, irs, j, jit.plan[j].to) <= |jit.plan|
    requires target == Off(jit.plan, Place(jit.e, irs, j, jit.plan[j].to))
    modifies jit`tgt, jit`open, jit.buf.data, jit.buf`all
    ensures Linking(jit, irs) && jit.open == old(jit.open) - {j} && jit.buf.size == old(jit.buf.size)
  {
    hide Off, Hole, jit.Laid, Linked, Items, Place, Compilable;
    LinkedPatch(jit.e, irs, jit.buf.data.Length, jit.k, jit.tgt, jit.open, j);
    jit.PatchRel32(hole, target, j, Place(jit.e, irs, j, jit.plan[j].to));
    jit.open := jit.open - {j};
  }

  /** Where a branch goes, read off the map. */
  lemma BranchTarget(jit: Jit, irs: seq<Ir.Instr>, j: nat, pc: u64)
    requires Linking(jit, irs) && Mapped(jit, irs) && (InText(jit.e.sp, pc) ==> Translated(irs, pc))
    ensures Place(jit.e, irs, j, GuestPc(pc)) <= |jit.plan|
    ensures InText(jit.e.sp, pc) ==> 0 <= pc - jit.e.sp.textAddr < jit.pcMap.Length &&
                                     jit.pcMap[pc - jit.e.sp.textAddr] == Off(jit.plan, Place(jit.e, irs, j, GuestPc(pc)))
    ensures !InText(jit.e.sp, pc) ==> Place(jit.e, irs, j, GuestPc(pc)) == Epi(jit.e, irs)
  {
    hide Off, Items, Linked, Start, jit.Laid;
    StartBound(jit.e, irs, |irs|);
    if InText(jit.e.sp, pc) { StartBound(jit.e, irs, FirstAt(irs, pc, 0)); }
  }

  /** Branches: into the text by the map, anything else to the epilogue. */
  method PatchGuestBranches(jit: Jit, epilogueOffset: nat, ghost irs: seq<Ir.Instr>)
    requires Linking(jit, irs) && Mapped(jit, irs) && jit.k == Epi(jit.e, irs) <= |jit.plan|
    requires jit.branchHoles == Holes(jit.plan, ToGuest, jit.k) && jit.branchTargets == GuestTargets(jit.plan, jit.k)
    requires SiteSet(jit.plan, ToGuest, jit.k) <= jit.open && epilogueOffset == Off(jit.plan, jit.k)
    requires forall t <- jit.branchTargets :: InText(jit.e.sp, t) ==> Translated(irs, t)
    modifies jit`tgt, jit`open, jit.buf.data, jit.buf`all
    ensures Linking(jit, irs) && jit.open == old(jit.open) - SiteSet(jit.plan, ToGuest, jit.k)
    ensures jit.buf.size == old(jit.buf.size)
  {
    hide Off, Hole, Linking, Items, Place, Compilable, Mapped, Sites, Holes, GuestTargets, Before, SiteSet, Epi, Translated;
    ghost var e, p, k, open := jit.e, jit.plan, jit.k, jit.open;
    BeforeNone(p, ToGuest, k);
    BeforeAll(p, ToGuest, k);
    var i := 0;
    while i < |jit.branchHoles|
      invariant i <= |jit.branchHoles| && Linking(jit, irs) && jit.buf.size == old(jit.buf.size)
      invariant jit.open == open - Before(p, ToGuest, k, i)
      invariant Mapped(jit, irs)
    {
      var hole, pc := jit.branchHoles[i], jit.branchTargets[i];
      ghost var j := Sites(p, ToGuest, k)[i];
      SiteAt(p, ToGuest, k, i);
      NextSite(p, ToGuest, k, i, open);
      BranchTarget(jit, irs, j, pc);
      var target := epilogueOffset;
      if jit.e.sp.textAddr <= pc < jit.e.sp.textAddr + |jit.e.sp.text| {
        target := jit.pcMap[pc - jit.e.sp.textAddr];
      }
      PatchSite(jit, hole, target, j, irs);
      i := i + 1;
    }
  }

  method PatchEpilogueJumps(jit: Jit, epilogueOffset: nat, ghost irs: seq<Ir.Instr>)
    requires Linking(jit, irs) && jit.k == Epi(jit.e, irs) <= |jit.plan|
    requires jit.exitJumps == ExitOffsets(jit.plan, jit.k) && Numbered(jit.plan, jit.k)
    requires SiteSet(jit.plan, ToExit, jit.k) <= jit.open && epilogueOffset == Off(jit.plan, jit.k)
    modifies jit`tgt, jit`open, jit.buf.data, jit.buf`all
    ensures Linking(jit, irs) && jit.open == old(jit.open) - SiteSet(jit.plan, ToExit, jit.k)
    ensures jit.buf.size == old(jit.buf.size)
  {
    hide Off, Hole, Linking, Items, Compilable, Sites, Holes, ExitOffsets, Before, SiteSet, Epi;
    ghost var p, k, open := jit.plan, jit.k, jit.open;
    BeforeNone(p, ToExit, k);
    BeforeAll(p, ToExit, k);
    var i := 0;
    while i < |jit.exitJumps|
      invariant i <= |jit.exitJumps| && Linking(jit, irs) && jit.buf.size == old(jit.buf.size)
      invariant jit.open == open - Before(p, ToExit, k, i)
    {
      ghost var j := Sites(p, ToExit, k)[i];
      SiteAt(p, ToExit, k, i);
      NextSite(p, ToExit, k, i, open);
      HoleOf(p, j);
      PatchSite(jit, jit.exitJumps[i] + 1, epilogueOffset, j, irs);
      i := i + 1;
    }
  }

  // ---------------------------------------------------------------- exit code

  method EmitEpilogue(jit: Jit, ghost irs: seq<Ir.Instr>)
    requires Linking(jit, irs) && jit.Next(EpilogueCode())
    modifies jit`k, jit.buf, jit.buf.data
    ensures Linking(jit, irs) && jit.k == old(jit.k) + 7
  {
    hide Linking;
    AppendLinked(jit, Pop(R15), irs);
    AppendLinked(jit, Pop(R14), irs);
    AppendLinked(jit, Pop(R13), irs);
    AppendLinked(jit, Pop(R12), irs);
    AppendLinked(jit, Pop(RBX), irs);
    AppendLinked(jit, Pop(RBP), irs);
    AppendLinked(jit, Ret, irs);
  }

  method AppendLinked(jit: Jit, ins: Instr, ghost irs: seq<Ir.Instr>)
    requires Linking(jit, irs) && jit.k < jit.limit && jit.k < |jit.plan| && jit.plan[jit.k] == Op(ins)
    requires !(ins.Setcc? && ins.byteDst.High?)
    modifies jit`k, jit.buf, jit.buf.data
    ensures Linking(jit, irs) && jit.k == old(jit.k) + 1
  {
    hide Items, Linked, jit.Laid, Compilable;
    LinkedOp(jit.e, irs, jit.buf.data.Length, jit.k, jit.tgt, jit.open);
    jit.AppendFinal(ins);
  }

  // ---------------------------------------------------------------- fault stubs

  /** The bytes that record the address, and those that record the fault. */
  function PcBytes(pc: u64): seq<u8>
  {
    Encode(MovImm(RAX, pc)) + Encode(StoreM(Ir.St64, R15, OFF_PC, RAX))
  }

  function FaultBytes(kind: Ir.FaultKind): seq<u8>
  {
    Encode(MovImm(RAX, FaultCode(kind))) + Encode(StoreM(Ir.St64, R15, OFF_FAULT, RAX))
  }

  method StoreCpuPcImmediate(buf: CodeBuffer.Buffer, pc: u64)
    requires buf.Valid()
    modifies buf, buf.data
    ensures buf.Valid() && buf.all == old(buf.all) + PcBytes(pc)
  {
    hide Encode, buf.Valid;
    buf.Emit(MovImm(RAX, pc));
    buf.Emit(StoreM(Ir.St64, R15, OFF_PC, RAX));
    CodeBuffer.Assoc(old(buf.all), Encode(MovImm(RAX, pc)), Encode(StoreM(Ir.St64, R15, OFF_PC, RAX)));
  }

  method StoreCpuFault(buf: CodeBuffer.Buffer, kind: Ir.FaultKind)
    requires buf.Valid()
    modifies buf, buf.data
    ensures buf.Valid() && buf.all == old(buf.all) + FaultBytes(kind)
  {
    hide Encode, buf.Valid;
    buf.Emit(MovImm(RAX, FaultCode(kind)));
    buf.Emit(StoreM(Ir.St64, R15, OFF_FAULT, RAX));
    CodeBuffer.Assoc(old(buf.all), Encode(MovImm(RAX, FaultCode(kind))), Encode(StoreM(Ir.St64, R15, OFF_FAULT, RAX)));
  }

  lemma StubPieces(pc: u64, kind: Ir.FaultKind, rel: i32)
    ensures |PcBytes(pc)| == 17 && |FaultBytes(kind)| == 17 && |Encode(Jmp(rel))| == 5
  {
  }

  /** Patches the fault jump to land here, and emits the stub. Nothing is known about the room
      left: bytes that do not fit are dropped. */
  method EmitFaultStub(jit: Jit, hole: nat, pc: u64, kind: Ir.FaultKind, epilogueOffset: nat)
    requires jit.buf.Valid() && hole + 4 <= jit.buf.size
    modifies jit.buf, jit.buf.data
    ensures jit.buf.Valid() && |jit.buf.all| == |old(jit.buf.all)| + 39
    ensures var all, size := old(jit.buf.all), old(jit.buf.size);
            var next := CodeBuffer.Min(|all| + 34, jit.buf.data.Length) + 5;
            jit.buf.all == Splice(all, hole, Le(W32(size - (hole + 4)), 4)) + PcBytes(pc) + FaultBytes(kind)
                           + Encode(Jmp(Rel32(epilogueOffset - next)))
  {
    hide Encode, Le, PcBytes, FaultBytes, Rel32;
    var buf := jit.buf;
    buf.Patch32(hole, W32(buf.size - (hole + 4)));
    StubPieces(pc, kind, 0);
    StoreCpuPcImmediate(buf, pc);
    StoreCpuFault(buf, kind);
    var rel := Rel32(epilogueOffset - (buf.size + 5));
    StubPieces(pc, kind, rel);
    buf.EmitJmp(rel);
  }

  lemma StubHead(plan: seq<Item>, tgt: Targets, k: nat, pc: u64, kind: Ir.FaultKind)
    requires k + 5 <= |plan| && Stands(plan, k, StubCode(pc, kind))
    ensures Asm(plan, tgt, k + 4) == Asm(plan, tgt, k) + PcBytes(pc) + FaultBytes(kind)
  {
    hide Encode, RelAt, Stands, FaultCode;
    StubItems(plan, k, pc, kind);
    var a := Asm(plan, tgt, k);
    assert Asm(plan, tgt, k + 1) == a + Encode(plan[k].ins);
    CodeBuffer.Assoc(a, Encode(plan[k].ins), Encode(plan[k + 1].ins));
    assert Asm(plan, tgt, k + 2) == a + PcBytes(pc);
    assert Asm(plan, tgt, k + 3) == a + PcBytes(pc) + Encode(plan[k + 2].ins);
    CodeBuffer.Assoc(a + PcBytes(pc), Encode(plan[k + 2].ins), Encode(plan[k + 3].ins));
  }

  /** The items of a stub, when they fit, are what EmitFaultStub writes. */
  lemma StubAssembled(plan: seq<Item>, tgt: Targets, k: nat, pc: u64, kind: Ir.FaultKind, epi: nat)
    requires k + 5 <= |plan| && Stands(plan, k, StubCode(pc, kind)) && epi <= |plan|
    requires forall j <- tgt :: j < k
    ensures Off(plan, k + 4) == Off(plan, k) + 34 && Off(plan, k + 5) == Off(plan, k) + 39
    ensures Asm(plan, tgt[k + 4 := epi], k + 5) ==
            Asm(plan, tgt, k) + PcBytes(pc) + FaultBytes(kind) + Encode(Jmp(Rel32(Off(plan, epi) - (Off(plan, k) + 34 + 5))))
  {
    hide Encode, Rel32, PcBytes, FaultBytes, Stands, RelAt, TargetOff;
    var t := tgt[k + 4 := epi];
    StubItems(plan, k, pc, kind);
    forall j | 0 <= j < k ensures RelAt(plan, tgt, j) == RelAt(plan, t, j) {
      if j in tgt { SameTarget(plan, tgt, t, j); } else { NoTarget(plan, tgt, t, j); }
    }
    AsmAgree(plan, tgt, t, k);
    StubHead(plan, t, k, pc, kind);
    AsmLength(plan, t, k);
    AsmLength(plan, t, k + 4);
    StubPieces(pc, kind, 0);
    JumpEncoding(plan[k + 4], 0);
    RelIs(plan, t, k + 4, epi);
    assert InstrAt(plan, t, k + 4) == Jmp(RelAt(plan, t, k + 4));
  }

  lemma RelIs(items: seq<Item>, tgt: Targets, j: nat, t: nat)
    requires j < |items| && j in tgt && tgt[j] == t <= |items|
    ensures RelAt(items, tgt, j) == Rel32(Off(items, t) - Off(items, j) - Size(items[j]))
  {
    hide Off, Rel32, Size;
  }

  lemma StubItems(plan: seq<Item>, k: nat, pc: u64, kind: Ir.FaultKind)
    requires k + 5 <= |plan| && Stands(plan, k, StubCode(pc, kind))
    ensures plan[k] == Op(MovImm(RAX, pc)) && plan[k + 1] == Op(StoreM(Ir.St64, R15, OFF_PC, RAX))
    ensures plan[k + 2] == Op(MovImm(RAX, FaultCode(kind))) && plan[k + 3] == Op(StoreM(Ir.St64, R15, OFF_FAULT, RAX))
    ensures plan[k + 4] == JmpTo(Epilogue)
  {
    hide FaultCode;
  }

  lemma LinkedStub(e: Env, irs: seq<Ir.Instr>, room: nat, k: nat, tgt: Targets, open: set<nat>, pc: u64, kind: Ir.FaultKind)
    requires Compilable(e, irs) && k + 5 <= |Items(e, irs)| && Linked(e, irs, room, k, tgt, open)
    requires Stands(Items(e, irs), k, StubCode(pc, kind))
    ensures Linked(e, irs, room, k + 5, tgt[k + 4 := Epi(e, irs)], open)
  {
    hide Items, Linked, Epi, Stands;
    StubItems(Items(e, irs), k, pc, kind);
    LinkedOp(e, irs, room, k, tgt, open);
    LinkedOp(e, irs, room, k + 1, tgt, open);
    LinkedOp(e, irs, room, k + 2, tgt, open);
    LinkedOp(e, irs, room, k + 3, tgt, open);
    LinkedJump(e, irs, room, k + 4, tgt, open);
  }

  /** The generator after m of the stubs. Those that fit are the next part of the program; of the
      others only the jumps that lead to them count. */
  ghost predicate Trimmed(jit: Jit, irs: seq<Ir.Instr>, m: nat)
    reads jit`k, jit`tgt, jit`open, jit.buf, jit.buf.data
  {
    && Compilable(jit.e, irs) && jit.plan == Items(jit.e, irs) && jit.buf.Valid() && jit.buf.data.Length < TWO31
    && m <= AllStubs(irs) && StubsAt(jit.e, irs) <= jit.buf.data.Length
    && jit.k == Epi(jit.e, irs) + 7 + 5 * CodeBuffer.Min(m, FittingStubs(jit.e, irs, jit.buf.data.Length)) <= |jit.plan|
    && |jit.buf.all| == StubsAt(jit.e, irs) + FAULT_STUB_BYTES * m
    && Off(jit.plan, jit.k) <= |jit.buf.all| && jit.buf.all[..Off(jit.plan, jit.k)] == Asm(jit.plan, jit.tgt, jit.k)
    && Linked(jit.e, irs, jit.buf.data.Length, jit.k, jit.tgt, jit.open)
  }

  /** The stubs of one kind stand in the program in the order of pcs. */
  ghost predicate StubsStand(e: Env, irs: seq<Ir.Instr>, kind: Ir.FaultKind, pcs: seq<u64>)
    requires Compilable(e, irs)
  {
    forall m | 0 <= m < |pcs| :: Stands(Items(e, irs), StubStart(e, irs, kind) + 5 * m, StubCode(pcs[m], kind))
  }

  /** A stub appended: its jump leads to it, and it is the next part of the program. */
  lemma StubAppended(items: seq<Item>, ep: nat, k: nat, tgt: Targets, all: seq<u8>, hole: nat, pc: u64, kind: Ir.FaultKind, j: nat)
    requires k + 5 <= |items| && ep <= |items| && all == Asm(items, tgt, k) && Stands(items, k, StubCode(pc, kind))
    requires j < k && IsJump(items[j]) && j !in tgt && hole == Hole(items, j) && hole + 4 <= |all| && forall i <- tgt :: i < k
    ensures |all| == Off(items, k) && Off(items, k + 5) == |all| + 39
    ensures WithStub(all, hole, |all|, pc, kind, Off(items, ep) - (|all| + 39)) == Asm(items, tgt[j := k][k + 4 := ep], k + 5)
  {
    hide Encode, Off, Asm, Hole, Le, PcBytes, FaultBytes, Rel32, Stands, PatchBytes, TargetOff, StubCode, Splice;
    AsmLength(items, tgt, k);
    AsmPatch(items, tgt, j, k, k);
    PatchBytesAre(items, j, k);
    StubAssembled(items, tgt[j := k], k, pc, kind, ep);
  }

  /** The targets after a stub that fits. */
  lemma FittingLinked(e: Env, irs: seq<Ir.Instr>, room: nat, m: nat, tgt: Targets, open: set<nat>, pc: u64, kind: Ir.FaultKind, j: nat)
    requires Compilable(e, irs) && m < AllStubs(irs) && StubFits(e, irs, room, m)
    requires Epi(e, irs) + 7 + 5 * m <= |Items(e, irs)| && Linked(e, irs, room, Epi(e, irs) + 7 + 5 * m, tgt, open)
    requires JumpTo(e, irs, kind, m, j) && j in open && Stands(Items(e, irs), Epi(e, irs) + 7 + 5 * m, StubCode(pc, kind))
    ensures var k := Epi(e, irs) + 7 + 5 * m;
            && k + 5 <= |Items(e, irs)| && j < k && IsJump(Items(e, irs)[j]) && j !in tgt && (forall i <- tgt :: i < k)
            && Linked(e, irs, room, k + 5, tgt[j := k][k + 4 := Epi(e, irs)], open - {j})
  {
    hide Encode, Off, Asm, Items, Linked, Epi, Compilable, StubsAt, Count, Stands, Dest, StubCode, StubFits;
    var k := Epi(e, irs) + 7 + 5 * m;
    StubOff(e, irs, m + 1);
    LinkedPatch(e, irs, room, k, tgt, open, j);
    RankPlace(e, irs, room, kind, m, j);
    LinkedBelow(e, irs, room, k, tgt, open);
    LinkedStub(e, irs, room, k, tgt[j := k], open - {j}, pc, kind);
  }

  /** Item j is a fault jump to the stub with this number. */
  ghost predicate JumpTo(e: Env, irs: seq<Ir.Instr>, kind: Ir.FaultKind, m: nat, j: nat)
    requires Compilable(e, irs)
  {
    && j < |Items(e, irs)| && IsJump(Items(e, irs)[j]) && Items(e, irs)[j].to.Stub?
    && Items(e, irs)[j].to.kind == kind && StubRank(irs, kind, Items(e, irs)[j].to.index) == m
  }

  ghost function StubDest(e: Env, irs: seq<Ir.Instr>, room: nat, m: nat): nat
    requires Compilable(e, irs)
  {
    if room < StubsAt(e, irs) + FAULT_STUB_BYTES * m then |Items(e, irs)| + 1 + room else Epi(e, irs) + 7 + 5 * m
  }

  /** Where it leads. */
  lemma RankPlace(e: Env, irs: seq<Ir.Instr>, room: nat, kind: Ir.FaultKind, m: nat, j: nat)
    requires Compilable(e, irs) && JumpTo(e, irs, kind, m, j)
    ensures Dest(e, irs, room, j, Items(e, irs)[j].to) == StubDest(e, irs, room, m)
    ensures StubFits(e, irs, room, m) ==> StubDest(e, irs, room, m) == Epi(e, irs) + 7 + 5 * m
  {
    hide Items, StubsAt, Count, Epi;
  }

  /** The buffer after a stub: the jump is patched to lead to size, and the stub appended. */
  function WithStub(all: seq<u8>, hole: nat, size: nat, pc: u64, kind: Ir.FaultKind, rel: int): seq<u8>
    requires hole + 4 <= |all|
  {
    Splice(all, hole, Le(W32(size - (hole + 4)), 4)) + PcBytes(pc) + FaultBytes(kind) + Encode(Jmp(Rel32(rel)))
  }

  /** A stub that does not fit: only its jump counts. */
  lemma CutStub(e: Env, irs: seq<Ir.Instr>, room: nat, items: seq<Item>, m: nat, k: nat, tgt: Targets, open: set<nat>, all: seq<u8>, hole: nat,
                pc: u64, kind: Ir.FaultKind, j: nat, rel: int)
    requires Compilable(e, irs) && items == Items(e, irs) && m < AllStubs(irs) && StubsAt(e, irs) <= room && k <= |items|
    requires |all| == StubsAt(e, irs) + FAULT_STUB_BYTES * m && Off(items, k) <= |all|
    requires all[..Off(items, k)] == Asm(items, tgt, k) && Linked(e, irs, room, k, tgt, open)
    requires JumpTo(e, irs, kind, m, j) && j in open && hole == Hole(items, j)
    ensures hole + 4 <= Off(items, k)
    ensures WithStub(all, hole, CodeBuffer.Min(|all|, room), pc, kind, rel)[..Off(items, k)] ==
            Asm(items, tgt[j := StubDest(e, irs, room, m)], k)
    ensures Linked(e, irs, room, k, tgt[j := StubDest(e, irs, room, m)], open - {j})
  {
    hide Encode, Asm, Hole, Le, Items, PcBytes, FaultBytes, Linked, Rel32, Epi, Compilable, StubsAt, Count, Off, Splice, Dest, W32, FittingStubs,
         TargetOff, PatchBytes, StubDest;
    var d, n, size := StubDest(e, irs, room, m), Off(items, k), CodeBuffer.Min(|all|, room);
    LinkedPatch(e, irs, room, k, tgt, open, j);
    RankPlace(e, irs, room, kind, m, j);
    DestOff(e, irs, room, m);
    AsmPatch(items, tgt, j, d, k);
    AsmLength(items, tgt, k);
    PatchBytesTo(items, j, d);
    var b := Le(W32(size - (hole + 4)), 4);
    PrefixPatched(all, n, hole, b, PcBytes(pc) + FaultBytes(kind) + Encode(Jmp(Rel32(rel))));
    FourParts(Splice(all, hole, b), PcBytes(pc), FaultBytes(kind), Encode(Jmp(Rel32(rel))));
  }

  lemma FourParts(a: seq<u8>, b: seq<u8>, c: seq<u8>, d: seq<u8>)
    ensures a + b + c + d == a + (b + c + d)
  {
  }

  lemma PatchBytesTo(items: seq<Item>, j: nat, t: nat)
    requires j < |items| && IsJump(items[j])
    ensures PatchBytes(items, j, t) == Le(W32(TargetOff(items, t) - (Hole(items, j) + 4)), 4)
  {
    hide TargetOff, Hole, Le, W32;
  }

  lemma DestOff(e: Env, irs: seq<Ir.Instr>, room: nat, m: nat)
    requires Compilable(e, irs) && m < AllStubs(irs)
    ensures TargetOff(Items(e, irs), StubDest(e, irs, room, m)) == CodeBuffer.Min(StubsAt(e, irs) + FAULT_STUB_BYTES * m, room)
  {
    hide Items, Epi, StubsAt, Count, Off;
    StubOff(e, irs, m);
  }

  lemma PrefixPatched(all: seq<u8>, n: nat, hole: nat, b: seq<u8>, more: seq<u8>)
    requires n <= |all| && hole + |b| <= n
    ensures (Splice(all, hole, b) + more)[..n] == Splice(all[..n], hole, b)
  {
  }

  /** The next stub, whether it fits or not. */
  method EmitNextStub(jit: Jit, hole: nat, pc: u64, kind: Ir.FaultKind, epilogueOffset: nat, ghost j: nat, ghost m: nat, ghost irs: seq<Ir.Instr>)
    requires Compilable(jit.e, irs) && jit.plan == Items(jit.e, irs) && Trimmed(jit, irs, m) && m < AllStubs(irs)
    requires Stands(jit.plan, Epi(jit.e, irs) + 7 + 5 * m, StubCode(pc, kind))
    requires JumpTo(jit.e, irs, kind, m, j) && j in jit.open && hole == Hole(jit.plan, j) && hole + 4 <= StubsAt(jit.e, irs)
    requires Epi(jit.e, irs) <= |jit.plan| && epilogueOffset == Off(jit.plan, Epi(jit.e, irs))
    modifies jit`k, jit`tgt, jit`open, jit.buf, jit.buf.data
    ensures Trimmed(jit, irs, m + 1) && jit.open == old(jit.open) - {j}
  {
    hide Encode, Off, Asm, Hole, Le, Items, PcBytes, FaultBytes, Linked, Rel32, Epi, Compilable, StubsAt, Count, Stands, JumpTo, Splice, Dest, W32,
         StubDest, FittingStubs, StubCode;
    ghost var e, room, all, k, ep := jit.e, jit.buf.data.Length, jit.buf.all, jit.k, Epi(jit.e, irs);
    ghost var fits := m < FittingStubs(e, irs, room);
    if fits {
      WholeSlice(all, Off(jit.plan, k), Asm(jit.plan, jit.tgt, k), e, irs, m);
      assert StubFits(e, irs, room, m);
      StubOff(e, irs, m);
      FittingLinked(e, irs, room, m, jit.tgt, jit.open, pc, kind, j);
      StubAppended(jit.plan, ep, k, jit.tgt, all, hole, pc, kind, j);
    } else {
      CutStub(e, irs, room, jit.plan, m, k, jit.tgt, jit.open, all, hole, pc, kind, j, epilogueOffset - (CodeBuffer.Min(|all| + 34, room) + 5));
    }
    EmitFaultStub(jit, hole, pc, kind, epilogueOffset);
    if fits {
      jit.k, jit.tgt := k + 5, jit.tgt[j := k][k + 4 := ep];
      assert jit.buf.all[..|jit.buf.all|] == jit.buf.all;
    } else {
      jit.tgt := jit.tgt[j := StubDest(e, irs, room, m)];
    }
    jit.open := jit.open - {j};
  }

  lemma WholeSlice(all: seq<u8>, n: nat, asm: seq<u8>, e: Env, irs: seq<Ir.Instr>, m: nat)
    requires Compilable(e, irs) && m <= AllStubs(irs) && n <= |all| && all[..n] == asm
    requires |all| == StubsAt(e, irs) + FAULT_STUB_BYTES * m
    requires Epi(e, irs) + 7 + 5 * m <= |Items(e, irs)| && n == Off(Items(e, irs), Epi(e, irs) + 7 + 5 * m)
    ensures all == asm
  {
    hide Items, Off, Epi, StubsAt, Count;
    StubOff(e, irs, m);
  }

  /** The stubs of one kind: their jumps lead to them, as far as they fit. */
  method EmitFaultStubs(jit: Jit, holes: seq<nat>, pcs: seq<u64>, kind: Ir.FaultKind, epilogueOffset: nat, ghost irs: seq<Ir.Instr>)
    requires Compilable(jit.e, irs) && jit.plan == Items(jit.e, irs)
    requires Trimmed(jit, irs, StubRank(irs, kind, 0)) && |holes| == |pcs| == Count(irs, kind, |irs|)
    requires StubsStand(jit.e, irs, kind, pcs) && forall h <- holes :: h + 4 <= StubsAt(jit.e, irs)
    requires Epi(jit.e, irs) <= |jit.plan| && epilogueOffset == Off(jit.plan, Epi(jit.e, irs))
    requires holes == Holes(jit.plan, ToStub(kind), Epi(jit.e, irs))
    requires Numbered(jit.plan, Epi(jit.e, irs)) && SiteSet(jit.plan, ToStub(kind), Epi(jit.e, irs)) <= jit.open
    modifies jit`k, jit`tgt, jit`open, jit.buf, jit.buf.data
    ensures Trimmed(jit, irs, StubRank(irs, kind, |pcs|))
    ensures jit.open == old(jit.open) - SiteSet(jit.plan, ToStub(kind), Epi(jit.e, irs))
  {
    hide Off, Hole, Items, Compilable, Sites, Holes, Before, SiteSet, Epi, Numbered, Trimmed, Stands, Count, StubsAt, JumpTo,
         StubStart, StubRank, AllStubs, StubCode;
    ghost var p, open, ep, c := jit.plan, jit.open, Epi(jit.e, irs), ToStub(kind);
    BeforeNone(p, c, ep);
    BeforeAll(p, c, ep);
    var i := 0;
    while i < |holes|
      invariant i <= |holes| && Trimmed(jit, irs, StubRank(irs, kind, i))
      invariant jit.open == open - Before(p, c, ep, i)
    {
      ghost var j := Sites(p, c, ep)[i];
      SiteAt(p, c, ep, i);
      NextSite(p, c, ep, i, open);
      SiteLabel(p, c, ep, j);
      NextRank(jit, irs, kind, i, j);
      assert holes[i] in holes;
      EmitNextStub(jit, holes[i], pcs[i], kind, epilogueOffset, j, StubRank(irs, kind, i), irs);
      i := i + 1;
    }
  }

  lemma NextRank(jit: Jit, irs: seq<Ir.Instr>, kind: Ir.FaultKind, i: nat, j: nat)
    requires Trimmed(jit, irs, StubRank(irs, kind, i)) && i < Count(irs, kind, |irs|)
    requires j < |jit.plan| && IsJump(jit.plan[j]) && jit.plan[j].to == Stub(kind, i)
    ensures StubRank(irs, kind, i) < AllStubs(irs) && StubRank(irs, kind, i + 1) == StubRank(irs, kind, i) + 1
    ensures JumpTo(jit.e, irs, kind, StubRank(irs, kind, i), j)
    ensures StubStart(jit.e, irs, kind) + 5 * i == Epi(jit.e, irs) + 7 + 5 * StubRank(irs, kind, i)
  {
    hide Items, Off, Linked, Epi, StubsAt, Count, Asm, FittingStubs;
  }

  lemma SiteLabel(p: seq<Item>, c: Class, k: nat, j: nat)
    requires k <= |p| && Numbered(p, k) && j < k && IsSite(p, c, j) && c.ToStub?
    ensures IsJump(p[j]) && p[j].to == Stub(c.kind, |Sites(p, c, j)|)
  {
    hide Sites;
  }
}
