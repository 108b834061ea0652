/** The code generator's state: the growing buffer, and the tables of jumps that can only be
    finished later. Emission follows a plan, the symbolic program it is meant to produce. */
module Emitter {
  import opened Words
  import opened X86
  import opened Snippet
  import opened X86Encoding
  import opened Assembler
  import CodeBuffer
  import Ir

  // ---------------------------------------------------------------- recorded jumps

  /** The recording tables: jumps to guest addresses, jumps to the epilogue, fault jumps. */
  datatype Class = ToGuest | ToExit | ToStub(kind: Ir.FaultKind) | InBody

  function ClassOf(l: Label): Class
  {
    match l
    case GuestPc(_) => ToGuest
    case Epilogue => ToExit
    case Stub(kind, _) => ToStub(kind)
    case Local(_) => InBody
  }

  predicate IsSite(p: seq<Item>, c: Class, j: nat)
    requires j < |p|
  {
    IsJump(p[j]) && ClassOf(p[j].to) == c
  }

  /** The jumps of one class among the first k items, in order. */
  function Sites(p: seq<Item>, c: Class, k: nat): (s: seq<nat>)
    requires k <= |p|
    ensures |s| <= k
  {
    if k == 0 then [] else Sites(p, c, k - 1) + (if IsSite(p, c, k - 1) then [k - 1] else [])
  }

  /** Their displacement fields. */
  function Holes(p: seq<Item>, c: Class, k: nat): (s: seq<nat>)
    requires k <= |p|
    ensures |s| == |Sites(p, c, k)|
  {
    if k == 0 then [] else Holes(p, c, k - 1) + (if IsSite(p, c, k - 1) then [Hole(p, k - 1)] else [])
  }

  /** The offsets of the jumps to the epilogue. */
  function ExitOffsets(p: seq<Item>, k: nat): (s: seq<nat>)
    requires k <= |p|
    ensures |s| == |Sites(p, ToExit, k)|
  {
    if k == 0 then [] else ExitOffsets(p, k - 1) + (if IsSite(p, ToExit, k - 1) then [Off(p, k - 1)] else [])
  }

  /** The guest addresses jumped to. */
  function GuestTargets(p: seq<Item>, k: nat): (s: seq<u64>)
    requires k <= |p|
    ensures |s| == |Sites(p, ToGuest, k)|
  {
    if k == 0 then [] else GuestTargets(p, k - 1) + (if IsSite(p, ToGuest, k - 1) then [p[k - 1].to.pc] else [])
  }

  /** Fault jump labels are numbered in order of emission, each kind for itself; jumps to the
      epilogue are unconditional. */
  ghost predicate Numbered(p: seq<Item>, k: nat)
    requires k <= |p|
  {
    forall j | 0 <= j < k && IsJump(p[j]) ::
      && (p[j].to.Stub? ==> p[j].to.index == |Sites(p, ToStub(p[j].to.kind), j)|)
      && (p[j].to.Epilogue? ==> p[j].JmpTo?)
  }

  /** Exactly the jumps inside operations are finished, except those still open. */
  ghost predicate Links(p: seq<Item>, k: nat, tgt: Targets, open: set<nat>)
    requires k <= |p|
  {
    && (forall j <- tgt :: j < k && IsSite(p, InBody, j) && j !in open && tgt[j] == j + p[j].to.skip)
    && (forall j | 0 <= j < k && IsSite(p, InBody, j) :: j in open || j in tgt)
    && (forall j <- open :: j < k && IsSite(p, InBody, j))
  }

  /** One more item, not a local jump: nothing new to finish inside the operation. */
  lemma LinksStep(p: seq<Item>, k: nat, tgt: Targets, open: set<nat>)
    requires k < |p| && Links(p, k, tgt, open)
    ensures !IsSite(p, InBody, k) ==> Links(p, k + 1, tgt, open)
    ensures IsSite(p, InBody, k) ==> k !in open && Links(p, k + 1, tgt, open + {k})
    ensures k !in tgt
  {
  }

  /** One more item: its own table, if it has one, grows by one entry. */
  lemma TablesStep(p: seq<Item>, k: nat)
    requires k < |p|
    ensures var c := if IsJump(p[k]) then ClassOf(p[k].to) else InBody;
            && (forall d :: d != c && d != InBody ==> Holes(p, d, k + 1) == Holes(p, d, k))
            && (c != ToGuest ==> GuestTargets(p, k + 1) == GuestTargets(p, k))
            && (c != ToExit ==> ExitOffsets(p, k + 1) == ExitOffsets(p, k))
            && (c != InBody ==> Holes(p, c, k + 1) == Holes(p, c, k) + [Hole(p, k)])
            && (c == ToGuest ==> GuestTargets(p, k + 1) == GuestTargets(p, k) + [p[k].to.pc])
            && (c == ToExit ==> ExitOffsets(p, k + 1) == ExitOffsets(p, k) + [Off(p, k)])
  {
    hide Off;
  }

  lemma NumberedStep(p: seq<Item>, k: nat)
    requires k < |p| && Numbered(p, k)
    requires IsJump(p[k]) && p[k].to.Stub? ==> p[k].to.index == |Holes(p, ToStub(p[k].to.kind), k)|
    requires IsJump(p[k]) && p[k].to.Epilogue? ==> p[k].JmpTo?
    ensures Numbered(p, k + 1)
  {
    hide Sites, Holes;
  }

  /** The items p come next in the plan. */
  ghost predicate Stands(plan: seq<Item>, at: nat, p: seq<Item>)
  {
    at + |p| <= |plan| && forall j | at <= j < at + |p| :: plan[j] == p[j - at]
  }

  lemma StandsSplit(plan: seq<Item>, at: nat, a: seq<Item>, b: seq<Item>)
    requires Stands(plan, at, a + b)
    ensures Stands(plan, at, a) && Stands(plan, at + |a|, b)
  {
    forall j | at <= j < at + |a| ensures plan[j] == a[j - at] { assert (a + b)[j - at] == a[j - at]; }
    var mid := at + |a|;
    forall j | mid <= j < mid + |b| ensures plan[j] == b[j - mid] { assert (a + b)[j - at] == b[j - mid]; }
  }

  function JumpItem(c: Option<Cond>, l: Label): Item
  {
    if c.Some? then JccTo(c.value, l) else JmpTo(l)
  }

  /** What the tables hold, apart from offsets. */
  datatype Tables = Tables(branches: seq<u64>, exits: nat, readPcs: seq<u64>, writePcs: seq<u64>, timeoutPcs: seq<u64>)

  // ---------------------------------------------------------------- the generator

  class Jit {
    const e: Env
    const buf: CodeBuffer.Buffer
    const pcMap: array<u32>
    /** Room in each table: the number of IR operations. */
    const capacity: nat

    var trampolineOffset: nat
    var epilogueOffset: nat

    var branchHoles: seq<nat>
    var branchTargets: seq<u64>
    var exitJumps: seq<nat>
    var readHoles: seq<nat>
    var readPcs: seq<u64>
    var writeHoles: seq<nat>
    var writePcs: seq<u64>
    var timeoutHoles: seq<nat>
    var timeoutPcs: seq<u64>

    // The plan, how many of its items have been emitted, how many are known to fit, the
    // jumps finished so far, and the forward jumps of the current operation still open.
    ghost const plan: seq<Item>
    ghost var k: nat
    ghost var limit: nat
    ghost var tgt: Targets
    ghost var open: set<nat>

    ghost predicate TablesOk()
      requires k <= |plan|
      reads `k, `branchHoles, `branchTargets, `exitJumps, `readHoles, `readPcs, `writeHoles, `writePcs
      reads `timeoutHoles, `timeoutPcs
    {
      && branchHoles == Holes(plan, ToGuest, k) && branchTargets == GuestTargets(plan, k)
      && exitJumps == ExitOffsets(plan, k)
      && readHoles == Holes(plan, ToStub(Ir.Read), k) && |readPcs| == |readHoles|
      && writeHoles == Holes(plan, ToStub(Ir.Write), k) && |writePcs| == |writeHoles|
      && timeoutHoles == Holes(plan, ToStub(Ir.Timeout), k) && |timeoutPcs| == |timeoutHoles|
    }

    /** The buffer holds the first k items, and has room up to the limit. */
    ghost predicate Laid()
      reads `k, `limit, `tgt, buf, buf.data
    {
      && buf.Valid() && buf.data.Length < TWO31
      && k <= limit <= |plan| && Off(plan, limit) <= buf.data.Length
      && buf.all == Asm(plan, tgt, k)
    }

    /** While operations are being emitted. */
    ghost predicate Valid()
      reads this, buf, buf.data
    {
      && Laid()
      && Links(plan, k, tgt, open) && Numbered(plan, k)
      && TablesOk()
    }

    /** The items p come next, and they fit. */
    ghost predicate Next(p: seq<Item>)
      reads `k, `limit
    {
      k + |p| <= limit && Stands(plan, k, p)
    }

    ghost function Recorded(): Tables
      reads `branchTargets, `exitJumps, `readPcs, `writePcs, `timeoutPcs
    {
      Tables(branchTargets, |exitJumps|, readPcs, writePcs, timeoutPcs)
    }

    constructor (e: Env, codeCap: nat, pcMap: array<u32>, capacity: nat, ghost plan: seq<Item>)
      requires codeCap < TWO31
      ensures Valid() && fresh(buf) && fresh(buf.data) && buf.data.Length == codeCap && buf.size == 0
      ensures this.e == e && this.pcMap == pcMap && this.capacity == capacity && this.plan == plan
      ensures k == limit == 0 && open == {} && Recorded() == Tables([], 0, [], [], [])
    {
      this.e, this.pcMap, this.capacity, this.plan := e, pcMap, capacity, plan;
      this.buf := new CodeBuffer.Buffer(codeCap);
      trampolineOffset, epilogueOffset := 0, 0;
      branchHoles, branchTargets, exitJumps := [], [], [];
      readHoles, readPcs, writeHoles, writePcs, timeoutHoles, timeoutPcs := [], [], [], [], [], [];
      k, limit, tgt, open := 0, 0, map[], {};
    }

    /** Nothing has been dropped. */
    lemma NoOverflow()
      requires Laid()
      ensures buf.size == |buf.all| == Off(plan, k)
    {
      hide Asm, Off;
      AsmLength(plan, tgt, k);
      OffMonotone(plan, k, limit);
    }

    /** Open jumps have been emitted. */
    lemma OpenBelow()
      requires Valid()
      ensures forall j <- open :: j < k
    {
      hide Asm, Off, Holes, GuestTargets, ExitOffsets, Numbered, TablesOk;
    }

    /** Each fault table has as many addresses as holes. */
    lemma TableSizes()
      requires Valid()
      ensures limit <= |plan|
      ensures |branchHoles| == |branchTargets| && |readHoles| == |readPcs| && |writeHoles| == |writePcs| && |timeoutHoles| == |timeoutPcs|
    {
      hide Asm, Off, Holes, GuestTargets, ExitOffsets, Numbered, Links;
    }

    ghost method Allow(n: nat)
      requires Valid() && k <= n <= |plan| && Off(plan, n) <= buf.data.Length
      modifies `limit
      ensures Valid() && limit == n
    {
      hide Asm, Off, Holes, GuestTargets, ExitOffsets, Links, Numbered;
      limit := n;
    }

    /** Appends one instruction that is not a jump, while nothing more is recorded. */
    method AppendFinal(ins: Instr)
      requires Laid() && k < limit && plan[k] == Op(ins) && k !in tgt && !(ins.Setcc? && ins.byteDst.High?)
      modifies `k, buf, buf.data
      ensures Laid() && k == old(k) + 1
    {
      hide Encode, Off, Hole;
      buf.Emit(ins);
      k := k + 1;
    }

    /** What the next item changes in the tables. */
    lemma Account()
      requires Valid() && k < limit
      requires IsJump(plan[k]) && plan[k].to.Stub? ==> plan[k].to.index == |Holes(plan, ToStub(plan[k].to.kind), k)|
      requires IsJump(plan[k]) && plan[k].to.Epilogue? ==> plan[k].JmpTo?
      ensures Numbered(plan, k + 1) && k !in tgt
      ensures !IsSite(plan, InBody, k) ==> Links(plan, k + 1, tgt, open)
      ensures IsSite(plan, InBody, k) ==> k !in open && Links(plan, k + 1, tgt, open + {k})
      ensures var c := if IsJump(plan[k]) then ClassOf(plan[k].to) else InBody;
              && (c != ToGuest ==> Holes(plan, ToGuest, k + 1) == Holes(plan, ToGuest, k)
                                   && GuestTargets(plan, k + 1) == GuestTargets(plan, k))
              && (c != ToExit ==> ExitOffsets(plan, k + 1) == ExitOffsets(plan, k))
              && (forall s: Ir.FaultKind :: c != ToStub(s) ==> Holes(plan, ToStub(s), k + 1) == Holes(plan, ToStub(s), k))
              && (c != InBody ==> Holes(plan, c, k + 1) == Holes(plan, c, k) + [Hole(plan, k)])
              && (c == ToGuest ==> GuestTargets(plan, k + 1) == GuestTargets(plan, k) + [plan[k].to.pc])
              && (c == ToExit ==> ExitOffsets(plan, k + 1) == ExitOffsets(plan, k) + [Off(plan, k)])
    {
      hide Off, Hole, Holes, GuestTargets, ExitOffsets, Asm, Numbered, Links, Sites;
      TablesStep(plan, k);
      LinksStep(plan, k, tgt, open);
      NumberedStep(plan, k);
    }

    /** Appends one instruction that is not a jump. */
    method Emit(ins: Instr)
      requires Valid() && k < limit && plan[k] == Op(ins) && !(ins.Setcc? && ins.byteDst.High?)
      modifies `k, buf, buf.data
      ensures Valid() && k == old(k) + 1
    {
      hide Encode, Off, Hole, Holes, ExitOffsets, GuestTargets, Numbered, Links;
      Account();
      AppendFinal(ins);
    }

    /** Appends a jump with a zero displacement; its own table still misses it. */
    method EmitUnfinished(c: Option<Cond>, ghost l: Label)
      requires Valid() && k < limit && plan[k] == JumpItem(c, l)
      modifies buf, buf.data
      ensures buf.Valid() && buf.all == Asm(plan, tgt, k + 1) && plan[k] == JumpItem(c, l)
      ensures buf.size == Off(plan, k + 1) == Hole(plan, k) + 4
    {
      hide Encode, Off, Hole, Holes, ExitOffsets, GuestTargets, Numbered;
      if c.Some? {
        buf.EmitJcc(c.value, 0);
      } else {
        buf.EmitJmp(0);
      }
      HoleEnd(plan, k);
      AsmLength(plan, tgt, k + 1);
      OffMonotone(plan, k + 1, limit);
    }

    /** A forward jump inside the operation; its displacement is filled in by PatchHere. */
    method EmitForward(c: Option<Cond>, ghost skip: nat) returns (hole: nat)
      requires Valid() && k < limit && plan[k] == JumpItem(c, Local(skip))
      modifies `k, `open, buf, buf.data
      ensures Valid() && k == old(k) + 1 && open == old(open) + {old(k)} && old(k) !in old(open)
      ensures IsJump(plan[old(k)]) && hole == Hole(plan, old(k))
    {
      hide Encode, Off, Hole, Asm, Holes, ExitOffsets, GuestTargets, Numbered, Links;
      Account();
      EmitUnfinished(c, Local(skip));
      k, open := k + 1, open + {k};
      hole := buf.size - 4;
    }

    /** Writes the displacement of jump j, which goes to item t at offset target. */
    method PatchRel32(hole: nat, target: nat, ghost j: nat, ghost t: nat)
      requires Laid() && j < k && IsJump(plan[j]) && j !in tgt && hole == Hole(plan, j)
      requires t <= |plan| && target == Off(plan, t)
      modifies `tgt, buf.data, buf`all
      ensures Laid() && tgt == old(tgt)[j := t] && buf.size == old(buf.size)
    {
      hide Asm, Off, Hole, Le;
      NoOverflow();
      AsmPatch(plan, tgt, j, t, k);
      PatchBytesAre(plan, j, t);
      buf.Patch32(hole, W32(target - (hole + 4)));
      tgt := tgt[j := t];
    }

    /** Fills in the displacement of an open forward jump. */
    method PatchLocal(hole: nat, target: nat, ghost j: nat)
      requires Valid() && j in open && j < |plan| && IsJump(plan[j]) && plan[j].to.Local?
      requires hole == Hole(plan, j) && j + plan[j].to.skip <= k && target == Off(plan, j + plan[j].to.skip)
      modifies `tgt, `open, buf.data, buf`all
      ensures Valid() && open == old(open) - {j}
    {
      hide Asm, Off, Hole, Holes, ExitOffsets, GuestTargets, Numbered, TablesOk;
      PatchRel32(hole, target, j, j + plan[j].to.skip);
      open := open - {j};
    }

    /** Makes an open forward jump land on the next instruction. */
    method PatchHere(hole: nat, ghost j: nat)
      requires Valid() && j in open && j < |plan| && IsJump(plan[j]) && plan[j].to.Local?
      requires hole == Hole(plan, j) && j + plan[j].to.skip == k
      modifies `tgt, `open, buf.data, buf`all
      ensures Valid() && open == old(open) - {j}
    {
      hide Off, Hole, Asm, Links, TablesOk, Numbered;
      NoOverflow();
      PatchLocal(hole, buf.size, j);
    }

    // ---------------------------------------------------------------- jumps finished later

    /** A jump to a guest address, recorded with the offset of its displacement. */
    method EmitBranchTo(c: Option<Cond>, target: u64)
      requires Valid() && k < limit && plan[k] == JumpItem(c, GuestPc(target)) && |branchHoles| < capacity
      modifies `k, `branchHoles, `branchTargets, buf, buf.data
      ensures Valid() && k == old(k) + 1
      ensures Recorded() == old(Recorded()).(branches := old(branchTargets) + [target])
    {
      hide Encode, Off, Hole, Asm, Holes, ExitOffsets, GuestTargets, Numbered, Links;
      NoOverflow();
      Account();
      var hole := buf.size + (if c.Some? then 2 else 1);
      assert hole == Hole(plan, k) by { HoleOf(plan, k); }
      EmitUnfinished(c, GuestPc(target));
      k := k + 1;
      branchHoles := branchHoles + [hole];
      branchTargets := branchTargets + [target];
    }

    /** A jump to the epilogue: the offset of its opcode is recorded. */
    method EmitExitJump()
      requires Valid() && k < limit && plan[k] == JmpTo(Epilogue) && |exitJumps| < capacity
      modifies `k, `exitJumps, buf, buf.data
      ensures Valid() && k == old(k) + 1
      ensures Recorded() == old(Recorded()).(exits := old(|exitJumps|) + 1)
    {
      hide Encode, Off, Hole, Asm, Holes, ExitOffsets, GuestTargets, Numbered, Links;
      NoOverflow();
      Account();
      var at := buf.size;
      HoleOf(plan, k);
      EmitUnfinished(None, Epilogue);
      k := k + 1;
      exitJumps := exitJumps + [at];
    }

    /** The jump of a failed bounds check on a load. */
    method EmitReadFaultJump(pc: u64)
      requires Valid() && k < limit && plan[k] == JmpTo(Stub(Ir.Read, |readHoles|)) && |readHoles| < capacity
      modifies `k, `readHoles, `readPcs, buf, buf.data
      ensures Valid() && k == old(k) + 1
      ensures Recorded() == old(Recorded()).(readPcs := old(readPcs) + [pc])
    {
      hide Encode, Off, Hole, Asm, Holes, ExitOffsets, GuestTargets, Numbered, Links;
      NoOverflow();
      Account();
      var at := buf.size;
      HoleOf(plan, k);
      EmitUnfinished(None, Stub(Ir.Read, |readHoles|));
      k := k + 1;
      readHoles := readHoles + [at + 1];
      readPcs := readPcs + [pc];
    }

    /** The jump of a failed bounds check on a store. */
    method EmitWriteFaultJump(pc: u64)
      requires Valid() && k < limit && plan[k] == JmpTo(Stub(Ir.Write, |writeHoles|)) && |writeHoles| < capacity
      modifies `k, `writeHoles, `writePcs, buf, buf.data
      ensures Valid() && k == old(k) + 1
      ensures Recorded() == old(Recorded()).(writePcs := old(writePcs) + [pc])
    {
      hide Encode, Off, Hole, Asm, Holes, ExitOffsets, GuestTargets, Numbered, Links;
      NoOverflow();
      Account();
      var at := buf.size;
      HoleOf(plan, k);
      EmitUnfinished(None, Stub(Ir.Write, |writeHoles|));
      k := k + 1;
      writeHoles := writeHoles + [at + 1];
      writePcs := writePcs + [pc];
    }

    /** The conditional jump of a fuel check to its timeout stub. */
    method EmitTimeoutJump(pc: u64)
      requires Valid() && k < limit && plan[k] == JccTo(LE, Stub(Ir.Timeout, |timeoutHoles|)) && |timeoutHoles| < capacity
      modifies `k, `timeoutHoles, `timeoutPcs, buf, buf.data
      ensures Valid() && k == old(k) + 1
      ensures Recorded() == old(Recorded()).(timeoutPcs := old(timeoutPcs) + [pc])
    {
      hide Encode, Off, Hole, Asm, Holes, ExitOffsets, GuestTargets, Numbered, Links;
      Account();
      EmitUnfinished(Some(LE), Stub(Ir.Timeout, |timeoutHoles|));
      k := k + 1;
      timeoutHoles := timeoutHoles + [buf.size - 4];
      timeoutPcs := timeoutPcs + [pc];
    }
  }

  lemma HoleOf(items: seq<Item>, j: nat)
    requires j < |items| && IsJump(items[j])
    ensures Hole(items, j) == Off(items, j) + (if items[j].JmpTo? then 1 else 2)
  {
    hide Off;
  }

  lemma PatchBytesAre(items: seq<Item>, j: nat, t: nat)
    requires j < |items| && IsJump(items[j]) && t <= |items|
    ensures PatchBytes(items, j, t) == Le(W32(Off(items, t) - (Hole(items, j) + 4)), 4)
  {
    hide Off, Hole, Le, W32;
  }
}
