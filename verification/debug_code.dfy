/** Compiled code with breakpoints in it is loaded code, in the sense of the run theorems. */
module DebugCode {
  import opened Words
  import opened X86
  import opened Snippet
  import opened Lowering
  import opened X86Encoding
  import opened Assembler
  import opened Execution
  import opened Reference
  import opened Program
  import opened LoweringShape
  import opened Simulation
  import Sizes
  import opened Breakpoints
  import CodeGen
  import Dispatcher
  import Ir

  // ---------------------------------------------------------------- sites

  /** The code of every operation starts with a ten-byte move. */
  lemma RoomForJump(e: Env, irs: seq<Ir.Instr>, i: nat)
    requires Compilable(e, irs) && i < |irs|
    ensures CodeAt(e, irs, i) + 5 <= CodeAt(e, irs, i + 1)
  {
    hide Items, Start, Off, Size, Body, Count, Ir.Discarded;
    BodySlice(e, irs, i);
    StartBound(e, irs, i + 1);
    var p, s := Items(e, irs), Start(e, irs, i);
    assert p[s] == p[s..Start(e, irs, i + 1)][0] == LowerAt(e, irs, i)[0] == Op(MovImm(RAX, 0));
    OffNext(p, s);
    Sizes.RegisterSizes(MOV, true, RAX, RAX, 0);
    OffMonotone(p, s + 1, Start(e, irs, i + 1));
  }

  lemma OffNext(p: seq<Item>, i: nat)
    requires i < |p|
    ensures Off(p, i + 1) == Off(p, i) + Size(p[i])
  {
    hide Size;
  }

  /** Different operations start a jump apart. */
  lemma OpsApart(e: Env, irs: seq<Ir.Instr>, i: nat, j: nat)
    requires Compilable(e, irs) && i < j <= |irs|
    ensures CodeAt(e, irs, i) + 5 <= CodeAt(e, irs, j)
  {
    hide CodeAt;
    RoomForJump(e, irs, i);
    CodeGen.CodeAtMonotone(e, irs, i + 1, j);
  }

  lemma CodeInImage(e: Env, irs: seq<Ir.Instr>, i: nat)
    requires Compilable(e, irs) && i <= |irs|
    ensures Off(Items(e, irs), 13) <= CodeAt(e, irs, i) <= CodeAt(e, irs, |irs|) <= |Image(e, irs)|
  {
    hide Items, AllTargets, Off, Start, Asm;
    StartBound(e, irs, i);
    StartBehind(e, irs, i);
    CodeGen.CodeAtMonotone(e, irs, i, |irs|);
    StartBound(e, irs, |irs|);
    AsmLength(Items(e, irs), AllTargets(e, irs), |Items(e, irs)|);
    OffMonotone(Items(e, irs), 13, Start(e, irs, i));
    OffMonotone(Items(e, irs), Start(e, irs, |irs|), |Items(e, irs)|);
  }

  /** The map that compiling leaves has its sites apart. */
  lemma CompiledMapApart(e: Env, irs: seq<Ir.Instr>, pcMap: seq<u32>)
    requires Compilable(e, irs) && Dispatcher.MapOk(e, irs, pcMap)
    ensures MapApart(pcMap, |Image(e, irs)|)
  {
    hide Compilable, CodeAt, Image, FirstAt, Dispatcher.MapOk;
    forall a | 0 <= a < |pcMap| && pcMap[a] != 0 ensures JumpFits(pcMap[a], |Image(e, irs)|) {
      var i := Mapped(e, irs, pcMap, a);
      RoomForJump(e, irs, i);
      CodeInImage(e, irs, i + 1);
    }
    forall a, b | 0 <= a < b < |pcMap| && pcMap[a] != 0 && pcMap[b] != 0
      ensures JumpFits(pcMap[a], pcMap[b]) || JumpFits(pcMap[b], pcMap[a]) {
      var i := Mapped(e, irs, pcMap, a);
      var j := Mapped(e, irs, pcMap, b);
      if i < j { OpsApart(e, irs, i, j); } else { OpsApart(e, irs, j, i); }
    }
  }

  /** A nonzero entry of the map is the code of the operation it was made for. */
  lemma Mapped(e: Env, irs: seq<Ir.Instr>, pcMap: seq<u32>, a: nat) returns (i: nat)
    requires Compilable(e, irs) && Dispatcher.MapOk(e, irs, pcMap) && a < |pcMap| && pcMap[a] != 0
    ensures i < |irs| && irs[i].pc == e.sp.textAddr + a && pcMap[a] == CodeAt(e, irs, i)
  {
    hide Compilable, CodeAt, FirstAt;
    i := FirstAt(irs, e.sp.textAddr + a, 0);
  }

  // ---------------------------------------------------------------- untouched ranges

  lemma RangeKept(mem: seq<u8>, code: seq<u8>, bps: seq<Breakpoint>, armed: set<nat>, base: nat, lo: nat, hi: nat)
    requires Overlay(mem, code, bps, armed, base) && lo <= hi <= |code|
    requires forall i <- armed :: bps[i].hostOff + 5 <= lo || hi <= bps[i].hostOff
    ensures mem[lo..hi] == code[lo..hi]
  {
    hide SiteJump;
    forall x: nat | lo <= x < hi ensures mem[x] == code[x] {
      forall i <- armed ensures !Covers(bps[i], x) { }
      assert Untouched(bps, armed, x);
    }
  }

  /** The same bytes are the same instructions. */
  lemma InstalledCopy(mem: seq<u8>, code: seq<u8>, items: seq<Item>, tgt: Targets, lo: nat, hi: nat)
    requires lo <= hi <= |items| && Installed(code, items, tgt, lo, hi)
    requires Off(items, lo) <= Off(items, hi) <= |code| <= |mem|
    requires mem[Off(items, lo)..Off(items, hi)] == code[Off(items, lo)..Off(items, hi)]
    ensures Installed(mem, items, tgt, lo, hi)
  {
    hide Off, GoodItem, PlacedAt;
    forall j | lo <= j < hi ensures PlacedAt(mem, items, tgt, j) {
      PlacedCopy(mem, code, items, tgt, lo, hi, j);
    }
  }

  lemma PlacedCopy(mem: seq<u8>, code: seq<u8>, items: seq<Item>, tgt: Targets, lo: nat, hi: nat, j: nat)
    requires lo <= j < hi <= |items| && PlacedAt(code, items, tgt, j)
    requires Off(items, lo) <= Off(items, hi) <= |code| <= |mem|
    requires mem[Off(items, lo)..Off(items, hi)] == code[Off(items, lo)..Off(items, hi)]
    ensures PlacedAt(mem, items, tgt, j)
  {
    hide Off, InstrAt, Encode;
    OffMonotone(items, lo, j);
    OffMonotone(items, j, j + 1);
    OffMonotone(items, j + 1, hi);
    var a, z := Off(items, lo), Off(items, hi);
    SliceOfSlice(mem, a, mem[a..z], Off(items, j) - a, Off(items, j + 1) - a);
    SliceOfSlice(code, a, code[a..z], Off(items, j) - a, Off(items, j + 1) - a);
  }

  // ---------------------------------------------------------------- a patcher over compiled code

  /** The guest addresses whose breakpoints are armed. */
  ghost function ArmedPcs(bps: seq<Breakpoint>, temp: int): set<u64>
  {
    set i <- Armed(bps, temp) :: bps[i].pc
  }

  /** The patcher works on the compiled program. */
  ghost predicate Over(p: Patcher, e: Env, irs: seq<Ir.Instr>)
    reads p, p.exec
  {
    && EnvOk(e) && Compilable(e, irs) && StreamOk(e.sp, irs) && DirectTargetsOk(e.sp, irs) && CodeBytes(e, irs) < TWO31
    && p.Valid() && p.code == Image(e, irs) && p.epilogueOffset == CodeAt(e, irs, |irs|)
    && p.textAddr == e.sp.textAddr && Dispatcher.MapOk(e, irs, p.pcMap)
  }

  /** An armed entry sits on the first operation translated from its address. */
  lemma ArmedSite(p: Patcher, e: Env, irs: seq<Ir.Instr>, i: nat) returns (k: nat)
    requires Over(p, e, irs) && i in Armed(p.bps, p.temp)
    ensures k == FirstAt(irs, p.bps[i].pc, 0) < |irs| && p.bps[i].hostOff == CodeAt(e, irs, k) && p.bps[i].used
    ensures Hits(irs, ArmedPcs(p.bps, p.temp), k)
  {
    hide StreamOk, DirectTargetsOk, Compilable, EnvOk, Overlay, p.StubsFor, MapApart, CodeAt, Image, CodeBytes, FirstAt;
    var b := p.bps[i];
    assert EntryOk(b, p.textAddr, p.pcMap, p.code);
    k := FirstAt(irs, b.pc, 0);
    Dispatcher.FirstIsGroup(e.sp, irs, b.pc);
    assert b.pc in ArmedPcs(p.bps, p.temp);
  }

  /** A range of operations without an armed one keeps its bytes. */
  lemma OpsKept(p: Patcher, e: Env, irs: seq<Ir.Instr>, lo: nat, hi: nat, from: nat, to: nat)
    requires Over(p, e, irs) && from <= to <= |p.code|
    requires forall k | 0 <= k < |irs| && Hits(irs, ArmedPcs(p.bps, p.temp), k) ::
               CodeAt(e, irs, k) + 5 <= from || to <= CodeAt(e, irs, k)
    ensures p.exec[..][from..to] == p.code[from..to]
  {
    hide StreamOk, DirectTargetsOk, Compilable, EnvOk, MapApart, CodeAt, Image, CodeBytes, FirstAt, Dispatcher.MapOk, Hits, Overlay;
    forall i <- Armed(p.bps, p.temp) ensures p.bps[i].hostOff + 5 <= from || to <= p.bps[i].hostOff {
      var k := ArmedSite(p, e, irs, i);
    }
    RangeKept(p.exec[..], p.code, p.bps, Armed(p.bps, p.temp), p.Base(), from, to);
  }

  lemma FrameKept(p: Patcher, e: Env, irs: seq<Ir.Instr>)
    requires Over(p, e, irs)
    ensures FrameInstalled(e, irs, p.exec[..])
  {
    hide StreamOk, DirectTargetsOk, Compilable, EnvOk, MapApart, CodeAt, Image, CodeBytes, FirstAt, Dispatcher.MapOk, Hits, Overlay;
    hide Items, AllTargets, TargetsIn, Whole, Installed, Off, Start, Patched, p.Sound;
    var items, tgt := Items(e, irs), AllTargets(e, irs);
    ImageFacts(p, e, irs);
    forall k | 0 <= k < |irs| ensures Off(items, 13) <= CodeAt(e, irs, k) && CodeAt(e, irs, k) + 5 <= CodeAt(e, irs, |irs|) {
      CodeInImage(e, irs, k);
      OpsApart(e, irs, k, |irs|);
    }
    OpsKept(p, e, irs, 0, 0, 0, Off(items, 13));
    InstalledCopy(p.exec[..], p.code, items, tgt, 0, 13);
    OpsKept(p, e, irs, 0, 0, CodeAt(e, irs, |irs|), Off(items, |items|));
    OffEpi(e, irs);
    InstalledCopy(p.exec[..], p.code, items, tgt, Epi(e, irs), |items|);
  }

  /** What the compiled image has. */
  lemma ImageFacts(p: Patcher, e: Env, irs: seq<Ir.Instr>)
    requires Over(p, e, irs)
    ensures |p.code| == CodeBytes(e, irs) == Off(Items(e, irs), |Items(e, irs)|) <= p.exec.Length
    ensures Loaded(e, irs, p.code, {}) && FrameInstalled(e, irs, p.code) && |Items(e, irs)| >= Epi(e, irs) >= 13
    ensures Off(Items(e, irs), 0) == 0 && Off(Items(e, irs), 13) <= |p.code| && CodeAt(e, irs, |irs|) <= |p.code|
    ensures TargetsIn(e, irs, |p.code|) == TargetsIn(e, irs, p.exec.Length) == AllTargets(e, irs)
    ensures Whole(e, irs, |p.code|) == Whole(e, irs, p.exec.Length) == |Items(e, irs)|
  {
    hide StreamOk, DirectTargetsOk, EnvOk, MapApart, FirstAt, Dispatcher.MapOk, Overlay, EntriesOk;
    hide Items, AllTargets, TargetsIn, Whole, Installed, Off, Start, Patched, OpInstalled, Asm, p.StubsFor;
    AsmLength(Items(e, irs), AllTargets(e, irs), |Items(e, irs)|);
    FullTargets(e, irs, CodeBytes(e, irs));
    FullTargets(e, irs, p.exec.Length);
    ImageLoaded(e, irs);
    StartBehind(e, irs, |irs|);
    CodeInImage(e, irs, |irs|);
    OffZero(Items(e, irs));
  }

  lemma CodeFits(p: Patcher, e: Env, irs: seq<Ir.Instr>)
    requires Over(p, e, irs)
    ensures Compilable(e, irs) && CodeBytes(e, irs) <= p.exec.Length
  {
    hide Over, Items, Off, Loaded, FrameInstalled, Compilable, TargetsIn, Whole, AllTargets, CodeBytes;
    OverShape(p, e, irs);
    ImageFacts(p, e, irs);
  }

  lemma CompiledLoaded(p: Patcher, e: Env, irs: seq<Ir.Instr>)
    requires Over(p, e, irs)
    ensures Loaded(e, irs, p.code, {}) && |p.code| <= p.exec.Length
  {
    hide Over, Items, Off, Loaded, FrameInstalled, Compilable, TargetsIn, Whole, AllTargets, CodeBytes;
    OverShape(p, e, irs);
    ImageFacts(p, e, irs);
  }

  lemma OverShape(p: Patcher, e: Env, irs: seq<Ir.Instr>)
    requires Over(p, e, irs)
    ensures Compilable(e, irs)
  {
    hide Compilable;
  }

  lemma OpKept(p: Patcher, e: Env, irs: seq<Ir.Instr>, i: nat)
    requires Over(p, e, irs) && i < |irs| && !Hits(irs, ArmedPcs(p.bps, p.temp), i)
    ensures OpInstalled(e, irs, p.exec[..], i)
  {
    hide StreamOk, DirectTargetsOk, Compilable, EnvOk, MapApart, Image, CodeBytes, FirstAt, Dispatcher.MapOk, Hits, Overlay;
    hide Items, AllTargets, TargetsIn, Whole, Installed, Off, Start, Patched, p.Sound, FrameInstalled;
    ImageFacts(p, e, irs);
    BodySlice(e, irs, i);
    NothingHits(irs, i);
    assert OpInstalled(e, irs, p.code, i);
    CodeInImage(e, irs, i);
    CodeInImage(e, irs, i + 1);
    OffMonotone(Items(e, irs), Start(e, irs, i), Start(e, irs, i + 1));
    forall k | 0 <= k < |irs| && Hits(irs, ArmedPcs(p.bps, p.temp), k)
      ensures CodeAt(e, irs, k) + 5 <= CodeAt(e, irs, i) || CodeAt(e, irs, i + 1) <= CodeAt(e, irs, k) {
      if k < i { OpsApart(e, irs, k, i); } else { CodeGen.CodeAtMonotone(e, irs, i + 1, k); }
    }
    OpsKept(p, e, irs, i, i + 1, CodeAt(e, irs, i), CodeAt(e, irs, i + 1));
    InstalledCopy(p.exec[..], p.code, Items(e, irs), AllTargets(e, irs), Start(e, irs, i), Start(e, irs, i + 1));
  }

  lemma NothingHits(irs: seq<Ir.Instr>, i: nat)
    requires i < |irs|
    ensures !Hits(irs, {}, i)
  {
  }

  /** The entry that arms an operation. */
  lemma HitEntry(p: Patcher, e: Env, irs: seq<Ir.Instr>, i: nat) returns (j: nat)
    requires Over(p, e, irs) && i < |irs| && Hits(irs, ArmedPcs(p.bps, p.temp), i)
    ensures j in Armed(p.bps, p.temp) && p.bps[j].used && p.bps[j].pc == irs[i].pc && p.bps[j].hostOff == CodeAt(e, irs, i)
  {
    hide Compilable, EnvOk, MapApart, Image, CodeBytes, FirstAt, Dispatcher.MapOk, CodeAt, DirectTargetsOk, EntriesOk, StreamOk;
    hide Overlay, p.Sound, GroupStart;
    j :| j in Armed(p.bps, p.temp) && p.bps[j].pc == irs[i].pc;
    var k := ArmedSite(p, e, irs, j);
    StreamInstrOk(e.sp, irs, i);
    CodeGen.StreamAt(e.sp, irs, i);
  }

  lemma HitPatched(p: Patcher, e: Env, irs: seq<Ir.Instr>, i: nat)
    requires Over(p, e, irs) && i < |irs| && Hits(irs, ArmedPcs(p.bps, p.temp), i)
    ensures Patched(p.exec[..], CodeAt(e, irs, i), irs[i].pc, CodeAt(e, irs, |irs|))
  {
    hide Compilable, EnvOk, MapApart, Image, CodeBytes, FirstAt, Dispatcher.MapOk, CodeAt, DirectTargetsOk, EntriesOk, StreamOk;
    hide Encode, Breakpoints.StubBytes, StubImage, Hits, Untouched, Le, SlotsOk;
    var j := HitEntry(p, e, irs, i);
    var b := p.bps[j];
    assert p.StubAt(p.exec[..], b);
    var stub := p.Base() + b.stubOff;
    var rel: i32 := stub - (b.hostOff + 5);
    var back: i32 := p.epilogueOffset - (stub + STUB_BYTES);
    JmpPart(rel);
    StubMatches(b.pc, back);
    assert PatchedVia(p.exec[..], b.hostOff, b.pc, p.epilogueOffset, stub, back);
  }

  lemma StubMatches(pc: u64, back: i32)
    ensures Breakpoints.StubBytes(pc, W32(back)) == StubImage(pc, back)
  {
    hide Encode, Breakpoints.StubBytes;
    StubIsCode(pc, back);
  }

  /** Whatever breakpoints are set, the code in memory is the compiled program with a working trap
      at each armed address. */
  lemma OverlayLoaded(p: Patcher, e: Env, irs: seq<Ir.Instr>)
    requires Over(p, e, irs)
    ensures Loaded(e, irs, p.exec[..], ArmedPcs(p.bps, p.temp))
  {
    hide Compilable, EnvOk, MapApart, Image, CodeBytes, FirstAt, Dispatcher.MapOk, CodeAt, DirectTargetsOk, StreamOk, p.Sound;
    hide Hits, Patched, OpInstalled, FrameInstalled;
    FrameKept(p, e, irs);
    forall i | 0 <= i < |irs| ensures
        if Hits(irs, ArmedPcs(p.bps, p.temp), i) then Patched(p.exec[..], CodeAt(e, irs, i), irs[i].pc, CodeAt(e, irs, |irs|))
        else OpInstalled(e, irs, p.exec[..], i) {
      if Hits(irs, ArmedPcs(p.bps, p.temp), i) { HitPatched(p, e, irs, i); } else { OpKept(p, e, irs, i); }
    }
  }
}
