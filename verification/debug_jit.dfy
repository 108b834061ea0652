/** Loading a program, attaching a debugger and calling a function, from the bytes of the text to the
    end of the session. */
module DebugJit {
  import opened Words
  import opened X86
  import opened LoweringOps
  import opened Assembler
  import opened Reference
  import opened Program
  import opened Translate
  import opened Isa
  import opened Simulation
  import opened Room
  import opened Jit
  import opened Breakpoints
  import opened DebugCode
  import opened DebugSpec
  import opened DebugLoop
  import opened Debug
  import opened DebugRun
  import CodeGen
  import Dispatcher
  import Emitter
  import LoweringShape
  import Ir

  /** A patcher over code that was compiled without being cut off, into a map that was zero. */
  method Attach(jit: Emitter.Jit, ghost irs: seq<Ir.Instr>) returns (p: Patcher)
    requires EnvOk(jit.e) && Compilable(jit.e, irs) && StreamOk(jit.e.sp, irs) && DirectTargetsOk(jit.e.sp, irs)
    requires CodeBytes(jit.e, irs) < TWO31 && jit.buf.size == CodeBytes(jit.e, irs) <= jit.buf.data.Length
    requires jit.buf.data[..jit.buf.size] == Image(jit.e, irs) && jit.epilogueOffset == LoweringShape.CodeAt(jit.e, irs, |irs|)
    requires Dispatcher.MapOk(jit.e, irs, jit.pcMap[..])
    ensures Over(p, jit.e, irs) && fresh(p) && p.exec == jit.buf.data && p.codeSize == jit.buf.size
    ensures p.bps == [] && p.stubUsed == 0 && p.temp == -1 && p.pcMap == jit.pcMap[..]
    ensures p.epilogueOffset == jit.epilogueOffset && p.textAddr == jit.e.sp.textAddr
  {
    hide EnvOk, Compilable, StreamOk, DirectTargetsOk, Image, LoweringShape.CodeAt, Dispatcher.MapOk;
    CompiledMapApart(jit.e, irs, jit.pcMap[..]);
    ImageLength(jit.e, irs);
    p := new Patcher(jit.buf.data, jit.buf.size, jit.epilogueOffset, jit.e.sp.textAddr, jit.pcMap[..]);
  }

  lemma ImageLength(e: Env, irs: seq<Ir.Instr>)
    requires Compilable(e, irs)
    ensures |Image(e, irs)| == CodeBytes(e, irs)
  {
    hide Items, AllTargets, Off, Asm;
    AsmLength(Items(e, irs), AllTargets(e, irs), |Items(e, irs)|);
  }

  /** Where things are after loading: the stub area is the end of the mapping, if that is free. */
  ghost function LoadedLayout(e: Env, irs: seq<Ir.Instr>, pcMap: seq<u32>): Layout
    requires Compilable(e, irs)
  {
    var size := ExecSize(|e.sp.text|);
    Layout(e.sp.textAddr, pcMap, LoweringShape.CodeAt(e, irs, |irs|), size - STUB_RESERVE, CodeBytes(e, irs) + STUB_RESERVE <= size)
  }

  lemma HasCodeIff(e: Env, irs: seq<Ir.Instr>, pcMap: seq<u32>, pc: u64)
    requires Compilable(e, irs) && StreamOk(e.sp, irs) && DirectTargetsOk(e.sp, irs) && EnvOk(e) && CodeBytes(e, irs) < TWO31 && Dispatcher.MapOk(e, irs, pcMap)
    ensures HasCode(LoadedLayout(e, irs, pcMap), pc) <==> InText(e.sp, pc) && Translated(irs, pc)
  {
    hide EnvOk, Compilable, StreamOk, DirectTargetsOk, LoweringShape.CodeAt, CodeBytes, FirstAt, Dispatcher.MapOk, Loaded, Image, ExecSize;
    ImageLoaded(e, irs);
    Dispatcher.MapLooksUp(e, irs, Image(e, irs), pcMap, pc);
  }

  lemma EpilogueInside(e: Env, irs: seq<Ir.Instr>)
    requires Compilable(e, irs) && StreamOk(e.sp, irs) && DirectTargetsOk(e.sp, irs) && EnvOk(e) && CodeBytes(e, irs) < TWO31
    ensures LoweringShape.CodeAt(e, irs, |irs|) <= CodeBytes(e, irs) == |Image(e, irs)|
  {
    hide EnvOk, Compilable, StreamOk, DirectTargetsOk, LoweringShape.CodeAt, CodeBytes, Loaded, Image;
    ImageLoaded(e, irs);
    ImageLength(e, irs);
    Dispatcher.CodeInside(e, irs, Image(e, irs), |irs|);
  }

  /** Where a text is loaded with room for the stubs, the first 64 commands of a session set exactly the
      breakpoints they ask for: there is code exactly at translated addresses. */
  lemma LoadedRoomy(e: Env, irs: seq<Ir.Instr>, pcMap: seq<u32>)
    requires Compilable(e, irs) && StreamOk(e.sp, irs) && DirectTargetsOk(e.sp, irs) && EnvOk(e) && Dispatcher.MapOk(e, irs, pcMap)
    requires CodeBytes(e, irs) + STUB_RESERVE <= ExecSize(|e.sp.text|) < TWO31
    ensures Roomy(LoadedLayout(e, irs, pcMap))
    ensures forall pc: u64 :: HasCode(LoadedLayout(e, irs, pcMap), pc) <==> InText(e.sp, pc) && Translated(irs, pc)
  {
    hide EnvOk, Compilable, StreamOk, DirectTargetsOk, LoweringShape.CodeAt, CodeBytes, Translated, Dispatcher.MapOk, Image, ExecSize, HasCode, InText;
    CompiledMapApart(e, irs, pcMap);
    EpilogueInside(e, irs);
    forall pc: u64 ensures HasCode(LoadedLayout(e, irs, pcMap), pc) <==> InText(e.sp, pc) && Translated(irs, pc) {
      HasCodeIff(e, irs, pcMap, pc);
    }
  }

  /** A call before its first stop. */
  function Started(sp: Ir.Space, entry: u64, argv: seq<u64>, h: Host): (d: Debuggee)
    requires sp.stackSize < TWO63 && |h.stack| == sp.stackSize && |h.data| == sp.dataSize
    ensures GuestFits(sp, d.g)
  {
    Debuggee(entry, StartGuest(sp, argv, h), Dispatcher.INITIAL_FUEL, Table([], 0), None, false)
  }

  /** What a call under the debugger comes to: status, guest, fuel and the registers of the host. */
  ghost predicate Outcome(l: Layout, sp: Ir.Space, irs: seq<Ir.Instr>, start: Debuggee, first: DebugSpec.Stop, inputs: seq<Input>,
                          r: Round, h: Host, h': Host)
    requires Runnable(sp, irs, start)
  {
    var (d, s) := Called(l, sp, irs, start, first, inputs);
    && StatusOf(r) == s
    && (s != End(Dispatcher.Killed) ==>
          GuestOf(h') == d.g && h'.cpu.pc == d.pc && h'.cpu.fuel == d.fuel && Restored(h', h.r, h.native))
  }

  /** Load a text that fits, and attach a debugger. */
  method InitAndAttach(e: Env, dm: DataMap, pcMap: array<u32>, ghost irs: seq<Ir.Instr>) returns (p: Patcher)
    requires EnvOk(e) && TextOk(e.sp, dm) && EndsWhole(e.sp, dm, 0) && Fits(e.sp, dm)
    requires irs == Stream(e.sp, dm, 0) && DirectTargetsOk(e.sp, irs)
    requires pcMap.Length == |e.sp.text| && ExecSize(|e.sp.text|) < TWO31
    requires forall a | 0 <= a < pcMap.Length :: pcMap[a] == 0
    modifies pcMap
    ensures Over(p, e, irs) && fresh(p) && fresh(p.exec) && p.exec.Length == ExecSize(|e.sp.text|)
    ensures p.TheLayout() == LoadedLayout(e, irs, pcMap[..]) && p.TheTable() == Table([], 0) && p.Lifted() == None
    ensures p.codeSize == CodeBytes(e, irs)
  {
    hide Stream, StreamOk, DirectTargetsOk, EndsWhole, Compilable, EnvOk, CodeBytes, Image, CodeGen.MapUpTo, Fits, LoweringShape.CodeAt, Over, AssembledIn;
    StreamCompilable(e, dm);
    var jit, stream, loaded := Init(e, dm, pcMap);
    assert old(pcMap[..]) == seq(pcMap.Length, i => 0);
    p := Attach(jit, irs);
    assert SlotsOf([]) == [];
  }

  /** Load, attach a debugger, call, and end the session. An entry that is no instruction is refused.
      Otherwise the machine code under the debugger's breakpoints ends the call as its rounds do; and
      when the session is closed, the compiled code is back. The guest of a closed program is n
      instructions down its own path, and ends only where and as it would end by itself. */
  method InitAndDebug(e: Env, dm: DataMap, pcMap: array<u32>, h: Host, entry: u64, argv: seq<u64>, first: DebugSpec.Stop, inputs: seq<Input>)
    returns (r: Round, h': Host, exec: array<u8>, ghost irs: seq<Ir.Instr>, ghost n: nat)
    requires EnvOk(e) && TextOk(e.sp, dm) && EndsWhole(e.sp, dm, 0) && HostOk(e, h) && Fits(e.sp, dm)
    requires DirectTargetsOk(e.sp, Stream(e.sp, dm, 0))
    requires pcMap.Length == |e.sp.text| && ExecSize(|e.sp.text|) < TWO31 && CodeApart(e, ExecSize(|e.sp.text|))
    requires forall a | 0 <= a < pcMap.Length :: pcMap[a] == 0
    modifies pcMap
    ensures irs == Stream(e.sp, dm, 0) && StreamOk(e.sp, irs) && Compilable(e, irs)
    ensures !Known(e.sp, dm, entry) ==> r == Ended(Dispatcher.BadPc)
    ensures Known(e.sp, dm, entry) ==>
              Runnable(e.sp, irs, Started(e.sp, entry, argv, h)) &&
              Outcome(LoadedLayout(e, irs, pcMap[..]), e.sp, irs, Started(e.sp, entry, argv, h), first, inputs, r, h, h')
    ensures Known(e.sp, dm, entry) && Closed(e.sp, dm) ==>
              var w := Walk(e.sp, dm, entry, StartGuest(e.sp, argv, h), n);
              && w.Some? && (r != Ended(Dispatcher.Killed) ==> w.value == (h'.cpu.pc, GuestOf(h')))
              && (r.Ended? ==> EndsAsGuest(e.sp, dm, r.outcome, w.value.0, w.value.1))
    ensures exec.Length == ExecSize(|e.sp.text|) && CodeBytes(e, irs) <= exec.Length && exec[..CodeBytes(e, irs)] == Image(e, irs)
  {
    hide Stream, StreamOk, DirectTargetsOk, EndsWhole, Compilable, EnvOk, CodeBytes, Image, Known, CodeGen.MapUpTo, Translated, Fits,
         LoweringShape.CodeAt, AllObeyed, Called, Over, Walk, EndsAsGuest, Closed;
    irs := Stream(e.sp, dm, 0);
    StreamCompilable(e, dm);
    KnownTranslated(e.sp, dm, irs, entry);
    if Known(e.sp, dm, entry) { KnownInText(e.sp, dm, entry); }
    var patcher := InitAndAttach(e, dm, pcMap, irs);
    var machine := new DebugMachine(e, patcher, h, irs);
    r := machine.Call(entry, argv, first, inputs, irs);
    h' := machine.h;
    n := 0;
    if Known(e.sp, dm, entry) && Closed(e.sp, dm) {
      n := CallPath(LoadedLayout(e, irs, pcMap[..]), e.sp, dm, irs, Started(e.sp, entry, argv, h), first, inputs);
    }
    CodeIsImage(patcher, e, irs);
    patcher.Close();
    exec := patcher.exec;
  }

  lemma CodeIsImage(p: Patcher, e: Env, irs: seq<Ir.Instr>)
    requires Over(p, e, irs)
    ensures p.Valid() && p.code == Image(e, irs) && |p.code| == p.codeSize <= p.exec.Length
  {
    hide EnvOk, Compilable, StreamOk, DirectTargetsOk, Image, CodeBytes, EntriesOk, MapApart, Overlay, p.StubsFor, Dispatcher.MapOk;
  }
}
