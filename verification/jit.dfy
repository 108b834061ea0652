/** The whole JIT: translate the text, compile it, and call a function of the guest. */
module Jit {
  import opened Words
  import opened X86
  import opened LoweringOps
  import opened Reference
  import opened Program
  import opened Translate
  import opened Isa
  import opened Faithful
  import opened Simulation
  import opened Room
  import CodeGen
  import Dispatcher
  import Emitter
  import LoweringShape
  import Ir

  lemma StreamCompilable(e: Env, dm: DataMap)
    requires EnvOk(e) && TextOk(e.sp, dm)
    ensures StreamOk(e.sp, Stream(e.sp, dm, 0)) && Compilable(e, Stream(e.sp, dm, 0))
  {
    hide Stream;
    StreamShape(e.sp, dm, 0);
  }

  /** The front end: a builder with one slot per byte of text drops nothing. */
  method TranslateText(sp: Ir.Space, dm: DataMap) returns (irs: seq<Ir.Instr>)
    requires TextOk(sp, dm) && EndsWhole(sp, dm, 0)
    ensures irs == Stream(sp, dm, 0) && |irs| <= |sp.text|
  {
    hide Stream, EndsWhole;
    var builder := new Builder(|sp.text|);
    IrTranslate(sp, dm, builder);
    StreamCount(sp, dm, 0);
    irs := builder.instrs[..builder.count];
  }

  /** Loading: the operations of the text, compiled. It never fails for want of room; the code is
      complete exactly if it fits. */
  method Init(e: Env, dm: DataMap, pcMap: array<u32>) returns (jit: Emitter.Jit, irs: seq<Ir.Instr>, r: CodeGen.Result)
    requires EnvOk(e) && TextOk(e.sp, dm) && EndsWhole(e.sp, dm, 0) && DirectTargetsOk(e.sp, Stream(e.sp, dm, 0))
    requires pcMap.Length == |e.sp.text| && ExecSize(|e.sp.text|) < TWO31
    modifies pcMap
    ensures jit.e == e && jit.pcMap == pcMap && fresh(jit) && fresh(jit.buf.data) && irs == Stream(e.sp, dm, 0)
    ensures StreamOk(e.sp, irs) && Compilable(e, irs) && r.Ok?
    ensures jit.buf.data.Length == ExecSize(|e.sp.text|)
    ensures if Fits(e.sp, dm)
            then jit.buf.size == CodeBytes(e, irs) <= jit.buf.data.Length && jit.buf.data[..jit.buf.size] == Image(e, irs)
            else jit.buf.size == jit.buf.data.Length < CodeBytes(e, irs) && AssembledIn(e, irs, jit.buf.data[..])
    ensures jit.trampolineOffset == 0 && jit.epilogueOffset == LoweringShape.CodeAt(e, irs, |irs|)
    ensures CodeGen.MapUpTo(e, irs, |irs|, old(pcMap[..]), pcMap[..])
  {
    hide Stream, StreamOk, DirectTargetsOk, EndsWhole, Compilable, EnvOk, CodeGen.ChecksPass, CodeBytes, Image, ExecSize;
    hide CodeGen.MapUpTo, TextOk, CodeGen.AtStart, Fits, AssembledIn;
    StreamCompilable(e, dm);
    ChecksAlwaysPass(e, dm);
    FitsIff(e, dm);
    irs := TranslateText(e.sp, dm);
    jit := new Emitter.Jit(e, ExecSize(|e.sp.text|), pcMap, |irs|, Items(e, irs));
    StartsReady(jit, irs);
    r := CodeGen.Compile(jit, irs);
  }

  lemma StartsReady(jit: Emitter.Jit, irs: seq<Ir.Instr>)
    requires StreamOk(jit.e.sp, irs) && DirectTargetsOk(jit.e.sp, irs) && Compilable(jit.e, irs)
    requires jit.plan == Items(jit.e, irs) && jit.capacity == |irs| && jit.pcMap.Length == |jit.e.sp.text|
    requires jit.Valid() && jit.k == 0 && jit.open == {} && jit.Recorded() == Emitter.Tables([], 0, [], [], [])
    ensures CodeGen.Ready(jit, irs)
  {
    hide StreamOk, DirectTargetsOk, Compilable, jit.Valid, Items;
  }

  /** The guest a call starts with: registers from the arguments, memory as it is. */
  function StartGuest(sp: Ir.Space, argv: seq<u64>, h: Host): (g: Ir.Guest)
    requires sp.stackSize < TWO63 && |h.stack| == sp.stackSize && |h.data| == sp.dataSize
    ensures GuestFits(sp, g)
  {
    Ir.Guest(Dispatcher.StartRegs(sp, argv), h.stack, h.data)
  }

  /** What a call into the loaded code comes to. */
  ghost function CallEnds(e: Env, dm: DataMap, entry: u64, argv: seq<u64>, h: Host): Dispatcher.Final
    requires EnvOk(e) && TextOk(e.sp, dm) && HostOk(e, h) && DirectTargetsOk(e.sp, Stream(e.sp, dm, 0)) && Known(e.sp, dm, entry)
  {
    StreamCompilable(e, dm);
    KnownTranslated(e.sp, dm, Stream(e.sp, dm, 0), entry);
    Dispatcher.Dispatch(e.sp, Stream(e.sp, dm, 0), entry, StartGuest(e.sp, argv, h), Dispatcher.INITIAL_FUEL)
  }

  /** The call does not fault at an instruction whose stub has been cut off: the number of its stub is
      one of those that fit. */
  ghost predicate StubReached(e: Env, dm: DataMap, entry: u64, argv: seq<u64>, h: Host)
    requires EnvOk(e) && TextOk(e.sp, dm) && HostOk(e, h) && DirectTargetsOk(e.sp, Stream(e.sp, dm, 0)) && Known(e.sp, dm, entry)
  {
    StreamCompilable(e, dm);
    Dispatcher.EndCovered(e, Stream(e.sp, dm, 0), ExecSize(|e.sp.text|), CallEnds(e, dm, entry, argv, h))
  }

  /** In code that fits, every stub is there. */
  lemma FitsReached(e: Env, dm: DataMap, entry: u64, argv: seq<u64>, h: Host)
    requires EnvOk(e) && TextOk(e.sp, dm) && HostOk(e, h) && DirectTargetsOk(e.sp, Stream(e.sp, dm, 0)) && Known(e.sp, dm, entry)
    requires Fits(e.sp, dm)
    ensures StubReached(e, dm, entry, argv, h)
  {
    hide Stream, StreamOk, DirectTargetsOk, Compilable, EnvOk, CodeBytes, Known, Fits, CallEnds, ExecSize;
    StreamCompilable(e, dm);
    FitsIff(e, dm);
    AlwaysCovered(e, Stream(e.sp, dm, 0), ExecSize(|e.sp.text|), CallEnds(e, dm, entry, argv, h));
  }

  lemma AlwaysCovered(e: Env, irs: seq<Ir.Instr>, room: nat, f: Dispatcher.Final)
    requires Compilable(e, irs) && CodeBytes(e, irs) <= room
    ensures Dispatcher.EndCovered(e, irs, room, f)
  {
    hide CodeBytes, Compilable, StubFits, Records;
    if f.outcome.Faulted? { AllCovered(e, irs, room, Fault(f.outcome.kind, f.g, f.pc, 0)); }
  }

  /** Load and call. An entry that is no instruction is refused. Otherwise outcome, registers and
      memory of the guest and cpu.pc are those of the dispatcher over the IR program, and for a harmless
      program those of the guest machine; the host's stack and callee-saved registers are untouched;
      and fewer instructions run than there is fuel. Only a call that faults at an instruction whose
      stub was cut off leads past the mapping; of a text that fits there is none. */
  method InitAndCall(e: Env, dm: DataMap, pcMap: array<u32>, h: Host, entry: u64, argv: seq<u64>)
    returns (loaded: CodeGen.Result, r: Dispatcher.Outcome, h': Host)
    requires EnvOk(e) && TextOk(e.sp, dm) && EndsWhole(e.sp, dm, 0) && HostOk(e, h) && DirectTargetsOk(e.sp, Stream(e.sp, dm, 0))
    requires pcMap.Length == |e.sp.text| && ExecSize(|e.sp.text|) < TWO31 && CodeApart(e, ExecSize(|e.sp.text|))
    requires forall a | 0 <= a < pcMap.Length :: pcMap[a] == 0
    requires Known(e.sp, dm, entry) ==> StubReached(e, dm, entry, argv, h)
    modifies pcMap
    ensures loaded.Ok? && StreamOk(e.sp, Stream(e.sp, dm, 0))
    ensures !Known(e.sp, dm, entry) ==> r.BadPc? && h' == h
    ensures Known(e.sp, dm, entry) ==>
              var f := CallEnds(e, dm, entry, argv, h);
              && r == f.outcome
              && (!r.Killed? ==> GuestOf(h') == f.g && h'.cpu.pc == f.pc && Restored(h', h.r, h.native))
              && (AllHarmless(e.sp, dm) ==> f == Interpret(e.sp, dm, entry, StartGuest(e.sp, argv, h), Dispatcher.INITIAL_FUEL))
    ensures Known(e.sp, dm, entry) ==>
              Translated(Stream(e.sp, dm, 0), entry) &&
              var n := Dispatcher.InCall(e.sp, Stream(e.sp, dm, 0), entry, StartGuest(e.sp, argv, h), Dispatcher.INITIAL_FUEL);
              n < 10_000_000 && (r == Dispatcher.Outcome.Faulted(Ir.Timeout) ==> n == 9_999_999)
  {
    hide Stream, StreamOk, DirectTargetsOk, AllHarmless, EndsWhole, Compilable, EnvOk, CodeBytes, Image, Interpret, Known,
         Dispatcher.Dispatch, CodeGen.MapUpTo, Translated, Loaded, Fits, AssembledIn, Dispatcher.EndCovered, Dispatcher.InCall;
    StreamCompilable(e, dm);
    KnownTranslated(e.sp, dm, Stream(e.sp, dm, 0), entry);
    var jit, irs;
    jit, irs, loaded := Init(e, dm, pcMap);
    assert old(pcMap[..]) == seq(pcMap.Length, i => 0);
    if Known(e.sp, dm, entry) {
      KnownInText(e.sp, dm, entry);
      Dispatcher.CallCharged(e.sp, irs, entry, StartGuest(e.sp, argv, h), Dispatcher.INITIAL_FUEL);
      if Fits(e.sp, dm) { AlwaysCovered(e, irs, jit.buf.size, CallEnds(e, dm, entry, argv, h)); }
      if AllHarmless(e.sp, dm) {
        FaithfulIff(e.sp, dm, irs);
        assert FaithfulFrom(e.sp, dm, irs, entry);
      }
    }
    if Fits(e.sp, dm) { ImageLoaded(e, irs); } else { CodeLoaded(e, irs, jit.buf.data[..]); }
    assert jit.buf.data[..jit.buf.data.Length] == jit.buf.data[..];
    var machine := new Dispatcher.Machine(jit, h, irs);
    r := machine.Call(entry, argv, irs);
    h' := machine.h;
  }

  // ---------------------------------------------------------------- an example

  /** A text of one instruction, the return from a function. */
  predicate OnlyReturns(sp: Ir.Space) { sp.text == [0x67, 0x80, 0x00, 0x00] }

  lemma ReturnDecodes(sp: Ir.Space, pc: u64)
    requires OnlyReturns(sp)
    ensures Decoded(sp.text, 0, pc) == [Ir.Instr(Ir.Op.Jalr, 0, 1, 0, 0, pc)]
    ensures Fetch(sp.text, 0) == 0x8067 && Length(Fetch(sp.text, 0)) == 4
  {
  }

  /** The conditions of the theorems above can be met: such a text meets them, and running it from a
      call returns the first argument. */
  lemma ReturnReturns(sp: Ir.Space, g: Ir.Guest, fuel: u64)
    requires OnlyReturns(sp) && Ir.SpaceOk(sp) && sp.textAddr + 8 <= TWO64
    requires GuestFits(sp, g) && g.x[1] == 0 && 2 <= fuel < TWO63
    ensures TextOk(sp, None) && EndsWhole(sp, None, 0) && Closed(sp, None)
    ensures Known(sp, None, sp.textAddr)
    ensures Interpret(sp, None, sp.textAddr, g, fuel) == Dispatcher.Final(Dispatcher.Returned(g.x[10]), g, 0)
  {
    ReturnDecodes(sp, sp.textAddr);
    assert Starts(sp, None, 0, 0);
    forall pc: u64 | Known(sp, None, pc) ensures ClosedAt(sp, None, pc) {
      KnownInside(sp, None, pc);
      assert pc == sp.textAddr;
    }
  }
}
