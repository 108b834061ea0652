/** The smallest guest functions, called through the whole JIT: one instruction and a return. */
module LeafCalls {
  import opened Words
  import opened X86
  import opened LoweringOps
  import opened Reference
  import opened Translate
  import opened Isa
  import opened Faithful
  import opened Simulation
  import opened Room
  import opened Rv64
  import Decode
  import Dispatcher
  import CodeGen
  import Ir
  import Jit

  /** Instructions that do not jump, or only by a fault. */
  predicate Plain(a: Insn)
  {
    !a.BranchIf? && !a.JumpAndLink? && !a.JumpAndLinkReg? && !a.EnvironmentBreak?
  }

  /** The text is an instruction and a return. */
  predicate Leaf(sp: Ir.Space, a: Insn)
  {
    Legal(a) && Plain(a) && sp.text == Le(Assemble(a), 4) + [0x67, 0x80, 0x00, 0x00]
  }

  // ---------------------------------------------------------------- the text

  lemma OpcodeLow(i: Decode.Word)
    ensures Decode.Opcode(i) % 4 == i % 4
  {
    assert i == i % 0x80 + 0x80 * (i / 0x80);
  }

  lemma AcceptedIsLong(i: Decode.Word, pc: u64)
    requires Decode.Rv32(i, pc) != Decode.Invalid(pc)
    ensures !Decode.Is16Bit(i)
  {
    hide Decode.One, Decode.OneIf, Decode.ImmI, Decode.ImmS, Decode.ImmB, Decode.ImmU, Decode.Rd, Decode.Rs1, Decode.Rs2,
         Decode.Funct3, Decode.Funct7, Decode.OpImm, Decode.OpImm32, Decode.System, Decode.Jal, Decode.Opcode,
         Decode.LoadOp, Decode.StoreOp, Decode.RegOp, Decode.RegWOp, Decode.BranchOp;
    OpcodeLow(i);
  }

  lemma AssembledIsLong(a: Insn)
    requires Legal(a)
    ensures !Decode.Is16Bit(Assemble(a))
  {
    hide Assemble, Legal, Decode.Rv32;
    assert Listed(Assemble(a));
    ListedAccepted(Assemble(a), 0);
    AcceptedIsLong(Assemble(a), 0);
  }

  lemma LeFour(i: Decode.Word)
    ensures Le(i, 4) == [i % 0x100, i / 0x100 % 0x100, i / 0x100 / 0x100 % 0x100, i / 0x100 / 0x100 / 0x100 % 0x100]
  {
    var j := i / 0x100 / 0x100;
    assert Le(i, 4) == [i % 0x100] + Le(i / 0x100, 3);
    assert Le(i / 0x100, 3) == [i / 0x100 % 0x100] + Le(j, 2);
    assert Le(j, 2) == [j % 0x100] + Le(j / 0x100, 1);
  }

  lemma FourDigits(i: Decode.Word, j: int, k: int, l: int)
    requires j == i / 0x100 && k == j / 0x100 && l == k / 0x100
    ensures i % 0x100 + j % 0x100 * 0x100 + (k % 0x100 + l % 0x100 * 0x100) * 0x1_0000 == i
    ensures (i % 0x100 + j % 0x100 * 0x100) % 4 == i % 4
  {
    assert l < 0x100;
    assert i == i % 0x100 + 0x100 * j && j == j % 0x100 + 0x100 * k && k == k % 0x100 + 0x100 * l;
  }

  lemma FourBytes(text: seq<u8>, i: Decode.Word)
    requires |text| == 8 && text[..4] == Le(i, 4)
    ensures Decode.Is16Bit(ReadHalf(text, 0)) == Decode.Is16Bit(i) && ReadHalf(text, 0) + ReadHalf(text, 2) * 0x1_0000 == i
  {
    hide Le;
    LeFour(i);
    var j := i / 0x100;
    var k := j / 0x100;
    FourDigits(i, j, k, k / 0x100);
    assert text[0] == text[..4][0] && text[1] == text[..4][1] && text[2] == text[..4][2] && text[3] == text[..4][3];
  }

  /** The two instructions of the text. */
  lemma Decodes2(sp: Ir.Space, a: Insn, pc: u64)
    requires Leaf(sp, a)
    ensures |sp.text| == 8 && Length(Fetch(sp.text, 0)) == 4 && Length(Fetch(sp.text, 4)) == 4
    ensures Decoded(sp.text, 0, pc) == Operations(a, pc)
    ensures Decoded(sp.text, 4, pc) == [Ir.Instr(Ir.Op.Jalr, 0, 1, 0, 0, pc)]
  {
    hide Assemble, Operations, Legal, Le;
    AssembledIsLong(a);
    FourBytes(sp.text, Assemble(a));
    Decodes(a, pc);
    assert sp.text[4..] == [0x67, 0x80, 0x00, 0x00];
    assert sp.text[4] == sp.text[4..][0] && sp.text[5] == sp.text[4..][1] && sp.text[6] == sp.text[4..][2] && sp.text[7] == sp.text[4..][3];
    assert Fetch(sp.text, 4) == 0x8067;
  }

  /** A text of two long instructions. */
  lemma TwoStart(sp: Ir.Space, j: nat)
    requires |sp.text| == 8 && Length(Fetch(sp.text, 0)) == 4 && Length(Fetch(sp.text, 4)) == 4
    ensures Starts(sp, None, 0, j) <==> j == 0 || j == 4
    ensures EndsWhole(sp, None, 0)
  {
    hide Fetch, Length;
    assert Skip(sp, None, 0) == 4 && Skip(sp, None, 4) == 8;
    assert !Starts(sp, None, 8, j) && EndsWhole(sp, None, 8);
    assert Starts(sp, None, 4, j) <==> j == 4;
  }

  lemma LeafKnown(sp: Ir.Space, a: Insn)
    requires Leaf(sp, a) && Ir.SpaceOk(sp) && sp.textAddr + 12 <= TWO64
    ensures TextOk(sp, None) && EndsWhole(sp, None, 0) && |sp.text| == 8
    ensures forall pc: u64 :: Known(sp, None, pc) <==> pc == sp.textAddr || pc == sp.textAddr + 4
  {
    hide Leaf, Fetch, Length, Starts, EndsWhole, Operations, Decoded;
    Decodes2(sp, a, 0);
    TwoStart(sp, 0);
    forall j: nat ensures Starts(sp, None, 0, j) <==> j == 0 || j == 4 { TwoStart(sp, j); }
  }

  // ---------------------------------------------------------------- the run

  /** Plain instructions make one operation that is no jump. */
  lemma PlainOps(a: Insn, pc: u64)
    requires Legal(a) && Plain(a)
    ensures var ops := Operations(a, pc); |ops| == 1 && !IsDirectJump(ops[0].op) && FallsThrough(ops)
  {
  }

  lemma LeafClosed(sp: Ir.Space, a: Insn)
    requires Leaf(sp, a) && Ir.SpaceOk(sp) && sp.textAddr + 12 <= TWO64 && TextOk(sp, None)
    ensures Closed(sp, None)
  {
    hide Fetch, Length, Starts, EndsWhole, Operations, Decoded, Known, TextOk, Le, Assemble, FallsThrough;
    LeafKnown(sp, a);
    forall pc: u64 | Known(sp, None, pc) ensures ClosedAt(sp, None, pc) {
      Decodes2(sp, a, pc);
      if pc == sp.textAddr {
        PlainOps(a, pc);
        assert After(sp, None, pc) == sp.textAddr + 4;
      } else {
        ReturnEnds(pc);
      }
    }
  }

  lemma ReturnEnds(pc: u64)
    ensures !FallsThrough([Ir.Instr(Ir.Op.Jalr, 0, 1, 0, 0, pc)])
  {
  }

  lemma ReturnJumps(sp: Ir.Space, pc: u64, g: Ir.Guest)
    requires GuestFits(sp, g) && g.x[1] == 0
    ensures var ops := [Ir.Instr(Ir.Op.Jalr, 0, 1, 0, 0, pc)]; OpsOk(ops) && RunOps(sp, ops, g) == Ir.Indirect(g, 0)
  {
  }

  /** One step of the guest machine. */
  lemma Goes(sp: Ir.Space, pc: u64, g: Ir.Guest, fuel: u64)
    requires TextOk(sp, None) && GuestFits(sp, g) && Known(sp, None, pc) && 2 <= fuel < TWO63
    ensures var f, r := Interpret(sp, None, pc, g, fuel), Execute(sp, None, pc, g);
            && (r.Next? ==> f == Interpret(sp, None, After(sp, None, pc), r.g, fuel - 1))
            && (r.Indirect? ==> f == Interpret(sp, None, r.pc, r.g, fuel - 1))
            && (r.Faulted? ==> f == Dispatcher.Final(Dispatcher.Outcome.Faulted(r.kind), g, pc))
  {
    hide Known, Execute, After, TextOk;
  }

  lemma Leaves(sp: Ir.Space, g: Ir.Guest, fuel: u64)
    requires TextOk(sp, None) && GuestFits(sp, g) && !Known(sp, None, 0)
    ensures Interpret(sp, None, 0, g, fuel) == Dispatcher.Final(Dispatcher.Returned(g.x[10]), g, 0)
  {
    hide Known, Execute, After, TextOk;
  }

  /** What the guest machine makes of the two instructions: the first does what the manual says, and the
      return ends the call with what is then in x10. */
  lemma LeafRuns(sp: Ir.Space, a: Insn, g: Ir.Guest, fuel: u64)
    requires Leaf(sp, a) && Ir.SpaceOk(sp) && sp.textAddr + 12 <= TWO64 && TextOk(sp, None)
    requires GuestFits(sp, g) && 3 <= fuel < TWO63 && !LostFault(sp, a, g)
    ensures var r, f := Perform(sp, a, sp.textAddr, g), Interpret(sp, None, sp.textAddr, g, fuel);
            && (r.Next? && r.g.x[1] == 0 ==> f == Dispatcher.Final(Dispatcher.Returned(r.g.x[10]), r.g, 0))
            && (r.Faulted? ==> f == Dispatcher.Final(Dispatcher.Outcome.Faulted(r.kind), g, sp.textAddr))
  {
    hide Fetch, Length, Starts, EndsWhole, Operations, Decoded, Known, TextOk, Le, Assemble, Perform, RunOps, LostFault, Decode.Rv32, Interpret;
    LeafKnown(sp, a);
    Decodes2(sp, a, sp.textAddr);
    Decodes2(sp, a, sp.textAddr + 4);
    Decodes(a, sp.textAddr);
    DoesWhatTheManualSays(sp, a, sp.textAddr, g);
    var r := Perform(sp, a, sp.textAddr, g);
    assert Execute(sp, None, sp.textAddr, g) == r;
    Goes(sp, sp.textAddr, g, fuel);
    if r.Next? && r.g.x[1] == 0 {
      assert After(sp, None, sp.textAddr) == sp.textAddr + 4;
      ReturnJumps(sp, sp.textAddr + 4, r.g);
      Goes(sp, sp.textAddr + 4, r.g, fuel - 1);
      Leaves(sp, r.g, fuel - 2);
    }
  }

  // ---------------------------------------------------------------- through the whole JIT

  /** The i-th argument of a call; registers without an argument hold zero. */
  function Argument(argv: seq<u64>, i: nat): u64 { if i < |argv| then argv[i] else 0 }

  lemma LeafCallable(e: Env, a: Insn, argv: seq<u64>, h: Host)
    requires EnvOk(e) && HostOk(e, h) && Leaf(e.sp, a) && e.sp.textAddr + 12 <= TWO64
    ensures TextOk(e.sp, None) && EndsWhole(e.sp, None, 0) && DirectTargetsOk(e.sp, Stream(e.sp, None, 0)) && AllHarmless(e.sp, None)
    ensures Known(e.sp, None, e.sp.textAddr) && Jit.StubReached(e, None, e.sp.textAddr, argv, h)
    ensures ExecSize(|e.sp.text|) == 0x1_0000
  {
    hide Leaf, Known, Closed, Stream, AllHarmless, DirectTargetsOk, EndsWhole, HostOk, Fits, Jit.StubReached;
    LeafKnown(e.sp, a);
    LeafClosed(e.sp, a);
    ClosedTargets(e.sp, None);
    ClosedHarmless(e.sp, None);
    SmallTextFits(e.sp, None);
    Jit.FitsReached(e, None, e.sp.textAddr, argv, h);
  }

  lemma HostShape(e: Env, h: Host)
    requires EnvOk(e) && HostOk(e, h)
    ensures Ir.SpaceOk(e.sp) && e.sp.stackSize < TWO63 && |h.stack| == e.sp.stackSize && |h.data| == e.sp.dataSize && |h.cpu.x| == 32
  {
  }

  /** Load and call it: the compiled code returns what the manual's instruction leaves in x10, and the
      guest is as that instruction leaves it; or the call ends with its fault. */
  method CallLeaf(e: Env, pcMap: array<u32>, h: Host, argv: seq<u64>, a: Insn) returns (r: Dispatcher.Outcome, h': Host)
    requires EnvOk(e) && HostOk(e, h) && Leaf(e.sp, a) && e.sp.textAddr + 12 <= TWO64 && CodeApart(e, 0x1_0000)
    requires pcMap.Length == |e.sp.text| && forall k | 0 <= k < pcMap.Length :: pcMap[k] == 0
    modifies pcMap
    ensures var g := Jit.StartGuest(e.sp, argv, h);
            !LostFault(e.sp, a, g) ==>
              var p := Perform(e.sp, a, e.sp.textAddr, g);
              && (p.Next? && p.g.x[1] == 0 ==> r == Dispatcher.Returned(p.g.x[10]) && GuestOf(h') == p.g && Restored(h', h.r, h.native))
              && (p.Faulted? ==> r == Dispatcher.Outcome.Faulted(p.kind) && GuestOf(h') == g && h'.cpu.pc == e.sp.textAddr)
  {
    assert Legal(a);
    hide EnvOk, HostOk, Leaf, Known, Stream, AllHarmless, DirectTargetsOk, EndsWhole, TextOk, Jit.StubReached, Jit.CallEnds, Perform,
         LostFault, Interpret, CodeApart, Ir.SpaceOk, Legal, StreamOk, Translated, Dispatcher.InCall;
    LeafCallable(e, a, argv, h);
    var loaded;
    loaded, r, h' := Jit.InitAndCall(e, None, pcMap, h, e.sp.textAddr, argv);
    HostShape(e, h);
    ghost var g := Jit.StartGuest(e.sp, argv, h);
    if !LostFault(e.sp, a, g) { LeafRuns(e.sp, a, g, Dispatcher.INITIAL_FUEL); }
  }

  /** A register instruction on the first two arguments: the call returns what it computes of them, and
      of memory and the other registers nothing has changed. */
  method CallWithTwo(e: Env, pcMap: array<u32>, h: Host, argv: seq<u64>, n: RegName) returns (r: Dispatcher.Outcome, h': Host)
    requires EnvOk(e) && HostOk(e, h) && Leaf(e.sp, Register(n, 10, 10, 11)) && e.sp.textAddr + 12 <= TWO64 && CodeApart(e, 0x1_0000)
    requires pcMap.Length == |e.sp.text| && forall k | 0 <= k < pcMap.Length :: pcMap[k] == 0
    modifies pcMap
    ensures r == Dispatcher.Returned(Computed(n, Argument(argv, 0), Argument(argv, 1)))
    ensures h'.stack == h.stack && h'.data == h.data && |h'.cpu.x| == 32 && h'.cpu.x[2] == e.sp.stackSize
    ensures forall i | 1 <= i < 8 :: h'.cpu.x[10 + i] == Argument(argv, i)
  {
    hide EnvOk, HostOk, Leaf, CodeApart, Computed;
    HostShape(e, h);
    Dispatcher.StartsWith(e.sp, argv);
    r, h' := CallLeaf(e, pcMap, h, argv, Register(n, 10, 10, 11));
  }

  lemma ReturnCallable(e: Env, argv: seq<u64>, h: Host)
    requires EnvOk(e) && HostOk(e, h) && Jit.OnlyReturns(e.sp) && e.sp.textAddr + 8 <= TWO64
    ensures Ir.SpaceOk(e.sp) && TextOk(e.sp, None) && EndsWhole(e.sp, None, 0) && ExecSize(|e.sp.text|) == 0x1_0000
    ensures DirectTargetsOk(e.sp, Stream(e.sp, None, 0)) && AllHarmless(e.sp, None)
    ensures Known(e.sp, None, e.sp.textAddr) && Jit.StubReached(e, None, e.sp.textAddr, argv, h)
    ensures var g := Jit.StartGuest(e.sp, argv, h);
            Interpret(e.sp, None, e.sp.textAddr, g, Dispatcher.INITIAL_FUEL) == Dispatcher.Final(Dispatcher.Returned(g.x[10]), g, 0)
  {
    hide Known, Closed, Stream, AllHarmless, DirectTargetsOk, EndsWhole, Fits, Jit.StubReached, Interpret, EnvOk, TextOk, Dispatcher.StartRegs;
    HostShape(e, h);
    Dispatcher.StartsWith(e.sp, argv);
    Jit.ReturnReturns(e.sp, Jit.StartGuest(e.sp, argv, h), Dispatcher.INITIAL_FUEL);
    ClosedTargets(e.sp, None);
    ClosedHarmless(e.sp, None);
    SmallTextFits(e.sp, None);
    Jit.FitsReached(e, None, e.sp.textAddr, argv, h);
  }

  /** A text that is only a return: the call gives back its first argument, and the guest is as the call
      found it, with the arguments in their registers and the stack pointer at the end of the stack. */
  method CallReturn(e: Env, pcMap: array<u32>, h: Host, argv: seq<u64>) returns (r: Dispatcher.Outcome, h': Host)
    requires EnvOk(e) && HostOk(e, h) && Jit.OnlyReturns(e.sp) && e.sp.textAddr + 8 <= TWO64 && CodeApart(e, 0x1_0000)
    requires pcMap.Length == |e.sp.text| && forall k | 0 <= k < pcMap.Length :: pcMap[k] == 0
    modifies pcMap
    ensures r == Dispatcher.Returned(Argument(argv, 0)) && Restored(h', h.r, h.native)
    ensures h'.stack == h.stack && h'.data == h.data && |h'.cpu.x| == 32 && h'.cpu.x[2] == e.sp.stackSize
    ensures forall i | 0 <= i < 8 :: h'.cpu.x[10 + i] == Argument(argv, i)
  {
    hide EnvOk, HostOk, Jit.OnlyReturns, Known, Stream, AllHarmless, DirectTargetsOk, EndsWhole, TextOk, Jit.StubReached, Jit.CallEnds,
         Interpret, CodeApart, Ir.SpaceOk, StreamOk, Translated, Dispatcher.InCall, Dispatcher.StartRegs;
    ReturnCallable(e, argv, h);
    HostShape(e, h);
    Dispatcher.StartsWith(e.sp, argv);
    var loaded;
    loaded, r, h' := Jit.InitAndCall(e, None, pcMap, h, e.sp.textAddr, argv);
  }

  /** A host for any guest: the conditions above can be met. */
  lemma HasHost(sp: Ir.Space) returns (e: Env, h: Host)
    requires Ir.SpaceOk(sp) && CPU_BYTES + sp.stackSize + sp.dataSize + |sp.text| + 0x1_0000 + 5 < TWO64
    ensures e.sp == sp && EnvOk(e) && HostOk(e, h) && CodeApart(e, 0x1_0000)
  {
    var s, d := CPU_BYTES, CPU_BYTES + sp.stackSize;
    var t := d + sp.dataSize;
    var zero: (Reg, Regs) -> u64 := (r, s) => 0;
    e := Env(sp, 0, s, d, t, t + |sp.text|, 0, 0, zero);
    var regs := Regs(0, 0, 0, 0, 0, 0, 0, 0, 0, 0, 0, 0, 0, 0, 0, 0);
    h := Host(regs, Unknown, Cpu(seq(32, i => 0), 0, 0, 0, 0, 0), seq(sp.stackSize, i => 0), seq(sp.dataSize, i => 0), []);
  }
}
