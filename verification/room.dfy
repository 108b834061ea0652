/** Whether the compiled code fits the mapping that is made for it, told from the text alone. */
module Room {
  import opened Words
  import opened Ir
  import opened Decode
  import opened Translate
  import opened OpSizes
  import opened Program
  import opened LoweringShape
  import opened CodeGen
  import X86
  import X86Encoding
  import Lowering
  import Sizes
  import Snippet
  import Assembler

  const MIN_EXEC_SIZE := 0x1_0000
  const EXEC_BYTES_PER_GUEST_BYTE := 128

  /** The size of the executable mapping. */
  function ExecSize(textSize: nat): nat
  {
    var n := textSize * EXEC_BYTES_PER_GUEST_BYTE;
    if n < MIN_EXEC_SIZE then MIN_EXEC_SIZE else n
  }

  const TRAMPOLINE_BYTES := 59
  const EPILOGUE_BYTES := 11

  // ---------------------------------------------------------------- sums over operations

  function Recorded(ins: Instr): nat
  {
    (if Records(ins, Read) then 1 else 0) + (if Records(ins, Write) then 1 else 0) + (if Records(ins, Timeout) then 1 else 0)
  }

  function BodySum(data: bool, irs: seq<Instr>): nat
  {
    if irs == [] then 0 else BodySum(data, irs[..|irs| - 1]) + OpBytes(data, irs[|irs| - 1])
  }

  function StubSum(irs: seq<Instr>): nat
  {
    if irs == [] then 0 else StubSum(irs[..|irs| - 1]) + Recorded(irs[|irs| - 1])
  }

  lemma {:induction false} SumsConcat(data: bool, a: seq<Instr>, b: seq<Instr>)
    ensures BodySum(data, a + b) == BodySum(data, a) + BodySum(data, b) && StubSum(a + b) == StubSum(a) + StubSum(b)
    decreases |b|
  {
    hide OpBytes, Recorded;
    if b == [] {
      assert a + b == a;
    } else {
      SumsConcat(data, a, b[..|b| - 1]);
      assert (a + b)[..|a + b| - 1] == a + b[..|b| - 1];
    }
  }

  lemma SumOne(data: bool, i: Instr)
    ensures BodySum(data, [i]) == OpBytes(data, i) && StubSum([i]) == Recorded(i)
  {
    hide OpBytes, Recorded;
    assert [i][..0] == [];
  }

  lemma CodeAtFirst(e: X86.Env, irs: seq<Instr>)
    requires Compilable(e, irs)
    ensures CodeAt(e, irs, 0) == TRAMPOLINE_BYTES
  {
    hide Items, Assembler.Off, Trampoline, Sizes.Bytes;
    PartSlices(e, irs);
    assert Items(e, irs)[0..13] == Trampoline(e);
    OffPast(Items(e, irs), 0, Trampoline(e));
    Assembler.OffZero(Items(e, irs));
    TrampolineExact(e);
  }

  lemma CodeAtNext(e: X86.Env, irs: seq<Instr>, i: nat)
    requires Compilable(e, irs) && i < |irs|
    ensures CodeAt(e, irs, i + 1) == CodeAt(e, irs, i) + OpBytes(e.sp.dataSize != 0, irs[i])
  {
    hide OpBytes, Items, Assembler.Off, Lowering.Lower, Trampoline, Bodies, Sizes.Bytes;
    BodySlice(e, irs, i);
    OffPast(Items(e, irs), Start(e, irs, i), LowerAt(e, irs, i));
    LowerExact(e, irs[i], Count(irs, KindOf(irs[i]), i));
  }

  /** Where each operation starts, exactly. */
  lemma {:induction false} CodeAtSum(e: X86.Env, irs: seq<Instr>, i: nat)
    requires Compilable(e, irs) && i <= |irs|
    ensures CodeAt(e, irs, i) == TRAMPOLINE_BYTES + BodySum(e.sp.dataSize != 0, irs[..i])
    decreases i
  {
    hide OpBytes, CodeAt, Compilable;
    if i == 0 {
      CodeAtFirst(e, irs);
    } else {
      CodeAtSum(e, irs, i - 1);
      CodeAtNext(e, irs, i - 1);
      assert irs[..i][..i - 1] == irs[..i - 1];
    }
  }

  lemma TrampolineExact(e: X86.Env)
    requires e.sp.textAddr + |e.sp.text| < TWO64
    ensures Sizes.Bytes(Trampoline(e)) == TRAMPOLINE_BYTES
  {
    hide Sizes.Bytes, Assembler.Size;
    var t := Trampoline(e);
    var a, b, c, d := [t[0], t[1], t[2]], [t[3], t[4], t[5]], [t[6], t[7], t[8]], [t[9], t[10], t[11]];
    forall r { PushSize(r); }
    RegisterExact(X86.MOV, true, X86.R15, X86.RDI);
    Sizes.RegisterSizes(X86.MOV, true, X86.R12, X86.R12, e.textAt);
    Sizes.RegisterSizes(X86.MOV, true, X86.RBX, X86.RBX, e.sp.textAddr);
    Sizes.RegisterSizes(X86.MOV, true, X86.RBP, X86.RBP, e.sp.textAddr + |e.sp.text|);
    CpuFieldSizes();
    Sizes.BytesTriple(t[0], t[1], t[2]); Sizes.BytesTriple(t[3], t[4], t[5]);
    Sizes.BytesTriple(t[6], t[7], t[8]); Sizes.BytesTriple(t[9], t[10], t[11]);
    Sizes.BytesOne(t[12]);
    Sizes.BytesConcat(a, b); Sizes.BytesConcat(a + b, c); Sizes.BytesConcat(a + b + c, d); Sizes.BytesConcat(a + b + c + d, [t[12]]);
    assert t == a + b + c + d + [t[12]];
  }

  lemma PushSize(r: X86.Reg)
    ensures Assembler.Size(Snippet.Op(X86.Push(r))) == if X86Encoding.Num(r) >= 8 then 2 else 1
  {
    hide X86Encoding.Num;
  }

  lemma CpuFieldSizes()
    ensures Assembler.Size(Snippet.Op(X86.LoadM(L64, X86.R14, X86.R15, X86.OFF_STACK_MEM))) == 7
    ensures Assembler.Size(Snippet.Op(X86.LoadM(L64, X86.R13, X86.R15, X86.OFF_STACK_SIZE))) == 7
    ensures Assembler.Size(Snippet.Op(X86.JmpR(X86.RSI))) == 2
  {
  }

  lemma {:induction false} StubsCounted(irs: seq<Instr>, i: nat)
    requires i <= |irs|
    ensures Count(irs, Read, i) + Count(irs, Write, i) + Count(irs, Timeout, i) == StubSum(irs[..i])
    decreases i
  {
    hide Records;
    if i > 0 {
      StubsCounted(irs, i - 1);
      assert irs[..i][..i - 1] == irs[..i - 1];
    }
  }

  /** The size of a whole program, exactly. */
  lemma ImageBytes(e: X86.Env, irs: seq<Instr>)
    requires Compilable(e, irs)
    ensures CodeBytes(e, irs) == TRAMPOLINE_BYTES + BodySum(e.sp.dataSize != 0, irs) + EPILOGUE_BYTES + FAULT_STUB_BYTES * StubSum(irs)
  {
    hide CodeBytes, CodeAt, BodySum, StubSum, Count;
    NothingDroppedIff(e, irs, CodeBytes(e, irs));
    NothingDroppedIff(e, irs, CodeAt(e, irs, |irs|) + TailBytes(irs));
    CodeAtSum(e, irs, |irs|);
    StubsCounted(irs, |irs|);
    assert irs[..|irs|] == irs;
  }

  // ---------------------------------------------------------------- sums over the text

  predicate HasData(sp: Space) { sp.dataSize != 0 }

  /** What the instructions from offset k on take, with their stubs. */
  function TextBytes(sp: Space, dm: DataMap, k: nat): nat
    requires |sp.text| % 2 == 0 && k % 2 == 0 && sp.textAddr + |sp.text| < TWO64
    decreases |sp.text| - k
  {
    if k >= |sp.text| then 0
    else (if IsData(dm, k) then 0 else BodySum(HasData(sp), Group(sp, k)) + FAULT_STUB_BYTES * StubSum(Group(sp, k)))
         + TextBytes(sp, dm, Skip(sp, dm, k))
  }

  lemma {:induction false} StreamSums(sp: Space, dm: DataMap, k: nat)
    requires TextOk(sp, dm) && k % 2 == 0
    ensures var irs := Stream(sp, dm, k);
            BodySum(HasData(sp), irs) + FAULT_STUB_BYTES * StubSum(irs) == TextBytes(sp, dm, k)
    decreases |sp.text| - k
  {
    hide Group, Skip, BodySum, StubSum;
    if k < |sp.text| {
      StreamSums(sp, dm, Skip(sp, dm, k));
      var g: seq<Instr> := if IsData(dm, k) then [] else Group(sp, k);
      SumsConcat(HasData(sp), g, Stream(sp, dm, Skip(sp, dm, k)));
      EmptySums(HasData(sp));
    } else {
      EmptySums(HasData(sp));
    }
  }

  lemma EmptySums(data: bool)
    ensures BodySum(data, []) == 0 && StubSum([]) == 0
  {
  }

  /** The code of the text fits the mapping. This can be computed before anything is compiled. */
  predicate Fits(sp: Space, dm: DataMap)
    requires |sp.text| % 2 == 0 && sp.textAddr + |sp.text| < TWO64
  {
    TRAMPOLINE_BYTES + EPILOGUE_BYTES + TextBytes(sp, dm, 0) <= ExecSize(|sp.text|)
  }

  lemma FitsIff(e: X86.Env, dm: DataMap)
    requires TextOk(e.sp, dm) && Compilable(e, Stream(e.sp, dm, 0))
    ensures CodeBytes(e, Stream(e.sp, dm, 0)) <= ExecSize(|e.sp.text|) <==> Fits(e.sp, dm)
  {
    hide CodeBytes, Stream, BodySum, StubSum, TextBytes, ExecSize;
    ImageBytes(e, Stream(e.sp, dm, 0));
    StreamSums(e.sp, dm, 0);
  }

  // ---------------------------------------------------------------- one instruction

  const FUEL_CHECK_BYTES := 41

  /** A group: the fuel check, then the operations of the instruction. */
  lemma GroupSums(sp: Space, k: nat)
    requires k + 2 <= |sp.text| && sp.textAddr + |sp.text| < TWO64
    ensures var ops := Decoded(sp.text, k, Pc(sp, k));
            && BodySum(HasData(sp), Group(sp, k)) == FUEL_CHECK_BYTES + BodySum(HasData(sp), ops)
            && StubSum(Group(sp, k)) == 1 + StubSum(ops)
  {
    hide Decoded;
    SumsConcat(HasData(sp), [Check(Pc(sp, k))], Decoded(sp.text, k, Pc(sp, k)));
    SumOne(HasData(sp), Check(Pc(sp, k)));
  }

  /** What a 16-bit instruction may turn into: accesses are through the first sixteen registers. */
  predicate RvcOp(i: Instr)
  {
    if i.op.Load? || i.op.Store? then i.rs1 < 16
    else i.op.Alu? || i.op.AluW? || i.op.AluImm? || i.op.AluWImm? || i.op.Li? || i.op.Mov? || i.op.Beqz? || i.op.Branch?
         || i.op.Jmp? || i.op.JmpReg? || i.op.Ebreak? || i.op.Ud2?
  }

  ghost predicate RvcGroup(s: seq<Instr>) { s == [] || (|s| == 1 && RvcOp(s[0])) }

  lemma Rvc00Group(c: Half, pc: u64)
    ensures RvcGroup(Rvc00(c, pc))
  {
    hide CImmLw, CImmLd, CImmAddi4spn, CFunct3, CRs2P, CRs1P;
  }

  lemma MiscAluGroup(c: Half, pc: u64)
    ensures RvcGroup(RvcMiscAlu(c, pc))
  {
    hide CImm, CShamt, CRs1P, CRs2P, CMisc, CAlu, CBit12;
  }

  lemma Rvc01Group(c: Half, pc: u64)
    ensures RvcGroup(Rvc01(c, pc))
  {
    hide CImm, CImmJ, CImmB, CImmAddi16sp, CRd, CRs1P, CFunct3, RvcMiscAlu;
    MiscAluGroup(c, pc);
  }

  lemma Rvc10Group(c: Half, pc: u64)
    ensures RvcGroup(Rvc10(c, pc))
  {
    hide CShamt, CImmLwsp, CImmLdsp, CImmSwsp, CImmSdsp, CRd, CRs2, CFunct3, CBit12;
  }

  lemma RvcGroups(c: Half, pc: u64)
    requires Is16Bit(c)
    ensures RvcGroup(Rvc(c, pc))
  {
    hide Rvc00, Rvc01, Rvc10;
    Rvc00Group(c, pc);
    Rvc01Group(c, pc);
    Rvc10Group(c, pc);
  }

  /** The instruction at offset k is a 16-bit load. */
  predicate ShortLoad(sp: Space, k: nat)
    requires k + 2 <= |sp.text| && sp.textAddr + |sp.text| < TWO64
  {
    var ops := Decoded(sp.text, k, Pc(sp, k));
    Is16Bit(Fetch(sp.text, k)) && |ops| == 1 && ops[0].op.Load?
  }

  const BODY_SHARE := 214
  const SHARE := 255
  const LOAD_EXTRA := 37

  lemma ShortBytes(data: bool, i: Instr)
    requires RvcOp(i)
    ensures FUEL_CHECK_BYTES + OpBytes(data, i) <= BODY_SHARE
    ensures FUEL_CHECK_BYTES + OpBytes(data, i) + FAULT_STUB_BYTES * (1 + Recorded(i)) <=
            SHARE + if data && i.op.Load? then LOAD_EXTRA else 0
  {
  }

  lemma LongBytes(data: bool, i: Instr)
    ensures OpBytes(data, i) <= 224 && Recorded(i) <= 1 && (i.op.Li? || i.op.Jmp? ==> OpBytes(data, i) <= 31 && Recorded(i) == 0)
  {
  }

  /** An instruction's share of the code, for each half-word of it. */
  lemma GroupShare(sp: Space, k: nat)
    requires k + 2 <= |sp.text| && sp.textAddr + |sp.text| < TWO64
    ensures var h := Length(Fetch(sp.text, k)) / 2; var g := Group(sp, k);
            && BodySum(HasData(sp), g) <= BODY_SHARE * h
            && BodySum(HasData(sp), g) + FAULT_STUB_BYTES * StubSum(g) <=
               SHARE * h + if HasData(sp) && ShortLoad(sp, k) then LOAD_EXTRA else 0
  {
    hide Group, Fetch, Rvc, Rv32, RvcOp, OpBytes, Recorded, GoodOps;
    GroupSums(sp, k);
    var i, pc := Fetch(sp.text, k), Pc(sp, k);
    var ops := Decoded(sp.text, k, pc);
    FetchShort(sp.text, k);
    EmptySums(HasData(sp));
    if Is16Bit(i) {
      RvcGroups(i, pc);
      if ops != [] {
        assert ops == [ops[0]];
        SumOne(HasData(sp), ops[0]);
        ShortBytes(HasData(sp), ops[0]);
      }
    } else {
      Rv32Shape(i, pc);
      LongGroup(ops, pc);
      if |ops| == 1 {
        assert ops == [ops[0]];
        SumOne(HasData(sp), ops[0]);
        LongBytes(HasData(sp), ops[0]);
      } else {
        assert ops == [ops[0]] + [ops[1]];
        SumsConcat(HasData(sp), [ops[0]], [ops[1]]);
        SumOne(HasData(sp), ops[0]); SumOne(HasData(sp), ops[1]);
        LongBytes(HasData(sp), ops[0]); LongBytes(HasData(sp), ops[1]);
      }
    }
  }

  lemma LongGroup(ops: seq<Instr>, pc: u64)
    requires GoodOps(ops, pc, 2) && |ops| > 0
    ensures |ops| <= 2 && (|ops| == 2 ==> ops[0].op.Li? && ops[1].op.Jmp?)
  {
  }

  // ---------------------------------------------------------------- loading always succeeds

  lemma {:induction false} BodiesShare(sp: Space, dm: DataMap, k: nat)
    requires TextOk(sp, dm) && k % 2 == 0 && EndsWhole(sp, dm, k)
    ensures k <= |sp.text| && BodySum(HasData(sp), Stream(sp, dm, k)) <= BODY_SHARE * ((|sp.text| - k) / 2)
    decreases |sp.text| - k
  {
    hide Group, Fetch, BodySum, StubSum;
    if k < |sp.text| {
      BodiesShare(sp, dm, Skip(sp, dm, k));
      GroupShare(sp, k);
      SumsConcat(HasData(sp), Group(sp, k), Stream(sp, dm, Skip(sp, dm, k)));
    }
    EmptySums(HasData(sp));
    assert IsData(dm, k) ==> [] + Stream(sp, dm, k + 2) == Stream(sp, dm, k + 2);
  }

  /** The space checks pass for every text: the operations alone take at most 214 bytes for each
      half-word, of the 256 there are. */
  lemma ChecksAlwaysPass(e: X86.Env, dm: DataMap)
    requires TextOk(e.sp, dm) && EndsWhole(e.sp, dm, 0) && Compilable(e, Stream(e.sp, dm, 0))
    ensures ChecksPass(e, Stream(e.sp, dm, 0), ExecSize(|e.sp.text|))
  {
    hide Stream, EndsWhole, CodeAt, BodySum;
    var irs := Stream(e.sp, dm, 0);
    BodiesShare(e.sp, dm, 0);
    CodeAtSum(e, irs, |irs|);
    assert irs[..|irs|] == irs;
    forall i | 0 <= i < |irs| ensures CodeAt(e, irs, i) <= CodeAt(e, irs, |irs|) { CodeAtMonotone(e, irs, i, |irs|); }
    RoomForBodies(|e.sp.text| / 2);
  }

  lemma RoomForBodies(h: nat)
    ensures TRAMPOLINE_BYTES + BODY_SHARE * h + EPILOGUE_AND_PATCH_BYTES < ExecSize(2 * h)
  {
  }

  /** For any operations and any mapping the last check decides: compiling succeeds exactly if more than
      256 bytes are left behind the operations. */
  lemma LastCheckDecides(e: X86.Env, irs: seq<Instr>, cap: nat)
    requires Compilable(e, irs)
    ensures ChecksPass(e, irs, cap) <==> CodeAt(e, irs, |irs|) + 256 < cap
  {
    hide CodeAt, Compilable;
    CodeAtFirst(e, irs);
    forall i | 0 <= i <= |irs| ensures CodeAt(e, irs, i) <= CodeAt(e, irs, |irs|) { CodeAtMonotone(e, irs, i, |irs|); }
  }

  // ---------------------------------------------------------------- when the stubs fit

  /** The 16-bit loads from offset k on. */
  function ShortLoads(sp: Space, dm: DataMap, k: nat): nat
    requires |sp.text| % 2 == 0 && k % 2 == 0 && sp.textAddr + |sp.text| < TWO64
    decreases |sp.text| - k
  {
    if k >= |sp.text| then 0
    else
      var rest := ShortLoads(sp, dm, Skip(sp, dm, k));
      if !IsData(dm, k) && ShortLoad(sp, k) then rest + 1 else rest
  }

  lemma {:induction false} TextShare(sp: Space, dm: DataMap, k: nat)
    requires TextOk(sp, dm) && k % 2 == 0 && EndsWhole(sp, dm, k)
    ensures k <= |sp.text|
    ensures TextBytes(sp, dm, k) <= SHARE * ((|sp.text| - k) / 2) + if HasData(sp) then LOAD_EXTRA * ShortLoads(sp, dm, k) else 0
    decreases |sp.text| - k
  {
    hide Group, Fetch, BodySum, StubSum, ShortLoad;
    if k < |sp.text| {
      TextShare(sp, dm, Skip(sp, dm, k));
      GroupShare(sp, k);
    }
  }

  /** Without a data region, or with few 16-bit loads, nothing is cut off; none always suffices. */
  lemma FewLoadsFit(sp: Space, dm: DataMap)
    requires TextOk(sp, dm) && EndsWhole(sp, dm, 0)
    requires HasData(sp) ==> var h := |sp.text| / 2;
                             LOAD_EXTRA * ShortLoads(sp, dm, 0) <= (if h < 256 then 65536 - SHARE * h else h) - TRAMPOLINE_BYTES - EPILOGUE_BYTES
    ensures Fits(sp, dm)
  {
    hide TextBytes, ShortLoads, EndsWhole;
    TextShare(sp, dm, 0);
  }

  lemma {:induction false} ShortLoadsBound(sp: Space, dm: DataMap, k: nat)
    requires TextOk(sp, dm) && k % 2 == 0 && EndsWhole(sp, dm, k)
    ensures k <= |sp.text| && 2 * ShortLoads(sp, dm, k) <= |sp.text| - k
    decreases |sp.text| - k
  {
    hide Fetch, ShortLoad;
    if k < |sp.text| { ShortLoadsBound(sp, dm, Skip(sp, dm, k)); }
  }

  /** A text of at most 448 bytes always fits. */
  lemma SmallTextFits(sp: Space, dm: DataMap)
    requires TextOk(sp, dm) && EndsWhole(sp, dm, 0) && |sp.text| <= 448
    ensures Fits(sp, dm)
  {
    hide Fits, ShortLoads, EndsWhole;
    ShortLoadsBound(sp, dm, 0);
    FewLoadsFit(sp, dm);
  }

  // ---------------------------------------------------------------- a text whose stubs do not fit

  /** Loads through x8 with offset 8, and a return. */
  function LoadsText(n: nat): (s: seq<u8>)
    ensures |s| == 2 * n + 2
  {
    seq(2 * n + 2, i requires 0 <= i => if i == 2 * n then 0x82 else if i == 2 * n + 1 then 0x80 else if i % 2 == 0 then 0 else 0x64)
  }

  lemma LoadsFetch(sp: Space, n: nat, k: nat)
    requires sp.text == LoadsText(n) && k % 2 == 0 && k <= 2 * n
    ensures Fetch(sp.text, k) == if k < 2 * n then 0x6400 else 0x8082
  {
  }

  lemma LoadsRvc(pc: u64)
    ensures Rvc(0x6400, pc) == One(Load(L64), 8, 8, 0, 8, pc) && Rvc(0x8082, pc) == One(JmpReg, 0, 1, 0, 0, pc)
  {
  }

  lemma LoadsDecode(sp: Space, n: nat, k: nat)
    requires sp.text == LoadsText(n) && k % 2 == 0 && k <= 2 * n && sp.textAddr + |sp.text| < TWO64
    ensures Length(Fetch(sp.text, k)) == 2
    ensures Decoded(sp.text, k, Pc(sp, k)) ==
            if k < 2 * n then One(Load(L64), 8, 8, 0, 8, Pc(sp, k)) else One(JmpReg, 0, 1, 0, 0, Pc(sp, k))
  {
    hide Fetch, Rvc, Rv32, LoadsText;
    LoadsFetch(sp, n, k);
    LoadsRvc(Pc(sp, k));
    FetchShort(sp.text, k);
  }

  lemma {:induction false} LoadsBytes(sp: Space, n: nat, k: nat)
    requires TextOk(sp, None) && sp.text == LoadsText(n) && sp.dataSize != 0 && k % 2 == 0 && k <= 2 * n
    ensures TextBytes(sp, None, k) >= 286 * (n - k / 2)
    ensures EndsWhole(sp, None, k)
    decreases 2 * n - k
  {
    hide Group, Fetch, BodySum, StubSum, Decoded, OpBytes, LoadsText;
    LoadsDecode(sp, n, k);
    GroupSums(sp, k);
    if k < 2 * n {
      LoadsBytes(sp, n, k + 2);
      var i := One(Load(L64), 8, 8, 0, 8, Pc(sp, k))[0];
      SumOne(true, i);
      LoadSize(i);
    }
  }

  lemma LoadSize(i: Instr)
    requires i.op == Load(L64) && i.rd == i.rs1 == i.imm == 8
    ensures OpBytes(true, i) == 167 && Recorded(i) == 1
  {
  }

  /** The loader accepts texts for which the stubs do not fit: from 230 such loads on, every space
      check passes, and the code is longer than its mapping. */
  lemma LoadsOverflow(e: X86.Env, n: nat)
    requires TextOk(e.sp, None) && e.sp.text == LoadsText(n) && e.sp.dataSize != 0 && n >= 230
    requires Compilable(e, Stream(e.sp, None, 0))
    ensures EndsWhole(e.sp, None, 0) && !Fits(e.sp, None)
    ensures ChecksPass(e, Stream(e.sp, None, 0), ExecSize(|e.sp.text|))
    ensures CodeBytes(e, Stream(e.sp, None, 0)) > ExecSize(|e.sp.text|)
  {
    hide Stream, CodeBytes, ChecksPass, TextBytes, EndsWhole;
    LoadsBytes(e.sp, n, 0);
    ChecksAlwaysPass(e, None);
    FitsIff(e, None);
  }
}
