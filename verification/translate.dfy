/** From the text section to a stream of IR operations. */
module Translate {
  import opened Words
  import opened Ir
  import opened Decode
  import opened Reference

  // ---------------------------------------------------------------- the builder

  /** A builder of fixed capacity: what does not fit is dropped without notice. pushed records
      every operation that was asked for. */
  class Builder {
    const instrs: array<Instr>
    var count: nat
    ghost var pushed: seq<Instr>

    ghost predicate Valid()
      reads this, instrs
    {
      && count == (if |pushed| < instrs.Length then |pushed| else instrs.Length)
      && instrs[..count] == pushed[..count]
    }

    constructor (cap: nat)
      ensures Valid() && fresh(instrs) && instrs.Length == cap && pushed == []
    {
      instrs := new Instr[cap];
      count, pushed := 0, [];
    }

    method Push(i: Instr)
      requires Valid()
      modifies this, instrs
      ensures Valid() && pushed == old(pushed) + [i]
    {
      if count < instrs.Length {
        instrs[count] := i;
        count := count + 1;
      }
      pushed := pushed + [i];
    }

    method PushAll(s: seq<Instr>)
      requires Valid()
      modifies this, instrs
      ensures Valid() && pushed == old(pushed) + s
    {
      var i := 0;
      while i < |s|
        invariant i <= |s| && Valid() && pushed == old(pushed) + s[..i]
      {
        Push(s[i]);
        i := i + 1;
      }
    }
  }

  // ---------------------------------------------------------------- fetching

  /** Text ranges that hold data; None if the file has no mapping symbols. */
  type DataMap = Option<seq<bool>>

  predicate IsData(dm: DataMap, k: nat)
  {
    dm.Some? && k < |dm.value| && dm.value[k]
  }

  /** The text has an even size, and the scan past its end does not wrap. */
  ghost predicate TextOk(sp: Space, dm: DataMap)
  {
    SpaceOk(sp) && sp.textAddr + |sp.text| + 4 <= TWO64 && |sp.text| % 2 == 0 && (dm.Some? ==> |dm.value| == |sp.text|)
  }

  function ReadHalf(text: seq<u8>, k: nat): Half
    requires k + 2 <= |text|
  {
    var low: int, high: int := text[k], text[k + 1];
    low + high * 0x100
  }

  /** The instruction at offset k. A 32-bit encoding cut off by the end of the text keeps its
      low half only. */
  function Fetch(text: seq<u8>, k: nat): Word
    requires k + 2 <= |text|
  {
    var low := ReadHalf(text, k);
    if !Is16Bit(low) && k + 4 <= |text| then low + ReadHalf(text, k + 2) * 0x1_0000 else low
  }

  function Length(i: Word): (n: nat)
    ensures n == 2 || n == 4
  {
    if Is16Bit(i) then 2 else 4
  }

  /** A word is 16 bits long exactly if its low half says so. */
  lemma FetchShort(text: seq<u8>, k: nat)
    requires k + 2 <= |text|
    ensures Is16Bit(Fetch(text, k)) ==> Fetch(text, k) == ReadHalf(text, k)
  {
  }

  function Decoded(text: seq<u8>, k: nat, pc: u64): seq<Instr>
    requires k + 2 <= |text|
  {
    var i := Fetch(text, k);
    FetchShort(text, k);
    if Is16Bit(i) then Rvc(i, pc) else Rv32(i, pc)
  }

  function Check(pc: u64): Instr { Instr(FuelCheck, 0, 0, 0, 0, pc) }

  function Pc(sp: Space, k: nat): u64 { W64(sp.textAddr + k) }

  /** The operations of the instruction at offset k. */
  function Group(sp: Space, k: nat): (g: seq<Instr>)
    requires k + 2 <= |sp.text| && sp.textAddr + |sp.text| < TWO64
    ensures |g| > 0 && g[0] == Check(sp.textAddr + k)
  {
    [Check(Pc(sp, k))] + Decoded(sp.text, k, Pc(sp, k))
  }

  /** The next offset to look at. */
  function Skip(sp: Space, dm: DataMap, k: nat): (n: nat)
    requires k + 2 <= |sp.text|
    ensures n == k + 2 || n == k + 4
  {
    if IsData(dm, k) then k + 2 else k + Length(Fetch(sp.text, k))
  }

  /** The whole stream from offset k on. */
  function Stream(sp: Space, dm: DataMap, k: nat): seq<Instr>
    requires |sp.text| % 2 == 0 && k % 2 == 0 && sp.textAddr + |sp.text| < TWO64
    decreases |sp.text| - k
  {
    if k >= |sp.text| then []
    else (if IsData(dm, k) then [] else Group(sp, k)) + Stream(sp, dm, Skip(sp, dm, k))
  }

  method TranslateInstruction(builder: Builder, text: seq<u8>, k: nat, pc: u64) returns (n: nat)
    requires k + 2 <= |text| && builder.Valid()
    modifies builder, builder.instrs
    ensures builder.Valid() && builder.pushed == old(builder.pushed) + [Check(pc)] + Decoded(text, k, pc)
    ensures n == Length(Fetch(text, k))
  {
    hide Rvc, Rv32;
    builder.Push(Instr(FuelCheck, 0, 0, 0, 0, pc));
    var i: Word := ReadHalf(text, k);
    if !Is16Bit(i) && k + 4 <= |text| {
      i := i + ReadHalf(text, k + 2) * 0x1_0000;
    }
    FetchShort(text, k);
    if Is16Bit(i) {
      builder.PushAll(Rvc(i, pc));
      return 2;
    } else {
      builder.PushAll(Rv32(i, pc));
      return 4;
    }
  }

  /** The scan over the text. */
  method IrTranslate(sp: Space, dm: DataMap, builder: Builder)
    requires TextOk(sp, dm) && builder.Valid() && builder.pushed == []
    modifies builder, builder.instrs
    ensures builder.Valid() && builder.pushed == Stream(sp, dm, 0)
  {
    hide Decoded, Fetch, builder.Valid, Stream, Group, SpaceOk;
    var k := 0;
    while k < |sp.text|
      invariant k % 2 == 0 && builder.Valid()
      invariant builder.pushed + Stream(sp, dm, k) == Stream(sp, dm, 0)
      decreases |sp.text| - k
    {
      ghost var was := builder.pushed;
      StreamStep(sp, dm, k);
      if IsData(dm, k) {
        k := k + 2;
      } else {
        var n := TranslateInstruction(builder, sp.text, k, sp.textAddr + k);
        GroupMoves(was, Check(sp.textAddr + k), Decoded(sp.text, k, sp.textAddr + k), Stream(sp, dm, k + n));
        k := k + n;
      }
    }
    StreamEnd(sp, dm, k);
  }

  lemma GroupMoves(was: seq<Instr>, c: Instr, ops: seq<Instr>, rest: seq<Instr>)
    ensures was + [c] + ops + rest == was + (([c] + ops) + rest)
  {
  }

  lemma StreamStep(sp: Space, dm: DataMap, k: nat)
    requires TextOk(sp, dm) && k % 2 == 0 && k < |sp.text|
    ensures Stream(sp, dm, k) == (if IsData(dm, k) then [] else Group(sp, k)) + Stream(sp, dm, Skip(sp, dm, k))
    ensures Group(sp, k) == [Check(sp.textAddr + k)] + Decoded(sp.text, k, sp.textAddr + k)
    ensures Skip(sp, dm, k) % 2 == 0
  {
    hide Decoded, Fetch;
  }

  lemma StreamEnd(sp: Space, dm: DataMap, k: nat)
    requires TextOk(sp, dm) && k % 2 == 0 && k >= |sp.text|
    ensures Stream(sp, dm, k) == []
  {
  }

  // ---------------------------------------------------------------- shape of the stream

  /** What one instruction turns into: at most two operations, none a fuel check, and two only
      for a jump-and-link. */
  ghost predicate GoodOps(s: seq<Instr>, pc: u64, most: nat)
  {
    && |s| <= most <= 2
    && (forall j | 0 <= j < |s| :: InstrOk(s[j]) && s[j].pc == pc && !s[j].op.FuelCheck?)
    && (|s| == 2 ==> s[0].op.Li? && s[1].op.Jmp?)
  }

  /** Operations that take no constrained immediate. */
  predicate Free(op: Op)
  {
    op.Alu? || op.AluW? || op.Slt? || op.MulOp? || op.DivRem? || op.Branch?
  }

  lemma TablesFree(f3: int, f7: int)
    ensures RegOp(f3, f7).Some? ==> Free(RegOp(f3, f7).value)
    ensures RegWOp(f3, f7).Some? ==> Free(RegWOp(f3, f7).value)
    ensures BranchOp(f3).Some? ==> Free(BranchOp(f3).value)
    ensures LoadOp(f3).Some? ==> LoadOp(f3).value.Load?
    ensures StoreOp(f3).Some? ==> StoreOp(f3).value.Store?
  {
  }

  lemma OneShape(op: Option<Op>, rd: nat, rs1: nat, rs2: nat, imm: int, pc: u64)
    requires op.Some? ==> (Free(op.value) || op.value.Load? || op.value.Store? || op.value.Jalr? || op.value.Li? ||
                           op.value.Nop? || op.value.Ecall? || op.value.Ebreak?)
    requires rd < 32 && rs1 < 32 && rs2 < 32
    requires op.Some? && (op.value.Load? || op.value.Store? || op.value.Jalr?) ==> -TWO31 <= imm < TWO31
    ensures var s := OneIf(op, rd, rs1, rs2, imm, pc); GoodOps(s, pc, 2) && |s| > 0
  {
  }

  lemma SystemShape(i: Word, pc: u64)
    ensures GoodOps(System(i, pc), pc, 2) && |System(i, pc)| > 0
  {
    hide ImmI, Funct3;
  }

  lemma JalShape(i: Word, pc: u64)
    ensures GoodOps(Jal(i, pc), pc, 2) && |Jal(i, pc)| > 0
  {
    hide ImmJ, Rd;
  }

  lemma OneAsOneIf(op: Op, rd: nat, rs1: nat, rs2: nat, imm: int, pc: u64)
    ensures One(op, rd, rs1, rs2, imm, pc) == OneIf(Some(op), rd, rs1, rs2, imm, pc)
  {
  }

  lemma Rv32Shape(i: Word, pc: u64)
    ensures GoodOps(Rv32(i, pc), pc, 2) && |Rv32(i, pc)| > 0
  {
    hide ImmI, ImmS, ImmB, ImmJ, ImmU, Rd, Rs1, Rs2, Opcode, Funct3, Funct7, OpImm, OpImm32, Jal, System, One, OneIf;
    hide RegOp, RegWOp, BranchOp, LoadOp, StoreOp, InstrOk;
    var op, f3, f7 := Opcode(i), Funct3(i), Funct7(i);
    TablesFree(f3, f7);
    if op == 0x03 { OneShape(LoadOp(f3), Rd(i), Rs1(i), 0, ImmI(i), pc); }
    else if op == 0x23 { OneShape(StoreOp(f3), 0, Rs1(i), Rs2(i), ImmS(i), pc); }
    else if op == 0x73 { SystemShape(i, pc); }
    else if op == 0x13 { OpImmShape(i, pc); }
    else if op == 0x37 { OneShape(Some(Li), Rd(i), 0, 0, ImmU(i), pc); OneAsOneIf(Li, Rd(i), 0, 0, ImmU(i), pc); }
    else if op == 0x17 { OneShape(Some(Li), Rd(i), 0, 0, pc + ImmU(i), pc); OneAsOneIf(Li, Rd(i), 0, 0, pc + ImmU(i), pc); }
    else if op == 0x33 { OneShape(RegOp(f3, f7), Rd(i), Rs1(i), Rs2(i), 0, pc); }
    else if op == 0x1B { OpImm32Shape(i, pc); }
    else if op == 0x3B { OneShape(RegWOp(f3, f7), Rd(i), Rs1(i), Rs2(i), 0, pc); }
    else if op == 0x63 { OneShape(BranchOp(f3), 0, Rs1(i), Rs2(i), pc + ImmB(i), pc); }
    else if op == 0x6F { JalShape(i, pc); }
    else if op == 0x67 { OneShape(Some(Jalr), Rd(i), Rs1(i), 0, ImmI(i), pc); OneAsOneIf(Jalr, Rd(i), Rs1(i), 0, ImmI(i), pc); }
    else if op == 0x0F { OneShape(Some(Nop), 0, 0, 0, 0, pc); OneAsOneIf(Nop, 0, 0, 0, 0, pc); }
    else { OneShape(None, 0, 0, 0, 0, pc); InvalidAs(pc); }
  }

  lemma InvalidAs(pc: u64)
    ensures OneIf(None, 0, 0, 0, 0, pc) == Invalid(pc)
  {
  }

  lemma OpImmShape(i: Word, pc: u64)
    ensures GoodOps(OpImm(i, pc), pc, 1) && |OpImm(i, pc)| > 0
  {
    hide ImmI, Rd, Rs1, Funct3, Funct6;
  }

  lemma OpImm32Shape(i: Word, pc: u64)
    ensures GoodOps(OpImm32(i, pc), pc, 1) && |OpImm32(i, pc)| > 0
  {
    hide ImmI, Rd, Rs1, Funct3, Funct7;
  }

  lemma Rvc00Shape(c: Half, pc: u64)
    ensures GoodOps(Rvc00(c, pc), pc, 1)
  {
    hide CImm, CShamt, CImmJ, CImmB, CImmLw, CImmLd, CImmLwsp, CImmLdsp, CImmSwsp, CImmSdsp, CImmAddi4spn, CImmAddi16sp,
         CRd, CRs2, CRs1P, CRs2P, CFunct3, CMisc, CAlu, CBit12;
  }

  lemma MiscAluShape(c: Half, pc: u64)
    ensures GoodOps(RvcMiscAlu(c, pc), pc, 1)
  {
    hide CImm, CShamt, CImmJ, CImmB, CImmLw, CImmLd, CImmLwsp, CImmLdsp, CImmSwsp, CImmSdsp, CImmAddi4spn, CImmAddi16sp,
         CRd, CRs2, CRs1P, CRs2P, CFunct3, CMisc, CAlu, CBit12;
  }

  lemma Rvc01Shape(c: Half, pc: u64)
    ensures GoodOps(Rvc01(c, pc), pc, 1)
  {
    hide CImm, CShamt, CImmJ, CImmB, CImmLw, CImmLd, CImmLwsp, CImmLdsp, CImmSwsp, CImmSdsp, CImmAddi4spn, CImmAddi16sp,
         CRd, CRs2, CRs1P, CRs2P, CFunct3, CMisc, CAlu, CBit12, RvcMiscAlu;
    MiscAluShape(c, pc);
  }

  lemma Rvc10Shape(c: Half, pc: u64)
    ensures GoodOps(Rvc10(c, pc), pc, 1)
  {
    hide CImm, CShamt, CImmJ, CImmB, CImmLw, CImmLd, CImmLwsp, CImmLdsp, CImmSwsp, CImmSdsp, CImmAddi4spn, CImmAddi16sp,
         CRd, CRs2, CRs1P, CRs2P, CFunct3, CMisc, CAlu, CBit12;
  }

  lemma RvcShape(c: Half, pc: u64)
    requires Is16Bit(c)
    ensures GoodOps(Rvc(c, pc), pc, 1)
  {
    hide Rvc00, Rvc01, Rvc10;
    Rvc00Shape(c, pc);
    Rvc01Shape(c, pc);
    Rvc10Shape(c, pc);
  }

  lemma DecodedShape(text: seq<u8>, k: nat, pc: u64)
    requires k + 2 <= |text|
    ensures GoodOps(Decoded(text, k, pc), pc, if Is16Bit(Fetch(text, k)) then 1 else 2)
  {
    hide Rvc, Rv32, GoodOps, Fetch;
    FetchShort(text, k);
    var i := Fetch(text, k);
    if Is16Bit(i) { RvcShape(i, pc); } else { Rv32Shape(i, pc); }
  }

  /** Every address of the stream lies in the text, from lo on; operations are well formed,
      groups start with their only fuel check, and addresses never go back. */
  ghost predicate StreamFrom(sp: Space, irs: seq<Instr>, lo: nat)
  {
    && StreamOk(sp, irs)
    && forall i | 0 <= i < |irs| :: sp.textAddr + lo <= irs[i].pc
  }

  /** A group: a fuel check, then operations that are none. */
  ghost predicate GroupAt(sp: Space, g: seq<Instr>, pc: u64)
  {
    && |g| > 0 && g[0].op.FuelCheck? && Reference.InText(sp, pc)
    && (forall i | 0 <= i < |g| :: InstrOk(g[i]) && g[i].pc == pc && (g[i].op.FuelCheck? ==> i == 0))
  }

  lemma GroupShape(sp: Space, dm: DataMap, k: nat)
    requires TextOk(sp, dm) && k % 2 == 0 && k < |sp.text|
    ensures GroupAt(sp, Group(sp, k), sp.textAddr + k)
  {
    hide Decoded, InstrOk;
    DecodedShape(sp.text, k, sp.textAddr + k);
    CheckOk(sp.textAddr + k);
    var g := Group(sp, k);
    forall i | 0 <= i < |g| ensures InstrOk(g[i]) && g[i].pc == sp.textAddr + k && (g[i].op.FuelCheck? ==> i == 0) {
      if i > 0 { assert g[i] == Decoded(sp.text, k, sp.textAddr + k)[i - 1]; }
    }
  }

  /** A group in front of a later stream. */
  lemma GroupThen(sp: Space, g: seq<Instr>, k: nat, rest: seq<Instr>)
    requires sp.textAddr + k < TWO64 && GroupAt(sp, g, sp.textAddr + k) && StreamFrom(sp, rest, k + 2)
    ensures StreamFrom(sp, g + rest, k)
  {
    hide InstrOk;
    var s := g + rest;
    forall i | 0 <= i < |s|
      ensures InstrOk(s[i]) && Reference.InText(sp, s[i].pc) && sp.textAddr + k <= s[i].pc {
      assert i >= |g| ==> s[i] == rest[i - |g|];
    }
    forall i | 0 <= i < |s| ensures s[i].op.FuelCheck? <==> GroupStart(s, i) {
      if i >= |g| {
        assert s[i] == rest[i - |g|];
        assert i > |g| ==> s[i - 1] == rest[i - |g| - 1];
        assert rest[i - |g|].op.FuelCheck? <==> GroupStart(rest, i - |g|);
      }
    }
    forall i, j | 0 <= i < j < |s| ensures s[i].pc <= s[j].pc {
      assert j >= |g| ==> s[j] == rest[j - |g|];
      assert i >= |g| ==> s[i] == rest[i - |g|];
    }
  }

  lemma CheckOk(pc: u64)
    ensures InstrOk(Check(pc))
  {
  }

  /** The stream the front end produces is what the code generator needs. */
  lemma {:induction false} StreamShape(sp: Space, dm: DataMap, k: nat)
    requires TextOk(sp, dm) && k % 2 == 0
    ensures StreamFrom(sp, Stream(sp, dm, k), k)
    decreases |sp.text| - k
  {
    hide Stream, Group, Fetch, StreamOk;
    if k < |sp.text| {
      StreamStep(sp, dm, k);
      StreamShape(sp, dm, Skip(sp, dm, k));
      if !IsData(dm, k) {
        GroupShape(sp, dm, k);
        StreamWeaken(sp, Stream(sp, dm, Skip(sp, dm, k)), k + 2, Skip(sp, dm, k));
        GroupThen(sp, Group(sp, k), k, Stream(sp, dm, Skip(sp, dm, k)));
      }
      else {
        assert [] + Stream(sp, dm, Skip(sp, dm, k)) == Stream(sp, dm, Skip(sp, dm, k));
        StreamWeaken(sp, Stream(sp, dm, Skip(sp, dm, k)), k, Skip(sp, dm, k));
      }
    } else {
      StreamEnd(sp, dm, k);
      EmptyStream(sp);
    }
  }

  lemma StreamWeaken(sp: Space, irs: seq<Instr>, lo: nat, hi: nat)
    requires lo <= hi && StreamFrom(sp, irs, hi)
    ensures StreamFrom(sp, irs, lo)
  {
    hide StreamOk;
  }

  lemma EmptyStream(sp: Space)
    ensures StreamOk(sp, [])
  {
  }

  /** The scan ends exactly at the end of the text: no 32-bit encoding is cut off. */
  predicate EndsWhole(sp: Space, dm: DataMap, k: nat)
    requires |sp.text| % 2 == 0 && k % 2 == 0
    decreases |sp.text| - k
  {
    if k >= |sp.text| then k == |sp.text| else EndsWhole(sp, dm, Skip(sp, dm, k))
  }

  /** There are never more operations than text bytes, so a builder with one slot per byte
      drops nothing; a jump-and-link cut off by the end of the text may need one slot more. */
  lemma {:induction false} StreamCount(sp: Space, dm: DataMap, k: nat)
    requires TextOk(sp, dm) && k % 2 == 0 && k <= |sp.text|
    ensures |Stream(sp, dm, k)| <= |sp.text| - k + 1
    ensures EndsWhole(sp, dm, k) ==> |Stream(sp, dm, k)| <= |sp.text| - k
    decreases |sp.text| - k
  {
    hide Stream, Decoded, Fetch;
    if k < |sp.text| {
      StreamStep(sp, dm, k);
      DecodedShape(sp.text, k, sp.textAddr + k);
      var n := Skip(sp, dm, k);
      assert EndsWhole(sp, dm, k) == EndsWhole(sp, dm, n);
      if n <= |sp.text| { StreamCount(sp, dm, n); } else { StreamEnd(sp, dm, n); }
    } else {
      StreamEnd(sp, dm, k);
    }
  }

  // ---------------------------------------------------------------- instructions in the stream

  /** The scan from k decodes an instruction at offset j. */
  predicate Starts(sp: Space, dm: DataMap, k: nat, j: nat)
    requires |sp.text| % 2 == 0 && k % 2 == 0
    decreases |sp.text| - k
  {
    k < |sp.text| && ((!IsData(dm, k) && j == k) || Starts(sp, dm, Skip(sp, dm, k), j))
  }

  lemma {:induction false} StartsInside(sp: Space, dm: DataMap, k: nat, j: nat)
    requires TextOk(sp, dm) && k % 2 == 0 && Starts(sp, dm, k, j)
    ensures k <= j && j % 2 == 0 && j + 2 <= |sp.text| && !IsData(dm, j)
    decreases |sp.text| - k
  {
    hide Fetch;
    if IsData(dm, k) || j != k { StartsInside(sp, dm, Skip(sp, dm, k), j); }
  }

  /** Everything before an instruction has a smaller address. */
  lemma {:induction false} StreamSplit(sp: Space, dm: DataMap, k: nat, j: nat) returns (a: seq<Instr>)
    requires TextOk(sp, dm) && k % 2 == 0 && Starts(sp, dm, k, j)
    ensures j % 2 == 0 && Stream(sp, dm, k) == a + Stream(sp, dm, j)
    ensures forall i | 0 <= i < |a| :: a[i].pc < sp.textAddr + j
    decreases |sp.text| - k
  {
    hide Stream, Decoded, Fetch;
    StartsInside(sp, dm, k, j);
    if !IsData(dm, k) && j == k {
      a := [];
    } else {
      var n := Skip(sp, dm, k);
      StreamStep(sp, dm, k);
      StartsInside(sp, dm, n, j);
      var b := StreamSplit(sp, dm, n, j);
      DecodedShape(sp.text, k, sp.textAddr + k);
      a := (if IsData(dm, k) then [] else Group(sp, k)) + b;
    }
  }

  /** The first operation of an instruction: from there on the stream is what the scan from that
      instruction yields. */
  lemma FirstInStream(sp: Space, dm: DataMap, j: nat) returns (f: nat)
    requires TextOk(sp, dm) && j % 2 == 0 && Starts(sp, dm, 0, j)
    ensures f <= |Stream(sp, dm, 0)| && Stream(sp, dm, 0)[f..] == Stream(sp, dm, j)
    ensures f == FirstAt(Stream(sp, dm, 0), Pc(sp, j), 0) < |Stream(sp, dm, 0)|
  {
    hide Stream, Group, Fetch, Starts, Skip;
    StartsInside(sp, dm, 0, j);
    var a := StreamSplit(sp, dm, 0, j);
    StreamStep(sp, dm, j);
    FirstAfter(a, Stream(sp, dm, j), Pc(sp, j));
    f := |a|;
  }

  lemma FirstAfter(a: seq<Instr>, b: seq<Instr>, pc: u64)
    requires |b| > 0 && b[0].pc == pc && forall i | 0 <= i < |a| :: a[i].pc < pc
    ensures FirstAt(a + b, pc, 0) == |a|
  {
    var s := a + b;
    assert s[|a|] == b[0];
    assert forall i | 0 <= i < |a| :: s[i] == a[i];
  }

  /** Every operation of the stream belongs to the instruction its address names. */
  lemma {:induction false} PcStarts(sp: Space, dm: DataMap, k: nat, i: nat)
    requires TextOk(sp, dm) && k % 2 == 0 && i < |Stream(sp, dm, k)|
    ensures var j := Stream(sp, dm, k)[i].pc - sp.textAddr;
            0 <= j && Starts(sp, dm, k, j) && j + 2 <= |sp.text| && Stream(sp, dm, k)[i] in Group(sp, j)
    decreases |sp.text| - k
  {
    hide Stream, Group, Fetch;
    if k >= |sp.text| {
      StreamEnd(sp, dm, k);
    } else {
      StreamStep(sp, dm, k);
      var n := Skip(sp, dm, k);
      var g := if IsData(dm, k) then [] else Group(sp, k);
      if i < |g| {
        GroupShape(sp, dm, k);
        assert Stream(sp, dm, k)[i] == g[i];
      } else {
        PcStarts(sp, dm, n, i - |g|);
        assert Stream(sp, dm, k)[i] == Stream(sp, dm, n)[i - |g|];
      }
    }
  }

  /** An address is translated exactly if the scan decodes an instruction there. */
  lemma TranslatedIff(sp: Space, dm: DataMap, pc: u64)
    requires TextOk(sp, dm)
    ensures Translated(Stream(sp, dm, 0), pc) <==> pc >= sp.textAddr && Starts(sp, dm, 0, pc - sp.textAddr)
  {
    hide Stream, Starts;
    var irs := Stream(sp, dm, 0);
    if Translated(irs, pc) {
      PcStarts(sp, dm, 0, FirstAt(irs, pc, 0));
    }
    if pc >= sp.textAddr && Starts(sp, dm, 0, pc - sp.textAddr) {
      StartsInside(sp, dm, 0, pc - sp.textAddr);
      var f := FirstInStream(sp, dm, pc - sp.textAddr);
    }
  }

  // ---------------------------------------------------------------- which offsets are translated

  /** The map says of every even offset from k up to m that it is data. */
  predicate DataUpTo(dm: DataMap, k: nat, m: nat)
  {
    forall j | k <= j < m && j % 2 == 0 :: dm.Some? && j < |dm.value| && dm.value[j]
  }

  /** The map says of offset m that it is code, if there is a map. */
  predicate IsCode(dm: DataMap, m: nat)
  {
    dm.Some? ==> m < |dm.value| && !dm.value[m]
  }

  /** The offset behind the instruction at i: two bytes on if its two lowest bits are not both set. */
  function Behind(text: seq<u8>, i: nat): nat
    requires i < |text|
  {
    if text[i] % 4 == 3 then i + 4 else i + 2
  }

  lemma {:induction false} ScanPasses(sp: Space, dm: DataMap, k: nat, m: nat, j: nat)
    requires TextOk(sp, dm) && k % 2 == 0 && m % 2 == 0 && k <= m <= |sp.text| && DataUpTo(dm, k, m)
    ensures Starts(sp, dm, k, j) <==> Starts(sp, dm, m, j)
    decreases m - k
  {
    if k < m { ScanPasses(sp, dm, k + 2, m, j); }
  }

  lemma BehindIsSkip(sp: Space, dm: DataMap, i: nat)
    requires i + 2 <= |sp.text| && !IsData(dm, i)
    ensures Behind(sp.text, i) == Skip(sp, dm, i)
  {
  }

  lemma {:induction false} StartsThrough(sp: Space, dm: DataMap, k: nat, i: nat, j: nat)
    requires TextOk(sp, dm) && k % 2 == 0 && i % 2 == 0 && Starts(sp, dm, k, i) && i <= |sp.text| && j > i
    ensures Starts(sp, dm, k, j) <==> Starts(sp, dm, i, j)
    decreases |sp.text| - k
  {
    hide Fetch;
    StartsInside(sp, dm, k, i);
    if IsData(dm, k) || i != k {
      var n := Skip(sp, dm, k);
      StartsInside(sp, dm, n, i);
      StartsThrough(sp, dm, n, i, j);
    }
  }

  /** The instruction after the data from k on: the scan finds nothing before it. */
  lemma NextAfterData(sp: Space, dm: DataMap, k: nat, m: nat)
    requires TextOk(sp, dm) && k % 2 == 0 && m % 2 == 0 && k <= m < |sp.text| && DataUpTo(dm, k, m) && IsCode(dm, m)
    ensures Starts(sp, dm, k, m) && forall j | 0 <= j < m :: !Starts(sp, dm, k, j)
  {
    ScanPasses(sp, dm, k, m, m);
    forall j: nat | j < m ensures !Starts(sp, dm, k, j) {
      ScanPasses(sp, dm, k, m, j);
      if Starts(sp, dm, m, j) { StartsInside(sp, dm, m, j); }
    }
  }

  /** The first translated instruction stands at the first even offset that the map does not mark as
      data. */
  lemma FirstTranslated(sp: Space, dm: DataMap, m: nat)
    requires TextOk(sp, dm) && m % 2 == 0 && m < |sp.text| && DataUpTo(dm, 0, m) && IsCode(dm, m)
    ensures Translated(Stream(sp, dm, 0), sp.textAddr + m)
    ensures forall pc: u64 | sp.textAddr <= pc < sp.textAddr + m :: !Translated(Stream(sp, dm, 0), pc)
  {
    hide Stream, Starts, Translated;
    NextAfterData(sp, dm, 0, m);
    forall pc: u64 | sp.textAddr <= pc <= sp.textAddr + m
      ensures Translated(Stream(sp, dm, 0), pc) == Starts(sp, dm, 0, pc - sp.textAddr) {
      TranslatedIff(sp, dm, pc);
    }
  }

  /** Behind a translated instruction the next one stands at the first even offset, from its end on,
      that the map does not mark as data; nothing between is translated. */
  lemma NextTranslated(sp: Space, dm: DataMap, i: nat, m: nat)
    requires TextOk(sp, dm) && i < |sp.text| && Translated(Stream(sp, dm, 0), sp.textAddr + i)
    requires m % 2 == 0 && Behind(sp.text, i) <= m < |sp.text| && DataUpTo(dm, Behind(sp.text, i), m) && IsCode(dm, m)
    ensures Translated(Stream(sp, dm, 0), sp.textAddr + m)
    ensures forall pc: u64 | sp.textAddr + i < pc < sp.textAddr + m :: !Translated(Stream(sp, dm, 0), pc)
  {
    hide Stream, Translated, Fetch;
    TranslatedIff(sp, dm, sp.textAddr + i);
    StartsInside(sp, dm, 0, i);
    var n := Behind(sp.text, i);
    BehindIsSkip(sp, dm, i);
    NextAfterData(sp, dm, n, m);
    forall pc: u64 | sp.textAddr + i < pc <= sp.textAddr + m
      ensures Translated(Stream(sp, dm, 0), pc) == Starts(sp, dm, n, pc - sp.textAddr) {
      TranslatedIff(sp, dm, pc);
      StartsThrough(sp, dm, 0, i, pc - sp.textAddr);
    }
  }

  /** If the map marks everything from there on, that was the last one. */
  lemma LastTranslated(sp: Space, dm: DataMap, i: nat)
    requires TextOk(sp, dm) && i < |sp.text| && Translated(Stream(sp, dm, 0), sp.textAddr + i)
    requires Behind(sp.text, i) <= |sp.text| ==> DataUpTo(dm, Behind(sp.text, i), |sp.text|)
    ensures forall pc: u64 | sp.textAddr + i < pc :: !Translated(Stream(sp, dm, 0), pc)
  {
    hide Stream, Translated, Fetch;
    TranslatedIff(sp, dm, sp.textAddr + i);
    StartsInside(sp, dm, 0, i);
    var n := Behind(sp.text, i);
    BehindIsSkip(sp, dm, i);
    forall pc: u64 | sp.textAddr + i < pc ensures !Translated(Stream(sp, dm, 0), pc) {
      TranslatedIff(sp, dm, pc);
      StartsThrough(sp, dm, 0, i, pc - sp.textAddr);
      if n <= |sp.text| { ScanPasses(sp, dm, n, |sp.text|, pc - sp.textAddr); }
    }
  }
}
