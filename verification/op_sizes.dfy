/** Exactly how many bytes each IR operation takes. */
module OpSizes {
  import opened Words
  import opened X86
  import opened Snippet
  import opened Lowering
  import opened X86Encoding
  import opened Assembler
  import opened Sizes
  import Ir

  // ---------------------------------------------------------------- the table

  /** An access to a guest register: 8-bit displacements reach the first sixteen. */
  function Slot(g: nat): nat { if g < 16 then 4 else 7 }

  /** A 64-bit operation of RAX with an immediate; adding has a short form. */
  function WithImm(add: bool, imm: int): nat { if FitsI8(imm) then 4 else if add then 6 else 7 }

  function MulBytes(op: Ir.MulOp): nat
  {
    match op
    case Mul => 4
    case Mulw => 6
    case Mulhsu => 19
    case _ => 6
  }

  function ZeroCheckBytes(word: bool, rem: bool): nat
  {
    (if word then 2 else 3) + 6 + (if !rem then 10 else if word then 3 else 0) + 5
  }

  function OverflowCheckBytes(word: bool, rem: bool): nat
  {
    (if word then 3 else 4) + 6 + (if word then 6 else 13) + 6 + (if rem || word then 3 else 0) + 5
  }

  function DivideBytes(signed: bool, word: bool, rem: bool): nat
  {
    (if signed && word then 1 else 2) + (if word then 2 else 3) + (if rem then 3 else 0) + (if word then 3 else 0)
  }

  function BinaryBytes(op: Ir.Op): nat
  {
    match op
    case Alu(_) => 3
    case AluW(a) => 5
    case Slt(_) => 10
    case MulOp(m) => MulBytes(m)
    case DivRem(s, w, r) => ZeroCheckBytes(w, r) + (if s then OverflowCheckBytes(w, r) else 0) + DivideBytes(s, w, r)
    case _ => 0
  }

  function UnaryBytes(op: Ir.Op, imm: int): nat
  {
    match op
    case AluImm(a) => if a.Sll? || a.Srl? || a.Sra? then 4 else WithImm(a.Add?, imm)
    case AluWImm(a) => if a.AddW? then (if FitsI8(imm) then 6 else 8) else 6
    case SltImm(_) => WithImm(false, imm) + 7
    case _ => 0
  }

  /** The bounds checks: the data region adds to both kinds, the text to loads. */
  function AccessBytes(data: bool, store: bool): nat { 39 + (if data then 56 else 0) + (if store then 5 else 42) }

  function OffsetLength(imm: int): nat { if imm == 0 then 0 else if FitsI8(imm) then 4 else 7 }

  function BodyBytes(data: bool, ins: Ir.Instr): nat
  {
    var a, b, d := Slot(ins.rs1), Slot(ins.rs2), Slot(ins.rd);
    if IsBinary(ins.op) then a + b + BinaryBytes(ins.op) + d
    else if IsUnary(ins.op) then a + UnaryBytes(ins.op, ins.imm) + d
    else
      match ins.op
      case FuelCheck => 27
      case Mov => b + d
      case Li => 10 + d
      case Load(k) => a + OffsetLength(ins.imm) + AccessBytes(data, false) + (if k.L32U? then 3 else 4) + d
      case Store(k) => a + b + OffsetLength(ins.imm) + AccessBytes(data, true) + (if k.St8? || k.St32? then 3 else 4)
      case Beqz => a + 9
      case Branch(_) => a + b + 9
      case Jmp => 5
      case JmpReg => a + 12
      case Jalr => a + WithImm(true, ins.imm) + 4 + (if ins.rd != 0 then 10 + d else 0) + 12
      case Ecall => 24
      case Ebreak => 1
      case Ud2 => 2
      case _ => 0
  }

  /** All of an operation: x0 is cleared first, and a discarded operation stops there. */
  function OpBytes(data: bool, ins: Ir.Instr): nat { 14 + if Ir.Discarded(ins) then 0 else BodyBytes(data, ins) }

  // ---------------------------------------------------------------- single instructions

  function RexBytes(w: bool, a: Reg, b: Reg): nat { if w || Num(a) >= 8 || Num(b) >= 8 then 1 else 0 }

  lemma RexExact(w: bool, a: Reg, b: Reg)
    ensures |Rex(w, Num(a), Num(b))| == RexBytes(w, a, b)
  {
  }

  lemma RegisterExact(op: X86.AluOp, w: bool, a: Reg, b: Reg)
    ensures Size(Op(Rr(op, w, a, b))) == 2 + RexBytes(w, b, a) && Size(Op(Imul(w, a, b))) == 3 + RexBytes(w, a, b)
    ensures Size(Op(Cqo(w))) == if w then 2 else 1
  {
    hide ModRm, Le, AluOpcode, Num, Rex;
    RexExact(w, a, b); RexExact(w, b, a); RexCqo(w);
  }

  lemma RexCqo(w: bool)
    ensures |Rex(w, 0, 0)| == if w then 1 else 0
  {
  }

  lemma GroupExact(s: ShiftOp, g: Grp3Op, w: bool, a: Reg, n: u8)
    ensures Size(Op(ShiftImm(s, w, a, n))) == 3 + RexBytes(w, RAX, a) && Size(Op(ShiftCl(s, w, a))) == 2 + RexBytes(w, RAX, a)
    ensures Size(Op(Grp3(g, w, a))) == 2 + RexBytes(w, RAX, a)
  {
    hide ModRm, Le, ShiftExt, Grp3Ext, CondNum, Rex;
    RexExact(w, RAX, a);
  }

  lemma ImmediateExact(op: ImmOp, w: bool, a: Reg, imm: i32)
    ensures Size(Op(RImm(op, w, a, imm))) ==
            RexBytes(w, RAX, a) + if FitsI8(imm) then 3 else if a == RAX && op == ADDI then 5 else 6
  {
    hide ModRm, Le, ImmExt, Rex;
    RexExact(w, RAX, a);
  }

  lemma SlotExact(r: Reg, g: nat)
    requires g < 32
    ensures Size(LoadReg(r, g)) == Size(StoreReg(g, r)) == Slot(g)
    ensures Bytes([LoadReg(r, g)]) == Bytes([StoreReg(g, r)]) == Slot(g)
  {
    SlotSize(r, g);
    BytesOne(LoadReg(r, g)); BytesOne(StoreReg(g, r));
  }

  lemma SlotSize(r: Reg, g: nat)
    requires g < 32
    ensures Size(LoadReg(r, g)) == Size(StoreReg(g, r)) == Slot(g)
  {
    hide ModRm, Le, Rex;
    RexExact(true, r, R15);
  }

  lemma SystemExact(c: Cond)
    ensures Size(Op(Push(RAX))) == Size(Op(Pop(RAX))) == 1 && Size(Op(CallR(RAX))) == 2
    ensures Size(Op(Setcc(c, Low(RAX)))) == 3
  {
    hide CondNum;
  }

  /** Accesses through RCX and to the fields of the cpu record behind the registers. */
  lemma AccessExact(k: Ir.LoadKind, s: Ir.StoreKind)
    ensures Size(Op(LoadM(k, RAX, RCX, 0))) == if k.L32U? then 3 else 4
    ensures Size(Op(StoreM(s, RCX, 0, RAX))) == if s.St8? || s.St32? then 3 else 4
    ensures Size(Op(LoadM(Ir.L64, RAX, R15, OFF_FUEL))) == Size(Op(StoreM(Ir.St64, R15, OFF_FUEL, RAX))) == 7
    ensures Size(StorePc(RAX)) == 7
  {
    hide ModRm, Le;
  }

  // ---------------------------------------------------------------- pieces

  lemma ZeroX0Exact()
    ensures Bytes(ZeroX0()) == 14
  {
    hide Size, Off;
    RegisterSizes(MOV, true, RAX, RAX, 0);
    SlotExact(RAX, 0);
    BytesPair(Op(MovImm(RAX, 0)), StoreReg(0, RAX));
  }

  lemma AluExact(op: Ir.Op)
    requires op.Alu? || op.AluW? || op.Slt?
    ensures Bytes(BinaryCore(op)) == BinaryBytes(op)
  {
    hide Size, Bytes;
    var c := BinaryCore(op);
    forall o: X86.AluOp, w: bool { RegisterExact(o, w, RAX, RCX); }
    forall s: ShiftOp, w: bool { GroupExact(s, MUL, w, RAX, 0); }
    RegisterSizes(MOV, true, RAX, RAX, 0);
    if op.Alu? { BytesOne(c[0]); }
    else if op.AluW? { BytesPair(c[0], c[1]); }
    else {
      SystemExact(SltCond(op.sltSigned));
      BytesTriple(c[0], c[1], c[2]);
      assert c == [c[0], c[1], c[2]];
    }
  }

  lemma UnaryExact(op: Ir.Op, imm: i32)
    requires IsUnary(op) && Ir.InstrOk(Ir.Instr(op, 0, 0, 0, imm, 0))
    ensures Bytes(UnaryCore(op, imm)) == UnaryBytes(op, imm)
  {
    hide Size, Bytes, FitsI8;
    var c := UnaryCore(op, imm);
    forall o: ImmOp, w: bool { ImmediateExact(o, w, RAX, imm); }
    forall s: ShiftOp, w: bool { GroupExact(s, MUL, w, RAX, imm % 0x100); }
    RegisterSizes(MOV, true, RAX, RAX, 0);
    if op.AluImm? { BytesOne(c[0]); }
    else if op.AluWImm? { BytesPair(c[0], c[1]); }
    else {
      SystemExact(SltCond(op.sltImmSigned));
      BytesTriple(c[0], c[1], c[2]);
      assert c == [c[0], c[1], c[2]];
    }
  }

  lemma MulExact(op: Ir.MulOp)
    ensures Bytes(MulCore(op)) == MulBytes(op)
  {
    hide Size, Bytes;
    var c := MulCore(op);
    RegisterExact(MOV, true, RAX, RCX); RegisterExact(MOV, false, RAX, RCX); RegisterExact(MOV, true, RAX, RDX);
    RegisterExact(MOV, true, RSI, RAX); RegisterExact(AND, true, RSI, RCX); RegisterExact(SUB, true, RDX, RSI);
    GroupExact(SAR, MUL, true, RCX, 0); GroupExact(SAR, IMUL, true, RCX, 0); GroupExact(SAR, IMUL, true, RSI, 63);
    RegisterSizes(MOV, true, RAX, RAX, 0);
    if op.Mul? { BytesOne(c[0]); }
    else if op.Mulhsu? {
      BytesTriple(c[0], c[1], c[2]); BytesTriple(c[3], c[4], c[5]);
      BytesConcat([c[0], c[1], c[2]], [c[3], c[4], c[5]]);
      assert c == [c[0], c[1], c[2]] + [c[3], c[4], c[5]];
    } else { BytesPair(c[0], c[1]); }
  }

  lemma ZeroCheckExact(signed: bool, word: bool, rem: bool)
    ensures Bytes(ZeroCheck(signed, word, rem)) == ZeroCheckBytes(word, rem)
  {
    hide Size, Bytes, OverflowCheck, Divide;
    var z := ZeroDivisorResult(word, rem);
    var c := ZeroCheck(signed, word, rem);
    RegisterExact(TEST, !word, RCX, RCX);
    RegisterSizes(MOV, true, RAX, RAX, TWO64 - 1);
    JumpSizes(NE, Local(|z| + 2));
    JumpSizes(NE, c[|c| - 1].to);
    BytesPair(c[0], c[1]); BytesOne(c[|c| - 1]);
    BytesEmpty();
    if |z| > 0 { BytesOne(z[0]); assert z == [z[0]]; }
    BytesConcat([c[0], c[1]], z);
    BytesConcat([c[0], c[1]] + z, [c[|c| - 1]]);
    assert c == [c[0], c[1]] + z + [c[|c| - 1]];
  }

  lemma OverflowCheckExact(word: bool, rem: bool)
    ensures Bytes(OverflowCheck(true, word, rem)) == OverflowCheckBytes(word, rem)
  {
    hide Size, Bytes, Divide;
    var m, o := CompareMin(word), OverflowResult(word, rem);
    var c := OverflowCheck(true, word, rem);
    var j, k := c[2 + |m|], c[|c| - 1];
    ImmediateExact(CMPI, !word, RCX, -1); ImmediateExact(CMPI, false, RAX, -TWO31);
    RegisterExact(CMP, true, RAX, RSI); RegisterExact(XOR, true, RAX, RAX);
    RegisterSizes(MOV, true, RSI, RAX, TWO63); RegisterSizes(MOV, true, RAX, RAX, 0);
    JumpSizes(NE, c[1].to); JumpSizes(NE, j.to); JumpSizes(NE, k.to);
    BytesPair(c[0], c[1]); BytesOne(j); BytesOne(k);
    BytesEmpty();
    if word { BytesOne(m[0]); assert m == [m[0]]; } else { BytesPair(m[0], m[1]); assert m == [m[0], m[1]]; }
    if |o| > 0 { BytesOne(o[0]); assert o == [o[0]]; }
    BytesConcat([c[0], c[1]], m);
    BytesConcat([c[0], c[1]] + m, [j]);
    BytesConcat([c[0], c[1]] + m + [j], o);
    BytesConcat([c[0], c[1]] + m + [j] + o, [k]);
    assert c == [c[0], c[1]] + m + [j] + o + [k];
  }

  lemma DivideExact(signed: bool, word: bool, rem: bool)
    ensures Bytes(Divide(signed, word, rem)) == DivideBytes(signed, word, rem)
  {
    hide Size, Bytes;
    var c := Divide(signed, word, rem);
    var r, s := When(rem, [MovRr(RAX, RDX)]), When(word, [SignExtendRax()]);
    RegisterExact(XOR, !word, RAX, RAX); RegisterExact(XOR, false, RDX, RDX); RegisterExact(MOV, true, RAX, RDX);
    GroupExact(SAR, IDIV, !word, RCX, 0); GroupExact(SAR, DIV, !word, RCX, 0);
    RegisterSizes(MOV, true, RAX, RAX, 0);
    BytesPair(c[0], c[1]);
    BytesEmpty(); BytesOne(MovRr(RAX, RDX)); BytesOne(SignExtendRax());
    BytesConcat([c[0], c[1]], r);
    BytesConcat([c[0], c[1]] + r, s);
    assert c == [c[0], c[1]] + r + s;
  }

  lemma DivExact(signed: bool, word: bool, rem: bool)
    ensures Bytes(DivCore(signed, word, rem)) == BinaryBytes(Ir.DivRem(signed, word, rem))
  {
    hide Bytes, ZeroCheck, Divide;
    var z, o, d := ZeroCheck(signed, word, rem), OverflowCheck(signed, word, rem), Divide(signed, word, rem);
    ZeroCheckExact(signed, word, rem);
    DivideExact(signed, word, rem);
    if signed { OverflowCheckExact(word, rem); } else { BytesEmpty(); assert o == []; }
    BytesConcat(z, o);
    BytesConcat(z + o, d);
  }

  // ---------------------------------------------------------------- the bounds checks

  lemma StackCheckExact(n: int, skip: nat)
    requires 0 < n <= 8
    ensures Bytes(StackCheck(n, skip)) == 26
  {
    hide Size, Off;
    var p := StackCheck(n, skip);
    ImmediateExact(CMPI, true, RCX, Ir.STACK_GUARD);
    ImmediateExact(ADDI, true, RDX, -n);
    RegisterExact(MOV, true, RDX, R13);
    RegisterExact(CMP, true, RDX, RCX);
    JumpSizes(B, Local(5)); JumpSizes(AE, Local(skip));
    BytesTriple(p[0], p[1], p[2]);
    BytesTriple(p[3], p[4], p[5]);
    BytesConcat([p[0], p[1], p[2]], [p[3], p[4], p[5]]);
    assert p == [p[0], p[1], p[2]] + [p[3], p[4], p[5]];
  }

  lemma DataCheckExact(e: Env, n: int, skip: nat)
    ensures Bytes(DataCheck(e, n, skip)) == if e.sp.dataSize != 0 then 56 else 0
  {
    hide Size, Off;
    var p := DataCheck(e, n, skip);
    if e.sp.dataSize == 0 { BytesEmpty(); return; }
    RegisterExact(CMP, true, RCX, RSI);
    RegisterExact(ADD, true, RCX, RSI);
    RegisterSizes(CMP, true, RSI, RSI, p[0].ins.imm64);
    RegisterSizes(CMP, true, RSI, RSI, p[3].ins.imm64);
    RegisterSizes(CMP, true, RSI, RSI, p[6].ins.imm64);
    JumpSizes(B, Local(7)); JumpSizes(A, Local(4)); JumpSizes(A, Local(skip));
    BytesTriple(p[0], p[1], p[2]);
    BytesTriple(p[3], p[4], p[5]);
    BytesTriple(p[6], p[7], p[8]);
    BytesConcat([p[0], p[1], p[2]], [p[3], p[4], p[5]]);
    BytesConcat([p[0], p[1], p[2]] + [p[3], p[4], p[5]], [p[6], p[7], p[8]]);
    assert p == [p[0], p[1], p[2]] + [p[3], p[4], p[5]] + [p[6], p[7], p[8]];
  }

  lemma TextCheckExact(store: bool, n: int)
    requires 0 < n <= 8
    ensures Bytes(TextCheck(store, n)) == if store then 5 else 42
  {
    hide Size, Off;
    var p := TextCheck(store, n);
    JumpSizes(B, Local(12)); JumpSizes(B, Local(8)); JumpSizes(B, Local(4)); JumpSizes(B, Local(3));
    if store { BytesOne(p[0]); return; }
    ImmediateExact(ADDI, true, RDX, -n);
    RegisterExact(CMP, true, RCX, RBX); RegisterExact(MOV, true, RDX, RBP); RegisterExact(CMP, true, RDX, RCX);
    RegisterExact(MOV, true, RDX, RCX); RegisterExact(SUB, true, RDX, RBX); RegisterExact(ADD, true, RDX, R12);
    RegisterExact(MOV, true, RCX, RDX);
    BytesTriple(p[0], p[1], p[2]); BytesTriple(p[3], p[4], p[5]); BytesTriple(p[6], p[7], p[8]); BytesPair(p[9], p[10]);
    BytesConcat([p[0], p[1], p[2]], [p[3], p[4], p[5]]);
    BytesConcat([p[6], p[7], p[8]], [p[9], p[10]]);
    BytesConcat([p[0], p[1], p[2]] + [p[3], p[4], p[5]], [p[6], p[7], p[8]] + [p[9], p[10]]);
    assert p == ([p[0], p[1], p[2]] + [p[3], p[4], p[5]]) + ([p[6], p[7], p[8]] + [p[9], p[10]]);
  }

  lemma ChecksExact(e: Env, store: bool, n: int, k: nat)
    requires 0 < n <= 8
    ensures Bytes(Checks(e, store, n, k)) == AccessBytes(e.sp.dataSize != 0, store)
  {
    hide Size, Off, StackCheck, DataCheck, TextCheck;
    var t := TextCheck(store, n);
    var d := DataCheck(e, n, |t| + 4);
    var s := StackCheck(n, 1 + |d| + |t|);
    var hit := StackHit();
    var f := [JmpTo(Stub(FaultOf(store), k))];
    StackCheckExact(n, 1 + |d| + |t|);
    DataCheckExact(e, n, |t| + 4);
    TextCheckExact(store, n);
    RegisterExact(ADD, true, RCX, R14);
    JumpSizes(B, Local(2)); JumpSizes(B, Stub(FaultOf(store), k));
    BytesPair(hit[0], hit[1]);
    BytesOne(f[0]);
    BytesConcat(s, d);
    BytesConcat(s + d, t);
    BytesConcat(s + d + t, hit);
    BytesConcat(s + d + t + hit, f);
  }

  lemma OffsetExact(imm: i32)
    ensures Bytes(AddOffset(imm)) == OffsetLength(imm)
  {
    hide Size, Off;
    if imm == 0 { BytesEmpty(); } else { ImmediateExact(ADDI, true, RCX, imm); BytesOne(Op(RImm(ADDI, true, RCX, imm))); }
  }

  // ---------------------------------------------------------------- bodies

  lemma LoadExact(e: Env, ins: Ir.Instr, k: nat)
    requires Ir.InstrOk(ins) && ins.op.Load?
    ensures Bytes(Body(e, ins, k)) == BodyBytes(e.sp.dataSize != 0, ins)
  {
    hide Size, Off, Checks, AddOffset, Slot, OffsetLength;
    var n := Ir.LoadBytes(ins.op.load);
    var l, a, c := [LoadReg(RCX, ins.rs1)], AddOffset(ins.imm), Checks(e, false, n, k);
    var m, s := [Op(LoadM(ins.op.load, RAX, RCX, 0))], [StoreReg(ins.rd, RAX)];
    SlotExact(RCX, ins.rs1); SlotExact(RAX, ins.rd);
    OffsetExact(ins.imm);
    ChecksExact(e, false, n, k);
    AccessExact(ins.op.load, Ir.St8);
    BytesOne(m[0]);
    BytesConcat(a, c); BytesConcat(a + c, m); BytesConcat(l, a + c + m); BytesConcat(l + (a + c + m), s);
    assert Body(e, ins, k) == l + (a + c + m) + s;
  }

  lemma StoreExact(e: Env, ins: Ir.Instr, k: nat)
    requires Ir.InstrOk(ins) && ins.op.Store?
    ensures Bytes(Body(e, ins, k)) == BodyBytes(e.sp.dataSize != 0, ins)
  {
    hide Size, Off, Checks, AddOffset, Slot, OffsetLength;
    var n := Ir.StoreBytes(ins.op.store);
    var l, a, c := [LoadReg(RCX, ins.rs1), LoadReg(RAX, ins.rs2)], AddOffset(ins.imm), Checks(e, true, n, k);
    var m := [Op(StoreM(ins.op.store, RCX, 0, RAX))];
    SlotExact(RCX, ins.rs1); SlotExact(RAX, ins.rs2);
    BytesPair(l[0], l[1]);
    OffsetExact(ins.imm);
    ChecksExact(e, true, n, k);
    AccessExact(Ir.L8, ins.op.store);
    BytesOne(m[0]);
    BytesConcat(a, c); BytesConcat(a + c, m); BytesConcat(l, a + c + m);
    assert Body(e, ins, k) == l + (a + c + m);
  }

  lemma BinaryExact(e: Env, ins: Ir.Instr, k: nat)
    requires Ir.InstrOk(ins) && IsBinary(ins.op)
    ensures Bytes(Body(e, ins, k)) == BodyBytes(e.sp.dataSize != 0, ins)
  {
    hide Size, Off, Slot, DivCore, MulCore, AluCore, AluWCore, SltCore;
    var l, c, s := [LoadReg(RAX, ins.rs1), LoadReg(RCX, ins.rs2)], BinaryCore(ins.op), [StoreReg(ins.rd, RAX)];
    SlotExact(RAX, ins.rs1); SlotExact(RCX, ins.rs2); SlotExact(RAX, ins.rd);
    BytesPair(l[0], l[1]);
    if ins.op.DivRem? { DivExact(ins.op.signed, ins.op.word, ins.op.rem); }
    else if ins.op.MulOp? { MulExact(ins.op.mul); }
    else { AluExact(ins.op); }
    BytesConcat(l, c); BytesConcat(l + c, s);
    assert Body(e, ins, k) == l + c + s;
  }

  lemma UnaryBodyExact(e: Env, ins: Ir.Instr, k: nat)
    requires Ir.InstrOk(ins) && IsUnary(ins.op)
    ensures Bytes(Body(e, ins, k)) == BodyBytes(e.sp.dataSize != 0, ins)
  {
    hide Size, Off, Slot, AluImmCore, AluWImmCore, SltImmCore, UnaryBytes;
    var l, c, s := [LoadReg(RAX, ins.rs1)], UnaryCore(ins.op, ins.imm), [StoreReg(ins.rd, RAX)];
    SlotExact(RAX, ins.rs1); SlotExact(RAX, ins.rd);
    UnaryExact(ins.op, ins.imm);
    BytesConcat(l, c); BytesConcat(l + c, s);
    assert Body(e, ins, k) == l + c + s;
  }

  lemma JalrExact(ins: Ir.Instr)
    requires Ir.InstrOk(ins) && ins.op.Jalr?
    ensures Bytes(JalrBody(ins)) == BodyBytes(false, ins)
  {
    hide Size, Off, Slot;
    var c := JalrBody(ins);
    var l := [Op(MovImm(RCX, W64(ins.pc + 4))), StoreReg(ins.rd, RCX)];
    var w := When(ins.rd != 0, l);
    var a, z := [c[0], c[1], c[2]], [StorePc(RAX), JmpTo(Epilogue)];
    SlotExact(RAX, ins.rs1); SlotExact(RCX, ins.rd);
    ImmediateExact(ADDI, true, RAX, ins.imm); ImmediateExact(ANDI, true, RAX, -2);
    RegisterSizes(MOV, true, RCX, RAX, W64(ins.pc + 4));
    AccessExact(Ir.L8, Ir.St8);
    JumpSizes(B, Epilogue);
    BytesTriple(c[0], c[1], c[2]); BytesPair(l[0], l[1]); BytesPair(z[0], z[1]); BytesEmpty();
    BytesConcat(a, w); BytesConcat(a + w, z);
    assert c == a + w + z;
  }

  lemma FuelExact(k: nat)
    ensures Bytes(FuelCheck(k)) == 27
  {
    hide Size, Off;
    var c := FuelCheck(k);
    AccessExact(Ir.L8, Ir.St8);
    ImmediateExact(ADDI, true, RAX, -1);
    RegisterExact(TEST, true, RAX, RAX);
    JumpSizes(LE, Stub(Ir.Timeout, k));
    BytesTriple(c[0], c[1], c[2]); BytesPair(c[3], c[4]);
    BytesConcat([c[0], c[1], c[2]], [c[3], c[4]]);
    assert c == [c[0], c[1], c[2]] + [c[3], c[4]];
  }

  lemma EcallExact(e: Env)
    ensures Bytes(EcallBody(e)) == 24
  {
    hide Size, Off;
    var c := EcallBody(e);
    SystemExact(E);
    RegisterSizes(MOV, true, RDI, RAX, e.jitAt); RegisterSizes(MOV, true, RAX, RAX, e.ecallAt);
    BytesTriple(c[0], c[1], c[2]); BytesPair(c[3], c[4]);
    BytesConcat([c[0], c[1], c[2]], [c[3], c[4]]);
    assert c == [c[0], c[1], c[2]] + [c[3], c[4]];
  }

  lemma BranchExact(e: Env, ins: Ir.Instr, k: nat)
    requires Ir.InstrOk(ins) && (ins.op.Branch? || ins.op.Beqz? || ins.op.Jmp? || ins.op.JmpReg?)
    ensures Bytes(Body(e, ins, k)) == BodyBytes(e.sp.dataSize != 0, ins)
  {
    hide Size, Off, Slot;
    var c := Body(e, ins, k);
    SlotExact(RAX, ins.rs1); SlotExact(RCX, ins.rs2);
    RegisterExact(CMP, true, RAX, RCX); RegisterExact(TEST, true, RAX, RAX);
    AccessExact(Ir.L8, Ir.St8);
    JumpSizes(E, GuestPc(W64(ins.imm))); JumpSizes(E, Epilogue);
    if ins.op.Branch? {
      JumpSizes(BranchCode(ins.op.cond), GuestPc(W64(ins.imm)));
      BytesPair(c[0], c[1]); BytesPair(c[2], c[3]);
      BytesConcat([c[0], c[1]], [c[2], c[3]]);
      assert c == [c[0], c[1]] + [c[2], c[3]];
    } else if ins.op.Jmp? { BytesOne(c[0]); }
    else { BytesTriple(c[0], c[1], c[2]); }
  }

  lemma PlainExact(e: Env, ins: Ir.Instr, k: nat)
    requires Ir.InstrOk(ins) && (ins.op.Mov? || ins.op.Li? || ins.op.Ebreak? || ins.op.Ud2? || ins.op.Nop?)
    ensures Bytes(Body(e, ins, k)) == BodyBytes(e.sp.dataSize != 0, ins)
  {
    hide Size, Off, Slot;
    var c := Body(e, ins, k);
    SlotExact(RAX, ins.rs2); SlotExact(RAX, ins.rd);
    RegisterSizes(MOV, true, RAX, RAX, W64(ins.imm));
    ControlSizes(RAX);
    BytesEmpty();
    if ins.op.Mov? || ins.op.Li? { BytesPair(c[0], c[1]); } else if !ins.op.Nop? { BytesOne(c[0]); }
  }

  /** The table is exact. */
  lemma LowerExact(e: Env, ins: Ir.Instr, k: nat)
    requires Ir.InstrOk(ins)
    ensures Bytes(Lower(e, ins, k)) == OpBytes(e.sp.dataSize != 0, ins)
  {
    hide Bytes, BodyBytes, Body;
    ZeroX0Exact();
    var b := Body(e, ins, k);
    BytesConcat(ZeroX0(), b);
    if Ir.Discarded(ins) { assert Lower(e, ins, k) == ZeroX0(); } else { BodyExact(e, ins, k); }
  }

  lemma BodyExact(e: Env, ins: Ir.Instr, k: nat)
    requires Ir.InstrOk(ins)
    ensures Bytes(Body(e, ins, k)) == BodyBytes(e.sp.dataSize != 0, ins)
  {
    hide Bytes, JalrBody, FuelCheck, EcallBody, LoadCore, StoreCore, BinaryCore, UnaryCore, AccessBytes, OffsetLength, Slot, WithImm, BinaryBytes, UnaryBytes;
    if IsBinary(ins.op) { BinaryExact(e, ins, k); }
    else if IsUnary(ins.op) { UnaryBodyExact(e, ins, k); }
    else if ins.op.Load? { LoadExact(e, ins, k); }
    else if ins.op.Store? { StoreExact(e, ins, k); }
    else if ins.op.Jalr? { JalrExact(ins); }
    else if ins.op.FuelCheck? { FuelExact(k); }
    else if ins.op.Ecall? { EcallExact(e); }
    else if ins.op.Branch? || ins.op.Beqz? || ins.op.Jmp? || ins.op.JmpReg? { BranchExact(e, ins, k); }
    else { PlainExact(e, ins, k); }
  }

  /** One operation never takes more than the room that is checked for it. */
  lemma LowerBytes(e: Env, ins: Ir.Instr, k: nat)
    requires Ir.InstrOk(ins)
    ensures Bytes(Lower(e, ins, k)) <= 224
  {
    hide Bytes, Lower;
    LowerExact(e, ins, k);
  }
}
