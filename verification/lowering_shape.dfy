/** The emitted code can be laid out: every instruction is one the decoder reads back, local
    jumps stay inside the operation, and fault jumps name the operation's own stub. */
module LoweringShape {
  import opened Words
  import opened X86
  import opened Snippet
  import opened Lowering
  import opened X86Encoding
  import opened Assembler
  import opened Execution
  import opened Program
  import opened Reference
  import Ir

  /** Labels an operation may use. A local jump may reach at most slack items past the piece. */
  predicate LabelFits(l: Label, j: nat, n: int, ins: Ir.Instr, k: nat)
  {
    match l
    case Local(d) => d > 0 && j + d <= n
    case Stub(kind, m) => kind == KindOf(ins) && m == k && Records(ins, kind)
    case _ => true
  }

  ghost predicate Fits(piece: seq<Item>, slack: nat, ins: Ir.Instr, k: nat)
  {
    forall j | 0 <= j < |piece| ::
      GoodItem(piece[j]) && (IsJump(piece[j]) ==> LabelFits(piece[j].to, j, |piece| + slack, ins, k))
  }

  lemma FitsConcat(a: seq<Item>, b: seq<Item>, slackA: nat, slackB: nat, ins: Ir.Instr, k: nat)
    requires Fits(a, slackA, ins, k) && Fits(b, slackB, ins, k) && slackA <= |b| + slackB
    ensures Fits(a + b, slackB, ins, k)
  {
    hide GoodItem;
    forall j | 0 <= j < |a + b|
      ensures GoodItem((a + b)[j]) &&
              (IsJump((a + b)[j]) ==> LabelFits((a + b)[j].to, j, |a + b| + slackB, ins, k))
    {
      if j >= |a| { assert (a + b)[j] == b[j - |a|]; }
    }
  }

  ghost predicate NoJumps(piece: seq<Item>)
  {
    forall j | 0 <= j < |piece| :: GoodItem(piece[j]) && piece[j].Op?
  }

  lemma StraightFits(piece: seq<Item>, ins: Ir.Instr, k: nat)
    requires NoJumps(piece)
    ensures Fits(piece, 0, ins, k)
  {
    hide GoodItem;
  }

  lemma CoresStraight(ins: Ir.Instr)
    ensures ins.op.Alu? ==> NoJumps(AluCore(ins.op.alu))
    ensures ins.op.AluW? ==> NoJumps(AluWCore(ins.op.aluw))
    ensures ins.op.Slt? ==> NoJumps(SltCore(ins.op.sltSigned))
    ensures ins.op.MulOp? ==> NoJumps(MulCore(ins.op.mul))
    ensures IsUnary(ins.op) && Ir.InstrOk(ins) ==> NoJumps(UnaryCore(ins.op, ins.imm))
  {
  }

  lemma DivFits(signed: bool, word: bool, rem: bool, ins: Ir.Instr, k: nat)
    ensures Fits(DivCore(signed, word, rem), 0, ins, k)
  {
    var z, o, d := ZeroCheck(signed, word, rem), OverflowCheck(signed, word, rem), Divide(signed, word, rem);
    DivPiecesFit(signed, word, rem, ins, k);
    hide Fits, ZeroCheck, OverflowCheck, Divide;
    FitsConcat(z, o, |o| + |d|, |d|, ins, k);
    FitsConcat(z + o, d, |d|, 0, ins, k);
  }

  lemma DivPiecesFit(signed: bool, word: bool, rem: bool, ins: Ir.Instr, k: nat)
    ensures Fits(ZeroCheck(signed, word, rem), |OverflowCheck(signed, word, rem)| + |Divide(signed, word, rem)|, ins, k)
    ensures Fits(OverflowCheck(signed, word, rem), |Divide(signed, word, rem)|, ins, k)
    ensures Fits(Divide(signed, word, rem), 0, ins, k)
  {
    ZeroCheckFits(signed, word, rem, ins, k);
    OverflowCheckFits(signed, word, rem, ins, k);
    DivideFits(signed, word, rem, ins, k);
  }

  lemma ZeroCheckFits(signed: bool, word: bool, rem: bool, ins: Ir.Instr, k: nat)
    ensures Fits(ZeroCheck(signed, word, rem), |OverflowCheck(signed, word, rem)| + |Divide(signed, word, rem)|, ins, k)
  {
    hide OverflowCheck, Divide;
  }

  lemma OverflowCheckFits(signed: bool, word: bool, rem: bool, ins: Ir.Instr, k: nat)
    ensures Fits(OverflowCheck(signed, word, rem), |Divide(signed, word, rem)|, ins, k)
  {
    hide Divide;
  }

  lemma DivideFits(signed: bool, word: bool, rem: bool, ins: Ir.Instr, k: nat)
    ensures Fits(Divide(signed, word, rem), 0, ins, k)
  {
    StraightFits(Divide(signed, word, rem), ins, k);
  }

  lemma ChecksFit(e: Env, store: bool, n: int, ins: Ir.Instr, k: nat)
    requires 0 < n <= 8 && Records(ins, FaultOf(store)) && KindOf(ins) == FaultOf(store)
    ensures Fits(Checks(e, store, n, k), 0, ins, k)
  {
    var t := TextCheck(store, n);
    var d := DataCheck(e, n, |t| + 4);
    var s := StackCheck(n, 1 + |d| + |t|);
    var tail := [JmpTo(Stub(FaultOf(store), k))];
    var hit := StackHit();
    ChecksPiecesFit(e, store, n, |t| + 4, 1 + |d| + |t|, ins, k);
    assert |s| == 6;
    hide Fits, TextCheck, DataCheck, StackCheck, StackHit;
    FitsConcat(hit, tail, 1, 0, ins, k);
    FitsConcat(t, hit + tail, 3, 0, ins, k);
    FitsConcat(d, t + (hit + tail), |t| + 3, 0, ins, k);
    FitsConcat(s, d + (t + (hit + tail)), |d| + |t|, 0, ins, k);
    assert Checks(e, store, n, k) == s + (d + (t + (hit + tail)));
  }

  lemma ChecksPiecesFit(e: Env, store: bool, n: int, toAccess: nat, toHit: nat, ins: Ir.Instr, k: nat)
    requires 0 < n <= 8 && Records(ins, FaultOf(store)) && KindOf(ins) == FaultOf(store)
    requires toAccess > 0 && toHit > 0
    ensures Fits(StackHit(), 1, ins, k) && |StackHit()| == 2
    ensures Fits([JmpTo(Stub(FaultOf(store), k))], 0, ins, k)
    ensures Fits(TextCheck(store, n), 3, ins, k)
    ensures Fits(DataCheck(e, n, toAccess), toAccess - 1, ins, k)
    ensures Fits(StackCheck(n, toHit), toHit - 1, ins, k)
  {
  }

  /** The pieces around the core of an operation. */
  lemma EdgesFit(e: Env, ins: Ir.Instr, k: nat)
    requires Ir.InstrOk(ins)
    ensures Fits(ZeroX0(), 0, ins, k) && Fits(LoadOperands(ins.rs1, ins.rs2), 0, ins, k)
    ensures Fits([LoadReg(RAX, ins.rs1)], 0, ins, k) && Fits([LoadReg(RCX, ins.rs1)], 0, ins, k)
    ensures Fits([StoreReg(ins.rd, RAX)], 0, ins, k)
    ensures Fits([LoadReg(RCX, ins.rs1), LoadReg(RAX, ins.rs2)], 0, ins, k)
  {
  }

  lemma BinaryFits(e: Env, ins: Ir.Instr, k: nat)
    requires Ir.InstrOk(ins) && IsBinary(ins.op)
    ensures Fits(Body(e, ins, k), 0, ins, k)
  {
    var l, c, s := LoadOperands(ins.rs1, ins.rs2), BinaryCore(ins.op), [StoreReg(ins.rd, RAX)];
    assert Body(e, ins, k) == l + c + s;
    EdgesFit(e, ins, k);
    CoresStraight(ins);
    if ins.op.DivRem? { DivFits(ins.op.signed, ins.op.word, ins.op.rem, ins, k); }
    else { StraightFits(c, ins, k); }
    hide Fits;
    FitsConcat(l, c, 0, 0, ins, k);
    FitsConcat(l + c, s, 0, 0, ins, k);
  }

  lemma UnaryFits(e: Env, ins: Ir.Instr, k: nat)
    requires Ir.InstrOk(ins) && IsUnary(ins.op)
    ensures Fits(Body(e, ins, k), 0, ins, k)
  {
    var l, c, s := [LoadReg(RAX, ins.rs1)], UnaryCore(ins.op, ins.imm), [StoreReg(ins.rd, RAX)];
    assert Body(e, ins, k) == l + c + s;
    EdgesFit(e, ins, k);
    CoresStraight(ins);
    StraightFits(c, ins, k);
    hide Fits;
    FitsConcat(l, c, 0, 0, ins, k);
    FitsConcat(l + c, s, 0, 0, ins, k);
  }

  lemma AccessPieces(ins: Ir.Instr, k: nat)
    requires Ir.InstrOk(ins) && (ins.op.Load? || ins.op.Store?)
    ensures Fits(AddOffset(ins.imm), 0, ins, k)
    ensures ins.op.Load? ==> Fits([Op(LoadM(ins.op.load, RAX, RCX, 0))], 0, ins, k)
    ensures ins.op.Store? ==> Fits([Op(StoreM(ins.op.store, RCX, 0, RAX))], 0, ins, k)
  {
  }

  lemma LoadFits(e: Env, ins: Ir.Instr, k: nat)
    requires Ir.InstrOk(ins) && ins.op.Load? && !Ir.Discarded(ins)
    ensures Fits(Body(e, ins, k), 0, ins, k)
  {
    var n := Ir.LoadBytes(ins.op.load);
    var l, a, c := [LoadReg(RCX, ins.rs1)], AddOffset(ins.imm), Checks(e, false, n, k);
    var m, s := [Op(LoadM(ins.op.load, RAX, RCX, 0))], [StoreReg(ins.rd, RAX)];
    EdgesFit(e, ins, k);
    AccessPieces(ins, k);
    ChecksFit(e, false, n, ins, k);
    hide Fits, Checks, AddOffset;
    assert Body(e, ins, k) == l + (a + c + m) + s;
    FitsConcat(a, c, 0, 0, ins, k);
    FitsConcat(a + c, m, 0, 0, ins, k);
    FitsConcat(l, a + c + m, 0, 0, ins, k);
    FitsConcat(l + (a + c + m), s, 0, 0, ins, k);
  }

  lemma StoreFits(e: Env, ins: Ir.Instr, k: nat)
    requires Ir.InstrOk(ins) && ins.op.Store?
    ensures Fits(Body(e, ins, k), 0, ins, k)
  {
    var n := Ir.StoreBytes(ins.op.store);
    var l, a, c := [LoadReg(RCX, ins.rs1), LoadReg(RAX, ins.rs2)], AddOffset(ins.imm), Checks(e, true, n, k);
    var m := [Op(StoreM(ins.op.store, RCX, 0, RAX))];
    EdgesFit(e, ins, k);
    AccessPieces(ins, k);
    ChecksFit(e, true, n, ins, k);
    hide Fits, Checks, AddOffset;
    assert Body(e, ins, k) == l + (a + c + m);
    FitsConcat(a, c, 0, 0, ins, k);
    FitsConcat(a + c, m, 0, 0, ins, k);
    FitsConcat(l, a + c + m, 0, 0, ins, k);
  }

  lemma OtherFits(e: Env, ins: Ir.Instr, k: nat)
    requires Ir.InstrOk(ins) && !IsBinary(ins.op) && !IsUnary(ins.op) && !ins.op.Load? && !ins.op.Store?
    ensures Fits(Body(e, ins, k), 0, ins, k)
  {
    hide Encode, Le;
  }

  /** All the code of one operation fits its place. */
  lemma LowerFits(e: Env, ins: Ir.Instr, k: nat)
    requires Ir.InstrOk(ins)
    ensures Fits(Lower(e, ins, k), 0, ins, k)
  {
    hide Body, Fits;
    EdgesFit(e, ins, k);
    if Ir.Discarded(ins) {
      assert Lower(e, ins, k) == ZeroX0();
    } else {
      if IsBinary(ins.op) { BinaryFits(e, ins, k); }
      else if IsUnary(ins.op) { UnaryFits(e, ins, k); }
      else if ins.op.Load? { LoadFits(e, ins, k); }
      else if ins.op.Store? { StoreFits(e, ins, k); }
      else { OtherFits(e, ins, k); }
      FitsConcat(ZeroX0(), Body(e, ins, k), 0, 0, ins, k);
    }
  }

  // ---------------------------------------------------------------- the whole program

  /** Item j of the program can be laid out and its label has a place in the program. */
  ghost predicate WellPlaced(e: Env, irs: seq<Ir.Instr>, j: nat, i: Item)
    requires Compilable(e, irs)
  {
    GoodItem(i) && (IsJump(i) ==> Place(e, irs, j, i.to) <= |Items(e, irs)|)
  }

  lemma StartBound(e: Env, irs: seq<Ir.Instr>, i: nat)
    requires Compilable(e, irs) && i <= |irs|
    ensures Start(e, irs, i) <= Epi(e, irs) && Epi(e, irs) + 7 <= |Items(e, irs)|
  {
    hide Items, Bodies;
    PartSlices(e, irs);
    if i < |irs| { BodySlice(e, irs, i); }
  }

  /** Where operation i starts, in bytes. */
  ghost function CodeAt(e: Env, irs: seq<Ir.Instr>, i: nat): nat
    requires Compilable(e, irs) && i <= |irs|
  {
    StartBound(e, irs, i);
    Off(Items(e, irs), Start(e, irs, i))
  }

  lemma StubBound(e: Env, irs: seq<Ir.Instr>, kind: Ir.FaultKind, k: nat)
    requires Compilable(e, irs) && k < Count(irs, kind, |irs|)
    ensures StubStart(e, irs, kind) + 5 * k <= |Items(e, irs)|
  {
    hide Items, Stubs;
    StubsPart(e, irs, kind);
  }

  lemma BodyPlaced(e: Env, irs: seq<Ir.Instr>, i: nat, j: nat)
    requires Compilable(e, irs) && i < |irs| && j < |LowerAt(e, irs, i)|
    ensures WellPlaced(e, irs, Start(e, irs, i) + j, LowerAt(e, irs, i)[j])
  {
    hide Items, Lower, GoodItem, Bodies, StubStart;
    var ins := irs[i];
    var k := Count(irs, KindOf(ins), i);
    var it := LowerAt(e, irs, i)[j];
    LowerFits(e, ins, k);
    BodySlice(e, irs, i);
    if IsJump(it) {
      match it.to
      case Local(_) =>
      case GuestPc(pc) => StartBound(e, irs, FirstAt(irs, pc, 0)); StartBound(e, irs, |irs|);
      case Epilogue => StartBound(e, irs, |irs|);
      case Stub(kind, m) =>
        CountMonotone(irs, kind, i + 1, |irs|);
        StubBound(e, irs, kind, m);
    }
  }
}
