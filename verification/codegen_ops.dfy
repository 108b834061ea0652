/** The emission of each IR operation. */
module CodeGenOps {
  import opened Words
  import opened X86
  import opened Snippet
  import opened Lowering
  import opened Assembler
  import opened Emitter
  import LoweringMemory
  import Ir

  // ---------------------------------------------------------------- registers

  method LoadGuestReg(jit: Jit, host: Reg, guest: nat)
    requires guest < 32 && jit.Valid() && jit.Next([LoadReg(host, guest)])
    modifies jit`k, jit.buf, jit.buf.data
    ensures jit.Valid() && jit.k == old(jit.k) + 1
  {
    hide jit.Valid;
    jit.Emit(LoadM(Ir.L64, host, R15, 8 * guest));
  }

  method StoreGuestReg(jit: Jit, guest: nat, host: Reg)
    requires guest < 32 && jit.Valid() && jit.Next([StoreReg(guest, host)])
    modifies jit`k, jit.buf, jit.buf.data
    ensures jit.Valid() && jit.k == old(jit.k) + 1
  {
    hide jit.Valid;
    jit.Emit(StoreM(Ir.St64, R15, 8 * guest, host));
  }

  method StoreCpuPc(jit: Jit, host: Reg)
    requires jit.Valid() && jit.Next([StorePc(host)])
    modifies jit`k, jit.buf, jit.buf.data
    ensures jit.Valid() && jit.k == old(jit.k) + 1
  {
    hide jit.Valid;
    jit.Emit(StoreM(Ir.St64, R15, OFF_PC, host));
  }

  method ZeroGuestZeroRegister(jit: Jit)
    requires jit.Valid() && jit.Next(ZeroX0())
    modifies jit`k, jit.buf, jit.buf.data
    ensures jit.Valid() && jit.k == old(jit.k) + 2
  {
    hide jit.Valid;
    jit.Emit(MovImm(RAX, 0));
    StoreGuestReg(jit, 0, RAX);
  }

  // ---------------------------------------------------------------- arithmetic

  method EmitAlu(jit: Jit, op: Ir.AluOp)
    requires jit.Valid() && jit.Next(AluCore(op))
    modifies jit`k, jit.buf, jit.buf.data
    ensures jit.Valid() && jit.k == old(jit.k) + |AluCore(op)|
  {
    hide jit.Valid;
    match op {
      case Add => jit.Emit(Rr(ADD, true, RAX, RCX));
      case Sub => jit.Emit(Rr(SUB, true, RAX, RCX));
      case Xor => jit.Emit(Rr(XOR, true, RAX, RCX));
      case Or => jit.Emit(Rr(OR, true, RAX, RCX));
      case And => jit.Emit(Rr(AND, true, RAX, RCX));
      case Sll => jit.Emit(ShiftCl(SHL, true, RAX));
      case Srl => jit.Emit(ShiftCl(SHR, true, RAX));
      case Sra => jit.Emit(ShiftCl(SAR, true, RAX));
    }
  }

  method EmitAluW(jit: Jit, op: Ir.AluWOp)
    requires jit.Valid() && jit.Next(AluWCore(op))
    modifies jit`k, jit.buf, jit.buf.data
    ensures jit.Valid() && jit.k == old(jit.k) + |AluWCore(op)|
  {
    hide jit.Valid;
    match op {
      case AddW => jit.Emit(Rr(ADD, false, RAX, RCX));
      case SubW => jit.Emit(Rr(SUB, false, RAX, RCX));
      case SllW => jit.Emit(ShiftCl(SHL, false, RAX));
      case SrlW => jit.Emit(ShiftCl(SHR, false, RAX));
      case SraW => jit.Emit(ShiftCl(SAR, false, RAX));
    }
    jit.Emit(Movsxd(RAX, RAX));
  }

  method EmitAluImm(jit: Jit, op: Ir.AluOp, imm: i32)
    requires jit.Valid() && jit.Next(AluImmCore(op, imm))
    modifies jit`k, jit.buf, jit.buf.data
    ensures jit.Valid() && jit.k == old(jit.k) + |AluImmCore(op, imm)|
  {
    hide jit.Valid;
    match op {
      case Add => jit.Emit(RImm(ADDI, true, RAX, imm));
      case Xor => jit.Emit(RImm(XORI, true, RAX, imm));
      case Or => jit.Emit(RImm(ORI, true, RAX, imm));
      case And => jit.Emit(RImm(ANDI, true, RAX, imm));
      case Sll => jit.Emit(ShiftImm(SHL, true, RAX, imm % 0x100));
      case Srl => jit.Emit(ShiftImm(SHR, true, RAX, imm % 0x100));
      case Sra => jit.Emit(ShiftImm(SAR, true, RAX, imm % 0x100));
      case Sub =>
    }
  }

  method EmitAluWImm(jit: Jit, op: Ir.AluWOp, imm: i32)
    requires jit.Valid() && jit.Next(AluWImmCore(op, imm))
    modifies jit`k, jit.buf, jit.buf.data
    ensures jit.Valid() && jit.k == old(jit.k) + |AluWImmCore(op, imm)|
  {
    hide jit.Valid;
    match op {
      case AddW =>
        jit.Emit(RImm(ADDI, false, RAX, imm));
        jit.Emit(Movsxd(RAX, RAX));
      case SllW =>
        jit.Emit(ShiftImm(SHL, false, RAX, imm % 0x100));
        jit.Emit(Movsxd(RAX, RAX));
      case SrlW =>
        jit.Emit(ShiftImm(SHR, false, RAX, imm % 0x100));
        jit.Emit(Movsxd(RAX, RAX));
      case SraW =>
        jit.Emit(ShiftImm(SAR, false, RAX, imm % 0x100));
        jit.Emit(Movsxd(RAX, RAX));
      case SubW =>
    }
  }

  method EmitSetRax(jit: Jit, c: Cond)
    requires jit.Valid() && jit.Next(SetRax(c))
    modifies jit`k, jit.buf, jit.buf.data
    ensures jit.Valid() && jit.k == old(jit.k) + 2
  {
    hide jit.Valid;
    jit.Emit(Setcc(c, Low(RAX)));
    jit.Emit(MovzxB(RAX, RAX));
  }

  method EmitCompareReg(jit: Jit, signed: bool)
    requires jit.Valid() && jit.Next(SltCore(signed))
    modifies jit`k, jit.buf, jit.buf.data
    ensures jit.Valid() && jit.k == old(jit.k) + 3
  {
    hide jit.Valid;
    jit.Emit(Rr(CMP, true, RAX, RCX));
    EmitSetRax(jit, if signed then L else B);
  }

  method EmitCompareImm(jit: Jit, signed: bool, imm: i32)
    requires jit.Valid() && jit.Next(SltImmCore(signed, imm))
    modifies jit`k, jit.buf, jit.buf.data
    ensures jit.Valid() && jit.k == old(jit.k) + 3
  {
    hide jit.Valid;
    jit.Emit(RImm(CMPI, true, RAX, imm));
    EmitSetRax(jit, if signed then L else B);
  }

  method EmitMul(jit: Jit, op: Ir.MulOp)
    requires jit.Valid() && jit.Next(MulCore(op))
    modifies jit`k, jit.buf, jit.buf.data
    ensures jit.Valid() && jit.k == old(jit.k) + |MulCore(op)|
  {
    hide jit.Valid;
    match op {
      case Mul =>
        jit.Emit(Imul(true, RAX, RCX));
      case Mulw =>
        jit.Emit(Imul(false, RAX, RCX));
        jit.Emit(Movsxd(RAX, RAX));
      case Mulh =>
        jit.Emit(Grp3(IMUL, true, RCX));
        jit.Emit(Rr(MOV, true, RAX, RDX));
      case Mulhu =>
        jit.Emit(Grp3(MUL, true, RCX));
        jit.Emit(Rr(MOV, true, RAX, RDX));
      case Mulhsu =>
        jit.Emit(Rr(MOV, true, RSI, RAX));
        jit.Emit(Grp3(MUL, true, RCX));
        jit.Emit(ShiftImm(SAR, true, RSI, 63));
        jit.Emit(Rr(AND, true, RSI, RCX));
        jit.Emit(Rr(SUB, true, RDX, RSI));
        jit.Emit(Rr(MOV, true, RAX, RDX));
    }
  }

  // ---------------------------------------------------------------- division

  method EmitZeroCheck(jit: Jit, signed: bool, word: bool, rem: bool) returns (done: nat)
    requires jit.Valid() && jit.Next(ZeroCheck(signed, word, rem)) && jit.open == {}
    modifies jit`k, jit`tgt, jit`open, jit.buf, jit.buf.data
    ensures jit.Valid() && jit.k == old(jit.k) + |ZeroCheck(signed, word, rem)| && jit.open == {jit.k - 1}
    ensures IsJump(jit.plan[jit.k - 1]) && done == Hole(jit.plan, jit.k - 1)
  {
    hide jit.Valid, OverflowCheck, Divide;
    ghost var z := ZeroDivisorResult(word, rem);
    ghost var j := jit.k + 1;
    jit.Emit(Rr(TEST, !word, RCX, RCX));
    var nonzero := jit.EmitForward(Some(NE), |z| + 2);
    if rem {
      if word {
        jit.Emit(Movsxd(RAX, RAX));
      }
    } else {
      jit.Emit(MovImm(RAX, TWO64 - 1));
    }
    done := jit.EmitForward(None, 1 + |OverflowCheck(signed, word, rem)| + |Divide(signed, word, rem)|);
    jit.PatchHere(nonzero, j);
  }

  method EmitCompareMin(jit: Jit, word: bool)
    requires jit.Valid() && jit.Next(CompareMin(word))
    modifies jit`k, jit.buf, jit.buf.data
    ensures jit.Valid() && jit.k == old(jit.k) + |CompareMin(word)|
  {
    hide jit.Valid;
    if word {
      jit.Emit(RImm(CMPI, false, RAX, -TWO31));
    } else {
      jit.Emit(MovImm(RSI, TWO63));
      jit.Emit(Rr(CMP, true, RAX, RSI));
    }
  }

  method EmitOverflowResult(jit: Jit, word: bool, rem: bool)
    requires jit.Valid() && jit.Next(OverflowResult(word, rem))
    modifies jit`k, jit.buf, jit.buf.data
    ensures jit.Valid() && jit.k == old(jit.k) + |OverflowResult(word, rem)|
  {
    hide jit.Valid;
    if rem {
      jit.Emit(Rr(XOR, true, RAX, RAX));
    } else if word {
      jit.Emit(Movsxd(RAX, RAX));
    }
  }

  lemma OverflowParts(plan: seq<Item>, at: nat, word: bool, rem: bool)
    requires Stands(plan, at, OverflowCheck(true, word, rem))
    ensures var c, o := CompareMin(word), OverflowResult(word, rem);
            && |OverflowCheck(true, word, rem)| == |c| + |o| + 4
            && at + |c| + |o| + 4 <= |plan|
            && plan[at] == Op(RImm(CMPI, !word, RCX, -1)) && plan[at + 1] == JccTo(NE, Local(|c| + |o| + 3))
            && Stands(plan, at + 2, c) && plan[at + 2 + |c|] == JccTo(NE, Local(|o| + 2))
            && Stands(plan, at + 3 + |c|, o)
            && plan[at + 3 + |c| + |o|] == JmpTo(Local(1 + |Divide(true, word, rem)|))
  {
    hide Divide, CompareMin, OverflowResult, Stands;
    var c, o := CompareMin(word), OverflowResult(word, rem);
    var p: seq<Item> := [Op(RImm(CMPI, !word, RCX, -1)), JccTo(NE, Local(|c| + |o| + 3))];
    var q: seq<Item> := [JccTo(NE, Local(|o| + 2))];
    var r: seq<Item> := [JmpTo(Local(1 + |Divide(true, word, rem)|))];
    StandsSplit(plan, at, p + c + q + o, r);
    StandsSplit(plan, at, p + c + q, o);
    StandsSplit(plan, at, p + c, q);
    StandsSplit(plan, at, p, c);
    StandsTwo(plan, at, p[0], p[1]);
    StandsOne(plan, at + 2 + |c|, q[0]);
    StandsOne(plan, at + 3 + |c| + |o|, r[0]);
  }

  lemma StandsOne(plan: seq<Item>, at: nat, a: Item)
    requires Stands(plan, at, [a])
    ensures at < |plan| && plan[at] == a
  {
  }

  lemma StandsTwo(plan: seq<Item>, at: nat, a: Item, b: Item)
    requires Stands(plan, at, [a, b])
    ensures at + 1 < |plan| && plan[at] == a && plan[at + 1] == b
  {
  }

  method EmitOverflowCheck(jit: Jit, word: bool, rem: bool) returns (done: nat)
    requires jit.Valid() && jit.Next(OverflowCheck(true, word, rem))
    modifies jit`k, jit`tgt, jit`open, jit.buf, jit.buf.data
    ensures jit.Valid() && jit.k == old(jit.k) + |OverflowCheck(true, word, rem)| && jit.open == old(jit.open) + {jit.k - 1}
    ensures jit.k > old(jit.k) && IsJump(jit.plan[jit.k - 1]) && done == Hole(jit.plan, jit.k - 1)
  {
    hide jit.Valid, Divide, CompareMin, OverflowResult, OverflowCheck, Stands, Hole;
    ghost var c, o := CompareMin(word), OverflowResult(word, rem);
    ghost var k0 := jit.k;
    OverflowParts(jit.plan, k0, word, rem);
    jit.Emit(RImm(CMPI, !word, RCX, -1));
    var otherDivisor := jit.EmitForward(Some(NE), |c| + |o| + 3);
    EmitCompareMin(jit, word);
    ghost var j := jit.k;
    var otherDividend := jit.EmitForward(Some(NE), |o| + 2);
    EmitOverflowResult(jit, word, rem);
    done := jit.EmitForward(None, 1 + |Divide(true, word, rem)|);
    assert jit.open == old(jit.open) + {k0 + 1} + {j} + {jit.k - 1};
    jit.PatchHere(otherDivisor, k0 + 1);
    jit.PatchHere(otherDividend, j);
  }

  method EmitDivide(jit: Jit, signed: bool, word: bool, rem: bool)
    requires jit.Valid() && jit.Next(Divide(signed, word, rem))
    modifies jit`k, jit.buf, jit.buf.data
    ensures jit.Valid() && jit.k == old(jit.k) + |Divide(signed, word, rem)|
  {
    hide jit.Valid;
    if signed {
      jit.Emit(Cqo(!word));
      jit.Emit(Grp3(IDIV, !word, RCX));
    } else {
      jit.Emit(Rr(XOR, false, RDX, RDX));
      jit.Emit(Grp3(DIV, !word, RCX));
    }
    if rem {
      jit.Emit(Rr(MOV, true, RAX, RDX));
    }
    if word {
      jit.Emit(Movsxd(RAX, RAX));
    }
  }

  method EmitDivRem(jit: Jit, signed: bool, word: bool, rem: bool)
    requires jit.Valid() && jit.Next(DivCore(signed, word, rem)) && jit.open == {}
    modifies jit`k, jit`tgt, jit`open, jit.buf, jit.buf.data
    ensures jit.Valid() && jit.k == old(jit.k) + |DivCore(signed, word, rem)| && jit.open == {}
  {
    hide jit.Valid, Stands, ZeroCheck, OverflowCheck, Divide, Hole;
    StandsSplit(jit.plan, jit.k, ZeroCheck(signed, word, rem) + OverflowCheck(signed, word, rem), Divide(signed, word, rem));
    StandsSplit(jit.plan, jit.k, ZeroCheck(signed, word, rem), OverflowCheck(signed, word, rem));
    JumpsOver(jit.plan, jit.k, signed, word, rem);
    ghost var j, end := jit.k + |ZeroCheck(signed, word, rem)| - 1, jit.k + |DivCore(signed, word, rem)|;
    var doneZero := EmitZeroCheck(jit, signed, word, rem);
    assert j + jit.plan[j].to.skip == end;
    if signed {
      var doneOverflow := EmitOverflowCheck(jit, word, rem);
      ghost var j' := jit.k - 1;
      assert j' + jit.plan[j'].to.skip == end;
      assert jit.open == {j} + {j'} && j != j';
      EmitDivide(jit, signed, word, rem);
      jit.PatchHere(doneZero, j);
      jit.PatchHere(doneOverflow, j');
    } else {
      EmitDivide(jit, signed, word, rem);
      jit.PatchHere(doneZero, j);
    }
  }

  /** Both early exits of a division skip the rest of it. */
  lemma JumpsOver(plan: seq<Item>, at: nat, signed: bool, word: bool, rem: bool)
    requires Stands(plan, at, ZeroCheck(signed, word, rem))
    requires Stands(plan, at + |ZeroCheck(signed, word, rem)|, OverflowCheck(signed, word, rem))
    ensures var a, b, d := |ZeroCheck(signed, word, rem)|, |OverflowCheck(signed, word, rem)|, |Divide(signed, word, rem)|;
            a > 0 && plan[at + a - 1] == JmpTo(Local(1 + b + d)) &&
            if signed then b > 0 && plan[at + a + b - 1] == JmpTo(Local(1 + d)) else b == 0
  {
    hide Divide, CompareMin, OverflowResult, ZeroDivisorResult;
    var z := ZeroCheck(signed, word, rem);
    assert z[|z| - 1] == JmpTo(Local(1 + |OverflowCheck(signed, word, rem)| + |Divide(signed, word, rem)|)) by {
      hide OverflowCheck;
    }
    var o := OverflowCheck(signed, word, rem);
    assert signed ==> o[|o| - 1] == JmpTo(Local(1 + |Divide(signed, word, rem)|));
  }

  // ---------------------------------------------------------------- memory

  method EmitAddOffset(jit: Jit, imm: i32)
    requires jit.Valid() && jit.Next(AddOffset(imm))
    modifies jit`k, jit.buf, jit.buf.data
    ensures jit.Valid() && jit.k == old(jit.k) + |AddOffset(imm)|
  {
    hide jit.Valid;
    if imm != 0 {
      jit.Emit(RImm(ADDI, true, RCX, imm));
    }
  }

  method EmitStackCheck(jit: Jit, n: int, ghost toHit: nat) returns (hit: nat)
    requires 0 < n <= 8 && jit.Valid() && jit.Next(StackCheck(n, toHit)) && jit.open == {}
    modifies jit`k, jit`tgt, jit`open, jit.buf, jit.buf.data
    ensures jit.Valid() && jit.k == old(jit.k) + 6 && jit.open == {jit.k - 1}
    ensures jit.plan[jit.k - 1] == JccTo(AE, Local(toHit)) && hit == Hole(jit.plan, jit.k - 1)
  {
    hide jit.Valid, Hole;
    jit.Emit(RImm(CMPI, true, RCX, Ir.STACK_GUARD));
    ghost var j := jit.k;
    var low := jit.EmitForward(Some(B), 5);
    jit.Emit(Rr(MOV, true, RDX, R13));
    jit.Emit(RImm(ADDI, true, RDX, -n));
    jit.Emit(Rr(CMP, true, RDX, RCX));
    hit := jit.EmitForward(Some(AE), toHit);
    jit.PatchHere(low, j);
  }

  /** Emitted only if there is a data region. */
  method EmitDataCheck(jit: Jit, n: int, ghost toAccess: nat) returns (access: nat)
    requires jit.e.sp.dataSize != 0 && jit.Valid() && jit.Next(DataCheck(jit.e, n, toAccess))
    modifies jit`k, jit`tgt, jit`open, jit.buf, jit.buf.data
    ensures jit.Valid() && jit.k == old(jit.k) + 9 && jit.open == old(jit.open) + {jit.k - 1}
    ensures jit.plan[jit.k - 1] == JmpTo(Local(toAccess)) && access == Hole(jit.plan, jit.k - 1)
  {
    hide jit.Valid, Hole;
    var sp := jit.e.sp;
    ghost var k0 := jit.k;
    jit.Emit(MovImm(RSI, sp.dataAddr));
    jit.Emit(Rr(CMP, true, RCX, RSI));
    var low := jit.EmitForward(Some(B), 7);
    jit.Emit(MovImm(RSI, W64(sp.dataAddr + sp.dataSize - n)));
    jit.Emit(Rr(CMP, true, RCX, RSI));
    var high := jit.EmitForward(Some(A), 4);
    jit.Emit(MovImm(RSI, W64(jit.e.dataAt - sp.dataAddr)));
    jit.Emit(Rr(ADD, true, RCX, RSI));
    access := jit.EmitForward(None, toAccess);
    assert jit.open == old(jit.open) + {k0 + 2} + {k0 + 5} + {k0 + 8};
    jit.PatchHere(low, k0 + 2);
    jit.PatchHere(high, k0 + 5);
  }

  /** For a load: two jumps for an address outside the text, one for a hit. */
  method EmitTextCheck(jit: Jit, n: int) returns (below: nat, above: nat, access: nat)
    requires 0 < n <= 8 && jit.Valid() && jit.Next(TextCheck(false, n))
    modifies jit`k, jit`tgt, jit`open, jit.buf, jit.buf.data
    ensures jit.Valid() && jit.k == old(jit.k) + 11
    ensures jit.open == old(jit.open) + {jit.k - 10} + {jit.k - 6} + {jit.k - 1}
    ensures jit.plan[jit.k - 10] == JccTo(B, Local(12)) && below == Hole(jit.plan, jit.k - 10)
    ensures jit.plan[jit.k - 6] == JccTo(B, Local(8)) && above == Hole(jit.plan, jit.k - 6)
    ensures jit.plan[jit.k - 1] == JmpTo(Local(4)) && access == Hole(jit.plan, jit.k - 1)
  {
    hide jit.Valid, Hole;
    jit.Emit(Rr(CMP, true, RCX, RBX));
    below := jit.EmitForward(Some(B), 12);
    jit.Emit(Rr(MOV, true, RDX, RBP));
    jit.Emit(RImm(ADDI, true, RDX, -n));
    jit.Emit(Rr(CMP, true, RDX, RCX));
    above := jit.EmitForward(Some(B), 8);
    jit.Emit(Rr(MOV, true, RDX, RCX));
    jit.Emit(Rr(SUB, true, RDX, RBX));
    jit.Emit(Rr(ADD, true, RDX, R12));
    jit.Emit(Rr(MOV, true, RCX, RDX));
    access := jit.EmitForward(None, 4);
  }

  /** The parts of a bounds check, by position. */
  lemma ChecksParts(plan: seq<Item>, at: nat, e: Env, store: bool, n: int, f: nat)
    requires 0 < n <= 8 && Stands(plan, at, Checks(e, store, n, f))
    ensures var text := TextCheck(store, n);
            var data := DataCheck(e, n, |text| + 4);
            var hit := at + 6 + |data| + |text|;
            && Stands(plan, at, StackCheck(n, 1 + |data| + |text|)) && Stands(plan, at + 6, data)
            && Stands(plan, at + 6 + |data|, text) && Stands(plan, hit, StackHit()) && hit + 2 < |plan|
            && plan[hit] == Op(Rr(ADD, true, RCX, R14)) && plan[hit + 1] == JmpTo(Local(2))
            && plan[hit + 2] == JmpTo(Stub(FaultOf(store), f)) && |Checks(e, store, n, f)| == |data| + |text| + 9
  {
    hide StackCheck, DataCheck, TextCheck, Stands;
    var text := TextCheck(store, n);
    var data := DataCheck(e, n, |text| + 4);
    var stack := StackCheck(n, 1 + |data| + |text|);
    var hit := at + 6 + |data| + |text|;
    var fault: seq<Item> := [JmpTo(Stub(FaultOf(store), f))];
    LoweringMemory.StackCheckLength(n, 1 + |data| + |text|);
    StandsSplit(plan, at, stack + data + text + StackHit(), fault);
    StandsSplit(plan, at, stack + data + text, StackHit());
    StandsSplit(plan, at, stack + data, text);
    StandsSplit(plan, at, stack, data);
    StandsTwo(plan, hit, StackHit()[0], StackHit()[1]);
    StandsOne(plan, hit + 2, fault[0]);
  }

  lemma TextCheckLength(n: int)
    requires 0 < n <= 8
    ensures TextCheck(true, n) == [JmpTo(Local(3))] && |TextCheck(false, n)| == 11
  {
  }

  /** A hit on the stack: the host address, and a jump over the fault. */
  method EmitStackHit(jit: Jit, toHit: nat, ghost j: nat) returns (access: nat)
    requires jit.Valid() && jit.Next(StackHit()) && j in jit.open && j < |jit.plan| && IsJump(jit.plan[j])
    requires j < jit.k && jit.plan[j].to == Local(jit.k - j) && toHit == Hole(jit.plan, j)
    modifies jit`k, jit`tgt, jit`open, jit.buf, jit.buf.data
    ensures jit.Valid() && jit.k == old(jit.k) + 2 && jit.open == old(jit.open) - {j} + {jit.k - 1}
    ensures jit.plan[jit.k - 1] == JmpTo(Local(2)) && access == Hole(jit.plan, jit.k - 1)
  {
    hide jit.Valid, Hole, Off;
    jit.PatchHere(toHit, j);
    jit.Emit(Rr(ADD, true, RCX, R14));
    access := jit.EmitForward(None, 2);
  }

  /** The jump to the fault stub; at is its offset. */
  method EmitFaultJump(jit: Jit, store: bool, pc: u64) returns (at: nat)
    requires jit.Valid() && jit.k < jit.limit <= |jit.plan|
    requires store ==> jit.plan[jit.k] == JmpTo(Stub(Ir.Write, |jit.writeHoles|)) && |jit.writeHoles| < jit.capacity
    requires !store ==> jit.plan[jit.k] == JmpTo(Stub(Ir.Read, |jit.readHoles|)) && |jit.readHoles| < jit.capacity
    modifies jit`k, jit`readHoles, jit`readPcs, jit`writeHoles, jit`writePcs, jit.buf, jit.buf.data
    ensures jit.Valid() && jit.k == old(jit.k) + 1 <= |jit.plan| && at == Off(jit.plan, old(jit.k))
    ensures jit.Recorded() == (if store then old(jit.Recorded()).(writePcs := old(jit.writePcs) + [pc])
                               else old(jit.Recorded()).(readPcs := old(jit.readPcs) + [pc]))
  {
    hide Off, jit.Laid, jit.TablesOk, Links, Numbered;
    jit.NoOverflow();
    at := jit.buf.size;
    if store {
      jit.EmitWriteFaultJump(pc);
    } else {
      jit.EmitReadFaultJump(pc);
    }
  }

  /** The end of a store's checks: a miss, a hit on the stack, the fault jump. */
  method EmitStoreEnd(jit: Jit, pc: u64, toHit: nat, ghost j: nat)
    requires jit.Valid() && j in jit.open && j < jit.k && jit.k + 4 <= jit.limit <= |jit.plan|
    requires IsJump(jit.plan[j]) && jit.plan[j].to == Local(jit.k + 1 - j) && toHit == Hole(jit.plan, j)
    requires jit.plan[jit.k] == JmpTo(Local(3)) && Stands(jit.plan, jit.k + 1, StackHit())
    requires jit.plan[jit.k + 3] == JmpTo(Stub(Ir.Write, |jit.writeHoles|)) && |jit.writeHoles| < jit.capacity
    modifies jit`k, jit`tgt, jit`open, jit`writeHoles, jit`writePcs, jit`readHoles, jit`readPcs, jit.buf, jit.buf.data
    ensures jit.Valid() && jit.k == old(jit.k) + 4 && jit.open == old(jit.open) - {j}
    ensures jit.Recorded() == old(jit.Recorded()).(writePcs := old(jit.writePcs) + [pc])
  {
    hide jit.Valid, Hole, Off, Stands;
    ghost var k0 := jit.k;
    jit.OpenBelow();
    var missed := jit.EmitForward(None, 3);
    var stackAccess := EmitStackHit(jit, toHit, j);
    var faultAt := EmitFaultJump(jit, true, pc);
    assert jit.open == old(jit.open) + {k0} - {j} + {k0 + 2};
    jit.PatchLocal(missed, faultAt, k0);
    jit.PatchHere(stackAccess, k0 + 2);
    assert jit.open == old(jit.open) - {j};
  }

  /** The end of a load's checks: the text, a hit on the stack, the fault jump. */
  method EmitLoadEnd(jit: Jit, n: int, pc: u64, toHit: nat, ghost j: nat)
    requires 0 < n <= 8 && jit.Valid() && j in jit.open && j < jit.k && jit.k + 14 <= jit.limit <= |jit.plan|
    requires IsJump(jit.plan[j]) && jit.plan[j].to == Local(jit.k + 11 - j) && toHit == Hole(jit.plan, j)
    requires jit.Next(TextCheck(false, n)) && Stands(jit.plan, jit.k + 11, StackHit())
    requires jit.plan[jit.k + 13] == JmpTo(Stub(Ir.Read, |jit.readHoles|)) && |jit.readHoles| < jit.capacity
    modifies jit`k, jit`tgt, jit`open, jit`writeHoles, jit`writePcs, jit`readHoles, jit`readPcs, jit.buf, jit.buf.data
    ensures jit.Valid() && jit.k == old(jit.k) + 14 && jit.open == old(jit.open) - {j}
    ensures jit.Recorded() == old(jit.Recorded()).(readPcs := old(jit.readPcs) + [pc])
  {
    hide jit.Valid, Hole, Off, Stands, TextCheck;
    ghost var k0 := jit.k;
    jit.OpenBelow();
    var below, above, textAccess := EmitTextCheck(jit, n);
    var stackAccess := EmitStackHit(jit, toHit, j);
    var faultAt := EmitFaultJump(jit, false, pc);
    assert jit.open == old(jit.open) + {k0 + 1} + {k0 + 5} + {k0 + 10} - {j} + {k0 + 12};
    jit.PatchLocal(below, faultAt, k0 + 1);
    jit.PatchLocal(above, faultAt, k0 + 5);
    jit.PatchHere(textAccess, k0 + 10);
    jit.PatchHere(stackAccess, k0 + 12);
    assert jit.open == old(jit.open) - {j};
  }

  /** Stack and data region; a hit on the data jumps past everything that follows. */
  method EmitRegionChecks(jit: Jit, n: int, ghost toHit: nat, ghost toAccess: nat) returns (hit: nat, access: Option<nat>)
    requires 0 < n <= 8 && jit.Valid() && jit.Next(StackCheck(n, toHit)) && jit.open == {}
    requires Stands(jit.plan, jit.k + 6, DataCheck(jit.e, n, toAccess))
    requires jit.k + 6 + |DataCheck(jit.e, n, toAccess)| <= jit.limit <= |jit.plan|
    modifies jit`k, jit`tgt, jit`open, jit.buf, jit.buf.data
    ensures jit.Valid() && jit.k == old(jit.k) + 6 + |DataCheck(jit.e, n, toAccess)|
    ensures jit.plan[old(jit.k) + 5] == JccTo(AE, Local(toHit)) && hit == Hole(jit.plan, old(jit.k) + 5)
    ensures access.None? ==> jit.open == {old(jit.k) + 5}
    ensures access.Some? ==> jit.open == {old(jit.k) + 5, jit.k - 1} && jit.k == old(jit.k) + 15 &&
                             jit.plan[jit.k - 1] == JmpTo(Local(toAccess)) && access.value == Hole(jit.plan, jit.k - 1)
  {
    hide jit.Valid, Hole, Off, Stands, DataCheck, StackCheck;
    LoweringMemory.DataCheckLength(jit.e, n, toAccess);
    hit := EmitStackCheck(jit, n, toHit);
    access := None;
    if jit.e.sp.dataSize != 0 {
      var hole := EmitDataCheck(jit, n, toAccess);
      access := Some(hole);
    }
  }

  /** The bounds checks of an access: from the guest address in RCX to the host address there,
      or to the fault stub. */
  method EmitChecks(jit: Jit, store: bool, n: int, pc: u64)
    requires 0 < n <= 8 && jit.Valid() && jit.open == {} && jit.limit <= |jit.plan|
    requires jit.Next(Checks(jit.e, store, n, if store then |jit.writeHoles| else |jit.readHoles|))
    requires |jit.writeHoles| < jit.capacity && |jit.readHoles| < jit.capacity
    modifies jit`k, jit`tgt, jit`open, jit`writeHoles, jit`writePcs, jit`readHoles, jit`readPcs, jit.buf, jit.buf.data
    ensures jit.Valid() && jit.k == old(jit.k + |Checks(jit.e, store, n, if store then |jit.writeHoles| else |jit.readHoles|)|)
    ensures jit.open == {}
    ensures jit.Recorded() == (if store then old(jit.Recorded()).(writePcs := old(jit.writePcs) + [pc])
                               else old(jit.Recorded()).(readPcs := old(jit.readPcs) + [pc]))
  {
    hide jit.Valid, Hole, Off, Stands, StackCheck, Checks, DataCheck, TextCheck;
    ghost var k0, t := jit.k, |TextCheck(store, n)|;
    ghost var d := |DataCheck(jit.e, n, t + 4)|;
    TextCheckLength(n);
    LoweringMemory.StackCheckLength(n, 1 + d + t);
    ChecksParts(jit.plan, k0, jit.e, store, n, if store then |jit.writeHoles| else |jit.readHoles|);
    var toHit, dataAccess := EmitRegionChecks(jit, n, 1 + d + t, t + 4);
    if store {
      StandsOne(jit.plan, jit.k, JmpTo(Local(3)));
      EmitStoreEnd(jit, pc, toHit, k0 + 5);
    } else {
      EmitLoadEnd(jit, n, pc, toHit, k0 + 5);
    }
    if dataAccess.Some? {
      jit.PatchHere(dataAccess.value, k0 + 14);
    }
  }

  // ---------------------------------------------------------------- whole operations

  /** What an operation adds to the tables. */
  function After(t: Tables, ins: Ir.Instr): Tables
  {
    if Ir.Discarded(ins) then t
    else if ins.op.FuelCheck? then t.(timeoutPcs := t.timeoutPcs + [ins.pc])
    else if ins.op.Load? then t.(readPcs := t.readPcs + [ins.pc])
    else if ins.op.Store? then t.(writePcs := t.writePcs + [ins.pc])
    else if ins.op.Beqz? || ins.op.Branch? || ins.op.Jmp? then t.(branches := t.branches + [W64(ins.imm)])
    else if ins.op.JmpReg? || ins.op.Jalr? then t.(exits := t.exits + 1)
    else t
  }

  /** The number of the operation's fault stub, if it needs one. */
  function StubNumber(t: Tables, ins: Ir.Instr): nat
  {
    if ins.op.FuelCheck? then |t.timeoutPcs| else if ins.op.Store? then |t.writePcs| else |t.readPcs|
  }

  /** Every table has room for one more entry. */
  ghost predicate Room(t: Tables, capacity: nat)
  {
    |t.branches| < capacity && t.exits < capacity && |t.readPcs| < capacity && |t.writePcs| < capacity &&
    |t.timeoutPcs| < capacity
  }

  method EmitOperands(jit: Jit, rs1: nat, rs2: nat)
    requires rs1 < 32 && rs2 < 32 && jit.Valid() && jit.Next(LoadOperands(rs1, rs2))
    modifies jit`k, jit.buf, jit.buf.data
    ensures jit.Valid() && jit.k == old(jit.k) + 2
  {
    hide jit.Valid;
    LoadGuestReg(jit, RAX, rs1);
    LoadGuestReg(jit, RCX, rs2);
  }

  method EmitBinaryCore(jit: Jit, op: Ir.Op)
    requires IsBinary(op) && jit.Valid() && jit.Next(BinaryCore(op)) && jit.open == {}
    modifies jit`k, jit`tgt, jit`open, jit.buf, jit.buf.data
    ensures jit.Valid() && jit.k == old(jit.k) + |BinaryCore(op)| && jit.open == {}
  {
    hide jit.Valid, AluCore, AluWCore, SltCore, MulCore, DivCore, Stands;
    match op {
      case Alu(a) => EmitAlu(jit, a);
      case AluW(a) => EmitAluW(jit, a);
      case Slt(signed) =>
        SltLength(signed, 0);
        EmitCompareReg(jit, signed);
      case MulOp(m) => EmitMul(jit, m);
      case DivRem(signed, word, rem) => EmitDivRem(jit, signed, word, rem);
    }
  }

  lemma SltLength(signed: bool, imm: i32)
    ensures |SltCore(signed)| == |SltImmCore(signed, imm)| == 3
  {
  }

  method EmitUnaryCore(jit: Jit, op: Ir.Op, imm: i32)
    requires IsUnary(op) && jit.Valid() && jit.Next(UnaryCore(op, imm))
    modifies jit`k, jit.buf, jit.buf.data
    ensures jit.Valid() && jit.k == old(jit.k) + |UnaryCore(op, imm)|
  {
    hide jit.Valid, AluImmCore, AluWImmCore, SltImmCore, Stands;
    match op {
      case AluImm(a) => EmitAluImm(jit, a, imm);
      case AluWImm(a) => EmitAluWImm(jit, a, imm);
      case SltImm(signed) =>
        SltLength(signed, imm);
        EmitCompareImm(jit, signed, imm);
    }
  }

  method EmitBinary(jit: Jit, ins: Ir.Instr)
    requires Ir.InstrOk(ins) && IsBinary(ins.op) && jit.Valid() && jit.open == {}
    requires jit.Next(LoadOperands(ins.rs1, ins.rs2) + BinaryCore(ins.op) + [StoreReg(ins.rd, RAX)])
    modifies jit`k, jit`tgt, jit`open, jit.buf, jit.buf.data
    ensures jit.Valid() && jit.k == old(jit.k) + |BinaryCore(ins.op)| + 3 && jit.open == {}
  {
    hide jit.Valid, Stands, BinaryCore;
    ghost var core := BinaryCore(ins.op);
    StandsSplit(jit.plan, jit.k, LoadOperands(ins.rs1, ins.rs2) + core, [StoreReg(ins.rd, RAX)]);
    StandsSplit(jit.plan, jit.k, LoadOperands(ins.rs1, ins.rs2), core);
    EmitOperands(jit, ins.rs1, ins.rs2);
    EmitBinaryCore(jit, ins.op);
    StoreGuestReg(jit, ins.rd, RAX);
  }

  method EmitUnary(jit: Jit, ins: Ir.Instr)
    requires Ir.InstrOk(ins) && IsUnary(ins.op) && jit.Valid()
    requires jit.Next([LoadReg(RAX, ins.rs1)] + UnaryCore(ins.op, ins.imm) + [StoreReg(ins.rd, RAX)])
    modifies jit`k, jit.buf, jit.buf.data
    ensures jit.Valid() && jit.k == old(jit.k) + |UnaryCore(ins.op, ins.imm)| + 2
  {
    hide jit.Valid, Stands, UnaryCore;
    ghost var core := UnaryCore(ins.op, ins.imm);
    StandsSplit(jit.plan, jit.k, [LoadReg(RAX, ins.rs1)] + core, [StoreReg(ins.rd, RAX)]);
    StandsSplit(jit.plan, jit.k, [LoadReg(RAX, ins.rs1)], core);
    LoadGuestReg(jit, RAX, ins.rs1);
    EmitUnaryCore(jit, ins.op, ins.imm);
    StoreGuestReg(jit, ins.rd, RAX);
  }

  method EmitLoad(jit: Jit, ins: Ir.Instr)
    requires Ir.InstrOk(ins) && ins.op.Load? && jit.Valid() && jit.open == {}
    requires jit.Next([LoadReg(RCX, ins.rs1)] + LoadCore(jit.e, ins.op.load, ins.imm, |jit.readPcs|) + [StoreReg(ins.rd, RAX)])
    requires Room(jit.Recorded(), jit.capacity)
    modifies jit`k, jit`tgt, jit`open, jit`writeHoles, jit`writePcs, jit`readHoles, jit`readPcs, jit.buf, jit.buf.data
    ensures jit.Valid() && jit.open == {}
    ensures jit.k == old(jit.k) + old(|LoadCore(jit.e, ins.op.load, ins.imm, |jit.readPcs|)|) + 2
    ensures jit.Recorded() == old(jit.Recorded()).(readPcs := old(jit.readPcs) + [ins.pc])
  {
    hide jit.Valid, Stands, AddOffset, Checks;
    jit.TableSizes();
    var n := Ir.LoadBytes(ins.op.load);
    ghost var load := [LoadReg(RCX, ins.rs1)];
    ghost var offset, checks := AddOffset(ins.imm), Checks(jit.e, false, n, |jit.readPcs|);
    ghost var access: seq<Item> := [Op(LoadM(ins.op.load, RAX, RCX, 0))];
    StandsSplit(jit.plan, jit.k, load + (offset + checks + access), [StoreReg(ins.rd, RAX)]);
    StandsSplit(jit.plan, jit.k, load, offset + checks + access);
    StandsSplit(jit.plan, jit.k + 1, offset + checks, access);
    StandsSplit(jit.plan, jit.k + 1, offset, checks);
    StandsOne(jit.plan, jit.k + 1 + |offset| + |checks|, access[0]);
    LoadGuestReg(jit, RCX, ins.rs1);
    EmitAddOffset(jit, ins.imm);
    EmitChecks(jit, false, n, ins.pc);
    jit.Emit(LoadM(ins.op.load, RAX, RCX, 0));
    StoreGuestReg(jit, ins.rd, RAX);
  }

  method EmitStore(jit: Jit, ins: Ir.Instr)
    requires Ir.InstrOk(ins) && ins.op.Store? && jit.Valid() && jit.open == {}
    requires jit.Next([LoadReg(RCX, ins.rs1), LoadReg(RAX, ins.rs2)] +
                      StoreCore(jit.e, ins.op.store, ins.imm, |jit.writePcs|))
    requires Room(jit.Recorded(), jit.capacity)
    modifies jit`k, jit`tgt, jit`open, jit`writeHoles, jit`writePcs, jit`readHoles, jit`readPcs, jit.buf, jit.buf.data
    ensures jit.Valid() && jit.open == {}
    ensures jit.k == old(jit.k) + old(|StoreCore(jit.e, ins.op.store, ins.imm, |jit.writePcs|)|) + 2
    ensures jit.Recorded() == old(jit.Recorded()).(writePcs := old(jit.writePcs) + [ins.pc])
  {
    hide jit.Valid, Stands, AddOffset, Checks;
    jit.TableSizes();
    var n := Ir.StoreBytes(ins.op.store);
    ghost var loads := [LoadReg(RCX, ins.rs1), LoadReg(RAX, ins.rs2)];
    ghost var offset, checks := AddOffset(ins.imm), Checks(jit.e, true, n, |jit.writePcs|);
    ghost var access: seq<Item> := [Op(StoreM(ins.op.store, RCX, 0, RAX))];
    StandsSplit(jit.plan, jit.k, loads, offset + checks + access);
    StandsSplit(jit.plan, jit.k, [loads[0]], [loads[1]]);
    StandsSplit(jit.plan, jit.k + 2, offset + checks, access);
    StandsSplit(jit.plan, jit.k + 2, offset, checks);
    StandsOne(jit.plan, jit.k + 2 + |offset| + |checks|, access[0]);
    LoadGuestReg(jit, RCX, ins.rs1);
    LoadGuestReg(jit, RAX, ins.rs2);
    EmitAddOffset(jit, ins.imm);
    EmitChecks(jit, true, n, ins.pc);
    jit.Emit(StoreM(ins.op.store, RCX, 0, RAX));
  }

  method EmitFuelCheck(jit: Jit, pc: u64)
    requires jit.Valid() && jit.Next(FuelCheck(|jit.timeoutPcs|)) && Room(jit.Recorded(), jit.capacity)
    modifies jit`k, jit`timeoutHoles, jit`timeoutPcs, jit.buf, jit.buf.data
    ensures jit.Valid() && jit.k == old(jit.k) + 5
    ensures jit.Recorded() == old(jit.Recorded()).(timeoutPcs := old(jit.timeoutPcs) + [pc])
  {
    hide jit.Valid;
    jit.TableSizes();
    jit.Emit(LoadM(Ir.L64, RAX, R15, OFF_FUEL));
    jit.Emit(RImm(ADDI, true, RAX, -1));
    jit.Emit(StoreM(Ir.St64, R15, OFF_FUEL, RAX));
    jit.Emit(Rr(TEST, true, RAX, RAX));
    jit.EmitTimeoutJump(pc);
  }

  method EmitConditionalBranch(jit: Jit, ins: Ir.Instr)
    requires Ir.InstrOk(ins) && ins.op.Branch? && jit.Valid() && Room(jit.Recorded(), jit.capacity)
    requires jit.Next(LoadOperands(ins.rs1, ins.rs2) +
                      [Op(Rr(CMP, true, RAX, RCX)), JccTo(BranchCode(ins.op.cond), GuestPc(W64(ins.imm)))])
    modifies jit`k, jit`branchHoles, jit`branchTargets, jit.buf, jit.buf.data
    ensures jit.Valid() && jit.k == old(jit.k) + 4
    ensures jit.Recorded() == old(jit.Recorded()).(branches := old(jit.branchTargets) + [W64(ins.imm)])
  {
    hide jit.Valid, BranchCode;
    jit.TableSizes();
    LoadGuestReg(jit, RAX, ins.rs1);
    LoadGuestReg(jit, RCX, ins.rs2);
    jit.Emit(Rr(CMP, true, RAX, RCX));
    jit.EmitBranchTo(Some(BranchCode(ins.op.cond)), W64(ins.imm));
  }

  method EmitJalr(jit: Jit, ins: Ir.Instr)
    requires Ir.InstrOk(ins) && ins.op.Jalr? && jit.Valid() && jit.Next(JalrBody(ins)) && Room(jit.Recorded(), jit.capacity)
    modifies jit`k, jit`exitJumps, jit.buf, jit.buf.data
    ensures jit.Valid() && jit.k == old(jit.k) + |JalrBody(ins)|
    ensures jit.Recorded() == old(jit.Recorded()).(exits := old(|jit.exitJumps|) + 1)
  {
    hide jit.Valid;
    LoadGuestReg(jit, RAX, ins.rs1);
    jit.Emit(RImm(ADDI, true, RAX, ins.imm));
    jit.Emit(RImm(ANDI, true, RAX, -2));
    if ins.rd != 0 {
      jit.Emit(MovImm(RCX, W64(ins.pc + 4)));
      StoreGuestReg(jit, ins.rd, RCX);
    }
    StoreCpuPc(jit, RAX);
    jit.EmitExitJump();
  }

  method EmitEcall(jit: Jit)
    requires jit.Valid() && jit.Next(EcallBody(jit.e))
    modifies jit`k, jit.buf, jit.buf.data
    ensures jit.Valid() && jit.k == old(jit.k) + |EcallBody(jit.e)|
  {
    hide jit.Valid;
    jit.Emit(Push(RAX));
    jit.Emit(MovImm(RDI, jit.e.jitAt));
    jit.Emit(MovImm(RAX, jit.e.ecallAt));
    jit.Emit(CallR(RAX));
    jit.Emit(Pop(RAX));
  }

  predicate IsControl(op: Ir.Op) { op.Beqz? || op.Branch? || op.Jmp? || op.JmpReg? || op.Jalr? }

  method EmitControl(jit: Jit, ins: Ir.Instr)
    requires Ir.InstrOk(ins) && IsControl(ins.op) && jit.Valid() && Room(jit.Recorded(), jit.capacity)
    requires jit.Next(Body(jit.e, ins, StubNumber(jit.Recorded(), ins)))
    modifies jit`k, jit`branchHoles, jit`branchTargets, jit`exitJumps, jit.buf, jit.buf.data
    ensures jit.Valid() && jit.k == old(jit.k) + old(|Body(jit.e, ins, StubNumber(jit.Recorded(), ins))|)
    ensures jit.Recorded() == After(old(jit.Recorded()), ins)
  {
    hide jit.Valid, JalrBody;
    jit.TableSizes();
    match ins.op {
      case Beqz =>
        LoadGuestReg(jit, RAX, ins.rs1);
        jit.Emit(Rr(TEST, true, RAX, RAX));
        jit.EmitBranchTo(Some(E), W64(ins.imm));
      case Branch(_) => EmitConditionalBranch(jit, ins);
      case Jmp => jit.EmitBranchTo(None, W64(ins.imm));
      case JmpReg =>
        LoadGuestReg(jit, RAX, ins.rs1);
        StoreCpuPc(jit, RAX);
        jit.EmitExitJump();
      case Jalr => EmitJalr(jit, ins);
    }
  }

  predicate IsSimple(op: Ir.Op)
  {
    op.Nop? || op.Mov? || op.Li? || op.Ecall? || op.Ebreak? || op.Ud2?
  }

  method EmitSimple(jit: Jit, ins: Ir.Instr)
    requires Ir.InstrOk(ins) && IsSimple(ins.op) && jit.Valid()
    requires jit.Next(Body(jit.e, ins, 0))
    modifies jit`k, jit.buf, jit.buf.data
    ensures jit.Valid() && jit.k == old(jit.k) + |Body(jit.e, ins, 0)|
  {
    hide jit.Valid;
    match ins.op {
      case Nop =>
      case Mov =>
        LoadGuestReg(jit, RAX, ins.rs2);
        StoreGuestReg(jit, ins.rd, RAX);
      case Li =>
        jit.Emit(MovImm(RAX, W64(ins.imm)));
        StoreGuestReg(jit, ins.rd, RAX);
      case Ecall => EmitEcall(jit);
      case Ebreak => jit.Emit(Int3);
      case Ud2 => jit.Emit(X86.Ud2);
    }
  }

  /** The body of one operation. */
  method EmitInstruction(jit: Jit, ins: Ir.Instr)
    requires Ir.InstrOk(ins) && !Ir.Discarded(ins) && jit.Valid() && jit.open == {} && Room(jit.Recorded(), jit.capacity)
    requires jit.Next(Body(jit.e, ins, StubNumber(jit.Recorded(), ins)))
    modifies jit`k, jit`tgt, jit`open, jit`branchHoles, jit`branchTargets, jit`exitJumps, jit`readHoles, jit`readPcs
    modifies jit`writeHoles, jit`writePcs, jit`timeoutHoles, jit`timeoutPcs, jit.buf, jit.buf.data
    ensures jit.Valid() && jit.open == {}
    ensures jit.k == old(jit.k) + old(|Body(jit.e, ins, StubNumber(jit.Recorded(), ins))|)
    ensures jit.Recorded() == After(old(jit.Recorded()), ins)
  {
    hide jit.Valid, Stands, LoadCore, StoreCore, BinaryCore, UnaryCore;
    if IsBinary(ins.op) {
      EmitBinary(jit, ins);
    } else if IsUnary(ins.op) {
      EmitUnary(jit, ins);
    } else if ins.op.Load? {
      EmitLoad(jit, ins);
    } else if ins.op.Store? {
      EmitStore(jit, ins);
    } else if ins.op.FuelCheck? {
      EmitFuelCheck(jit, ins.pc);
    } else if IsControl(ins.op) {
      EmitControl(jit, ins);
    } else {
      EmitSimple(jit, ins);
    }
  }

  /** One operation of the compiled program: x0 is cleared, and unless its result is
      discarded its body follows. */
  method EmitOperation(jit: Jit, ins: Ir.Instr)
    requires Ir.InstrOk(ins) && jit.Valid() && jit.open == {} && Room(jit.Recorded(), jit.capacity)
    requires jit.Next(Lower(jit.e, ins, StubNumber(jit.Recorded(), ins)))
    modifies jit`k, jit`tgt, jit`open, jit`branchHoles, jit`branchTargets, jit`exitJumps, jit`readHoles, jit`readPcs
    modifies jit`writeHoles, jit`writePcs, jit`timeoutHoles, jit`timeoutPcs, jit.buf, jit.buf.data
    ensures jit.Valid() && jit.open == {}
    ensures jit.k == old(jit.k) + old(|Lower(jit.e, ins, StubNumber(jit.Recorded(), ins))|)
    ensures jit.Recorded() == After(old(jit.Recorded()), ins)
  {
    hide jit.Valid, Stands, Body, Ir.MustRunWithZeroRd;
    ghost var body := When(!Ir.Discarded(ins), Body(jit.e, ins, StubNumber(jit.Recorded(), ins)));
    StandsSplit(jit.plan, jit.k, ZeroX0(), body);
    ZeroGuestZeroRegister(jit);
    if Ir.Discarded(ins) {
      return;
    }
    EmitInstruction(jit, ins);
  }
}
