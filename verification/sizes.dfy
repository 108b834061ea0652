/** How many bytes the parts of the program take. */
module Sizes {
  import opened Words
  import opened X86
  import opened Snippet
  import opened X86Encoding
  import opened Assembler
  import opened Program
  import Ir

  function Bytes(p: seq<Item>): nat { Off(p, |p|) }

  lemma {:induction false} OffConcat(a: seq<Item>, b: seq<Item>, k: nat)
    requires k <= |b|
    ensures Off(a + b, |a| + k) == Off(a, |a|) + Off(b, k)
  {
    hide Size;
    if k == 0 {
      OffPrefix(a, b, |a|);
    } else {
      OffConcat(a, b, k - 1);
      assert (a + b)[|a| + k - 1] == b[k - 1];
    }
  }

  lemma BytesConcat(a: seq<Item>, b: seq<Item>)
    ensures Bytes(a + b) == Bytes(a) + Bytes(b)
  {
    hide Off;
    OffConcat(a, b, |b|);
  }

  lemma BytesOne(i: Item)
    ensures Bytes([i]) == Size(i)
  {
    hide Size;
    assert Off([i], 0) == 0;
  }

  lemma BytesEmpty()
    ensures Bytes([]) == 0
  {
  }

  // ---------------------------------------------------------------- single instructions

  lemma RegisterSizes(op: X86.AluOp, w: bool, a: Reg, b: Reg, imm: u64)
    ensures Size(Op(Rr(op, w, a, b))) <= 3 && Size(Op(Movsxd(a, b))) == 3 && Size(Op(MovImm(a, imm))) == 10
    ensures Size(Op(MovzxB(a, b))) == 4 && Size(Op(Imul(w, a, b))) <= 4 && Size(Op(Cqo(w))) <= 2
  {
    hide ModRm, Le, AluOpcode, Num, Rex;
    RexSize(w, Num(b), Num(a)); RexSize(true, Num(b), Num(a)); RexSize(true, Num(a), Num(b));
    RexSize(true, 0, Num(a)); RexSize(w, Num(a), Num(b)); RexSize(w, 0, 0);
  }

  lemma RexSize(w: bool, reg: nat, rm: nat)
    requires reg < 16 && rm < 16
    ensures |Rex(w, reg, rm)| <= 1 && (w ==> |Rex(w, reg, rm)| == 1)
    ensures !w && reg < 8 && rm < 8 ==> Rex(w, reg, rm) == []
  {
  }

  lemma StackSizes(a: Reg)
    ensures Size(Op(Push(a))) <= 2 && Size(Op(Pop(a))) <= 2
  {
    hide ModRm, Le, Num, Rex;
    RexSize(false, 0, Num(a));
  }

  lemma ControlSizes(a: Reg)
    ensures Size(Op(CallR(a))) <= 3 && Size(Op(JmpR(a))) <= 3
    ensures Size(Op(Ret)) == 1 && Size(Op(Int3)) == 1 && Size(Op(X86.Ud2)) == 2
  {
    hide ModRm, Le, Num, Rex;
    RexSize(false, 0, Num(a));
  }

  /** Accesses to the cpu record and through RCX. */
  lemma MemorySizes(k: Ir.LoadKind, s: Ir.StoreKind, r: Reg, off: i32)
    ensures Size(Op(LoadM(Ir.L64, r, R15, off))) <= 7 && Size(Op(StoreM(Ir.St64, R15, off, r))) <= 7
    ensures !FitsI8(off) ==> Size(Op(StoreM(Ir.St64, R15, off, r))) == 7
    ensures Size(Op(LoadM(k, r, RCX, 0))) <= 4 && Size(Op(StoreM(s, RCX, 0, r))) <= 5
  {
    hide ModRm, Le;
    RexSize(true, Num(r), 15); RexSize(true, Num(r), 1); RexSize(false, Num(r), 1);
  }

  lemma JumpSizes(c: Cond, l: Label)
    ensures Size(JmpTo(l)) == 5 && Size(JccTo(c, l)) == 6
  {
    JumpEncoding(JmpTo(l), 0);
    JumpEncoding(JccTo(c, l), 0);
  }

  // ---------------------------------------------------------------- short sequences

  lemma BytesPair(a: Item, b: Item)
    ensures Bytes([a, b]) == Size(a) + Size(b)
  {
    hide Size, Off;
    BytesOne(a); BytesOne(b);
    BytesConcat([a], [b]);
    assert [a] + [b] == [a, b];
  }

  lemma BytesTriple(a: Item, b: Item, c: Item)
    ensures Bytes([a, b, c]) == Size(a) + Size(b) + Size(c)
  {
    hide Size, Off;
    BytesPair(a, b); BytesOne(c);
    BytesConcat([a, b], [c]);
    assert [a, b] + [c] == [a, b, c];
  }

  /** Every item of a piece takes at most m bytes. */
  lemma {:induction false} BytesAtMost(p: seq<Item>, m: nat, k: nat)
    requires k <= |p| && forall i | 0 <= i < k :: Size(p[i]) <= m
    ensures Off(p, k) <= m * k
  {
    hide Size;
    if k > 0 {
      BytesAtMost(p, m, k - 1);
      assert m * k == m * (k - 1) + m;
    }
  }

  // ---------------------------------------------------------------- fault stubs

  /** A fault stub takes exactly 39 bytes. */
  lemma StubBytes(pc: u64, kind: Ir.FaultKind)
    ensures Bytes(StubCode(pc, kind)) == 39
  {
    hide Size, Off;
    var p := StubCode(pc, kind);
    RegisterSizes(MOV, true, RAX, RAX, pc);
    RegisterSizes(MOV, true, RAX, RAX, FaultCode(kind));
    MemorySizes(Ir.L64, Ir.St64, RAX, OFF_PC);
    MemorySizes(Ir.L64, Ir.St64, RAX, OFF_FAULT);
    JumpSizes(B, Epilogue);
    BytesTriple(p[0], p[1], p[2]);
    BytesPair(p[3], p[4]);
    BytesConcat([p[0], p[1], p[2]], [p[3], p[4]]);
    assert p == [p[0], p[1], p[2]] + [p[3], p[4]];
  }

  // ---------------------------------------------------------------- where the stubs are

  lemma {:induction false} StubsOff(irs: seq<Ir.Instr>, kind: Ir.FaultKind, n: nat, k: nat)
    requires n <= |irs| && k <= Count(irs, kind, n)
    ensures Off(Stubs(irs, kind, n), 5 * k) == FAULT_STUB_BYTES * k
    decreases n
  {
    hide Off, StubCode, Records;
    if k == 0 {
      OffZero(Stubs(irs, kind, n));
    } else {
      var init, last := Stubs(irs, kind, n - 1), if Records(irs[n - 1], kind) then StubCode(irs[n - 1].pc, kind) else [];
      if k <= Count(irs, kind, n - 1) {
        StubsOff(irs, kind, n - 1, k);
        OffPrefix(init, last, 5 * k);
      } else {
        StubsOff(irs, kind, n - 1, k - 1);
        OffConcat(init, last, 5);
        StubBytes(irs[n - 1].pc, kind);
      }
    }
  }

  /** Stub number m stands 39 bytes times m behind the exit code. */
  lemma StubOff(e: Env, irs: seq<Ir.Instr>, m: nat)
    requires Compilable(e, irs) && m <= AllStubs(irs)
    ensures var k := Epi(e, irs) + 7 + 5 * m;
            k <= |Items(e, irs)| && Off(Items(e, irs), k) == StubsAt(e, irs) + FAULT_STUB_BYTES * m
  {
    hide Trampoline, EpilogueCode, Bodies, Stubs, Count, Off;
    var front := Trampoline(e) + Bodies(e, irs, |irs|) + EpilogueCode();
    var r, w, t := Stubs(irs, Ir.Read, |irs|), Stubs(irs, Ir.Write, |irs|), Stubs(irs, Ir.Timeout, |irs|);
    assert Items(e, irs) == front + (r + (w + t));
    OffConcat(front, r + (w + t), 5 * m);
    ThreeKinds(irs, m);
  }

  lemma ThreeKinds(irs: seq<Ir.Instr>, m: nat)
    requires m <= AllStubs(irs)
    ensures var n := |irs|; var all := Stubs(irs, Ir.Read, n) + (Stubs(irs, Ir.Write, n) + Stubs(irs, Ir.Timeout, n));
            5 * m <= |all| && Off(all, 5 * m) == FAULT_STUB_BYTES * m
  {
    hide Stubs, Count, Off;
    var r, w, t := Stubs(irs, Ir.Read, |irs|), Stubs(irs, Ir.Write, |irs|), Stubs(irs, Ir.Timeout, |irs|);
    var cr, cw := Count(irs, Ir.Read, |irs|), Count(irs, Ir.Write, |irs|);
    if m <= cr {
      StubsOff(irs, Ir.Read, |irs|, m);
      OffPrefix(r, w + t, 5 * m);
    } else {
      StubsOff(irs, Ir.Read, |irs|, cr);
      OffConcat(r, w + t, 5 * (m - cr));
      if m - cr <= cw {
        StubsOff(irs, Ir.Write, |irs|, m - cr);
        OffPrefix(w, t, 5 * (m - cr));
      } else {
        StubsOff(irs, Ir.Write, |irs|, cw);
        OffConcat(w, t, 5 * (m - cr - cw));
        StubsOff(irs, Ir.Timeout, |irs|, m - cr - cw);
      }
    }
  }

  /** The whole code: up to the stubs, and 39 bytes for each of them. */
  lemma CodeBytesSum(e: Env, irs: seq<Ir.Instr>)
    requires Compilable(e, irs)
    ensures CodeBytes(e, irs) == StubsAt(e, irs) + FAULT_STUB_BYTES * AllStubs(irs)
  {
    hide Off, Items, Count;
    StubOff(e, irs, AllStubs(irs));
    StubsBehind(e, irs);
  }
}
