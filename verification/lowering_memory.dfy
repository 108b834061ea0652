/** The inline bounds checks reach an access exactly when the region model allows it, with
    the matching host address in RCX. */
module LoweringMemory {
  import opened Words
  import opened X86
  import opened Snippet
  import opened Lowering
  import opened LoweringAlu
  import opened LoweringMulDiv
  import Ir

  /** What the trampoline sets up and every operation keeps. */
  ghost predicate Ready(e: Env, h: Host)
  {
    && EnvOk(e) && HostOk(e, h)
    && h.r.r15 == e.cpuAt && h.r.r14 == e.stackAt && h.r.r13 == e.sp.stackSize
    && h.r.r12 == e.textAt && h.r.rbx == e.sp.textAddr && h.r.rbp == e.sp.textAddr + |e.sp.text|
  }

  /** The host address of a guest place. */
  function HostAt(e: Env, p: Ir.Place): int
  {
    match p
    case InStack(i) => e.stackAt + i
    case InData(i) => e.dataAt + i
    case InText(i) => e.textAt + i
    case Nowhere => 0
  }

  lemma ReadyKept(e: Env, h: Host, h': Host)
    requires Ready(e, h) && ScratchOnly(h, h')
    ensures Ready(e, h')
  {
    hide EnvOk;
  }

  /** The bounds the checks rely on. */
  lemma ReadyBounds(e: Env, h: Host)
    requires Ready(e, h)
    ensures |h.cpu.x| == 32 && h.r.r14 == e.stackAt && h.r.r13 == e.sp.stackSize && h.r.r12 == e.textAt
    ensures h.r.rbx == e.sp.textAddr && h.r.rbp == e.sp.textAddr + |e.sp.text|
    ensures 8 <= e.sp.stackSize && e.stackAt + e.sp.stackSize < TWO64
    ensures 8 <= e.sp.textAddr + |e.sp.text| && e.textAt + |e.sp.text| < TWO64
    ensures e.sp.dataSize != 0 ==> 8 <= e.sp.dataAddr + e.sp.dataSize < TWO64
    ensures e.dataAt + e.sp.dataSize < TWO64
  {
  }

  // ---------------------------------------------------------------- single instructions

  lemma AddImmExec(e: Env, r: Reg, imm: i32, h: Host)
    requires |h.cpu.x| == 32
    ensures Exec(e, RImm(ADDI, true, r, imm), h) == Fall(PutF(h, r, W64(Get(h.r, r) + imm)))
  {
    hide Bits64, Bits32, ShiftValue, Grp3Value, ReadHost, WriteHost, Get, Set;
    var v := Get(h.r, r);
    ModEq(v + W64(imm), v + imm, TWO64, -(imm / TWO64));
  }

  lemma RrExec(e: Env, dst: Reg, src: Reg, h: Host)
    requires |h.cpu.x| == 32
    ensures Exec(e, Rr(ADD, true, dst, src), h) == Fall(PutF(h, dst, W64(Get(h.r, dst) + Get(h.r, src))))
    ensures Exec(e, Rr(SUB, true, dst, src), h) == Fall(PutF(h, dst, W64(Get(h.r, dst) - Get(h.r, src))))
    ensures Exec(e, Rr(CMP, true, dst, src), h) == Fall(h.(f := CmpFlags(true, Get(h.r, dst), Get(h.r, src))))
  {
    hide Bits64, Bits32, ShiftValue, Grp3Value, ReadHost, WriteHost, Get, Set, CmpFlags;
  }

  lemma CmpGuardExec(e: Env, h: Host)
    requires |h.cpu.x| == 32
    ensures Exec(e, RImm(CMPI, true, RCX, Ir.STACK_GUARD), h) == Fall(h.(f := CmpFlags(true, h.r.rcx, Ir.STACK_GUARD)))
  {
    hide Bits64, Bits32, ShiftValue, Grp3Value, ReadHost, WriteHost, CmpFlags;
  }

  /** Runs a comparison and the conditional jump after it. */
  lemma RunBranch(e: Env, code: seq<Item>, k: nat, a: u64, b: u64, c: Cond, skip: nat, h: Host)
    requires k + 1 < |code| && code[k].Op? && code[k + 1] == JccTo(c, Local(skip)) && skip > 0
    requires |h.cpu.x| == 32 && Exec(e, code[k].ins, h) == Fall(h.(f := CmpFlags(true, a, b)))
    ensures var h1 := h.(f := CmpFlags(true, a, b));
            Run(e, code, k, h) == Run(e, code, if Holds(c, h1.f) then k + 1 + skip else k + 2, h1)
  {
    hide Run, Exec, CmpFlags, Holds;
    CmpFlagsKnown(true, a, b);
    RunOp(e, code, k, h, h.(f := CmpFlags(true, a, b)));
    RunJcc(e, code, k + 1, c, skip, h.(f := CmpFlags(true, a, b)));
  }

  // ---------------------------------------------------------------- the checks, piece by piece

  /** The values the checks keep while they look for a region. */
  ghost predicate Searching(h: Host, h': Host)
  {
    ScratchOnly(h, h') && h'.r.rax == h.r.rax && h'.r.rcx == h.r.rcx
  }

  lemma StackCheckOk(e: Env, code: seq<Item>, n: int, toHit: nat, h: Host) returns (h': Host)
    requires Ready(e, h) && 0 < n <= 8 && toHit > 0
    requires 6 <= |code| && code[..6] == StackCheck(n, toHit)
    ensures Searching(h, h')
    ensures Run(e, code, 0, h) ==
            Run(e, code, if 8 <= h.r.rcx && h.r.rcx + n <= e.sp.stackSize then 5 + toHit else 6, h')
  {
    hide Run, Exec, CmpFlags, Holds, Ready;
    ReadyBounds(e, h);
    var a := h.r.rcx;
    PieceItems(code, 0, StackCheck(n, toHit));
    CmpGuardExec(e, h);
    RunBranch(e, code, 0, a, 8, B, 5, h);
    CmpDecides(a, 8, B);
    var h1 := h.(f := CmpFlags(true, a, 8));
    if a < 8 { return h1; }
    h' := RunBoundCheck(e, code, 2, R13, e.sp.stackSize, n, AE, toHit, h1);
  }

  predicate InDataRegion(e: Env, a: u64, n: int)
  {
    e.sp.dataSize != 0 && e.sp.dataAddr <= a && a + n <= e.sp.dataAddr + e.sp.dataSize
  }

  predicate InTextRegion(e: Env, a: u64, n: int)
  {
    e.sp.textAddr <= a && a + n <= e.sp.textAddr + |e.sp.text|
  }

  /** Rebasing by a 64-bit difference lands on the host address even when the difference wraps. */
  lemma Rebase(a: u64, guest: u64, host: u64)
    requires guest <= a && host + (a - guest) < TWO64
    ensures W64(a + W64(host - guest)) == host + (a - guest)
  {
    ModEq(a + W64(host - guest), host + (a - guest), TWO64, -((host - guest) / TWO64));
  }

  /** The items of a piece, read off the code that contains it. */
  lemma PieceItems(code: seq<Item>, at: nat, piece: seq<Item>)
    requires at + |piece| <= |code| && code[at..at + |piece|] == piece
    ensures forall i | at <= i < at + |piece| :: code[i] == piece[i - at]
  {
    forall i | at <= i < at + |piece| ensures code[i] == piece[i - at] {
      assert code[at..at + |piece|][i - at] == code[i];
    }
  }

  /** Runs a register copy, an adjustment by -n, a comparison against RCX and its branch. */
  lemma RunBoundCheck(e: Env, code: seq<Item>, at: nat, src: Reg, bound: u64, n: int, c: Cond, skip: nat, h: Host)
    returns (h': Host)
    requires |h.cpu.x| == 32 && 0 < n <= 8 && bound >= n && Get(h.r, src) == bound && src != RDX && skip > 0
    requires at + 4 <= |code|
    requires code[at] == MovRr(RDX, src) && code[at + 1] == Op(RImm(ADDI, true, RDX, -n))
    requires code[at + 2] == Op(Rr(CMP, true, RDX, RCX)) && code[at + 3] == JccTo(c, Local(skip))
    requires c == AE || c == B
    ensures Searching(h, h')
    ensures Run(e, code, at, h) ==
            Run(e, code, if (if c == AE then h.r.rcx + n <= bound else h.r.rcx + n > bound) then at + 3 + skip else at + 4, h')
  {
    hide Run, Exec, CmpFlags, Holds;
    var a := h.r.rcx;
    var h2 := Put(h, RDX, bound);
    MovExec(e, RDX, src, h); RunOp(e, code, at, h, h2);
    var h3 := PutF(h2, RDX, bound - n);
    AddImmExec(e, RDX, -n, h2); RunOp(e, code, at + 1, h2, h3);
    RrExec(e, RDX, RCX, h3);
    RunBranch(e, code, at + 2, bound - n, a, c, skip, h3);
    CmpDecides(bound - n, a, c);
    h' := h3.(f := CmpFlags(true, bound - n, a));
  }

  /** Runs a constant load into RSI, a comparison of RCX with it and its branch. */
  lemma RunConstCheck(e: Env, code: seq<Item>, at: nat, bound: u64, c: Cond, skip: nat, h: Host)
    returns (h': Host)
    requires |h.cpu.x| == 32 && skip > 0 && (c == B || c == A)
    requires at + 3 <= |code|
    requires code[at] == Op(MovImm(RSI, bound))
    requires code[at + 1] == Op(Rr(CMP, true, RCX, RSI)) && code[at + 2] == JccTo(c, Local(skip))
    ensures Searching(h, h')
    ensures Run(e, code, at, h) ==
            Run(e, code, if (if c == B then h.r.rcx < bound else h.r.rcx > bound) then at + 2 + skip else at + 3, h')
  {
    hide Run, Exec, CmpFlags, Holds;
    var h1 := Put(h, RSI, bound);
    MovImmExec(e, RSI, bound, h); RunOp(e, code, at, h, h1);
    RrExec(e, RCX, RSI, h1);
    RunBranch(e, code, at + 1, h.r.rcx, bound, c, skip, h1);
    CmpDecides(h.r.rcx, bound, c);
    h' := h1.(f := CmpFlags(true, h.r.rcx, bound));
  }

  lemma DataCheckOk(e: Env, code: seq<Item>, at: nat, n: int, toAccess: nat, h: Host) returns (h': Host)
    requires Ready(e, h) && 0 < n <= 8 && toAccess > 0
    requires at + |DataCheck(e, n, toAccess)| <= |code|
    requires code[at..at + |DataCheck(e, n, toAccess)|] == DataCheck(e, n, toAccess)
    ensures ScratchOnly(h, h') && h'.r.rax == h.r.rax
    ensures h'.r.rcx == if InDataRegion(e, h.r.rcx, n) then e.dataAt + (h.r.rcx - e.sp.dataAddr) else h.r.rcx
    ensures Run(e, code, at, h) ==
            Run(e, code, if InDataRegion(e, h.r.rcx, n) then at + 8 + toAccess else at + |DataCheck(e, n, toAccess)|, h')
  {
    hide Run, Exec, CmpFlags, Holds, Ready;
    ReadyBounds(e, h);
    if e.sp.dataSize == 0 { return h; }
    PieceItems(code, at, DataCheck(e, n, toAccess));
    var hi := e.sp.dataAddr + e.sp.dataSize - n;
    assert W64(hi) == hi;
    h' := RunConstCheck(e, code, at, e.sp.dataAddr, B, 7, h);
    if h.r.rcx < e.sp.dataAddr { return; }
    h' := RunConstCheck(e, code, at + 3, hi, A, 4, h');
    if h.r.rcx > hi { return; }
    h' := DataHit(e, code, at + 6, toAccess, h');
  }

  lemma DataHit(e: Env, code: seq<Item>, at: nat, toAccess: nat, h: Host) returns (h': Host)
    requires |h.cpu.x| == 32 && toAccess > 0 && e.sp.dataAddr <= h.r.rcx && e.dataAt + (h.r.rcx - e.sp.dataAddr) < TWO64
    requires at + 3 <= |code|
    requires code[at] == Op(MovImm(RSI, W64(e.dataAt - e.sp.dataAddr)))
    requires code[at + 1] == Op(Rr(ADD, true, RCX, RSI)) && code[at + 2] == JmpTo(Local(toAccess))
    ensures ScratchOnly(h, h') && h'.r.rax == h.r.rax && h'.r.rcx == e.dataAt + (h.r.rcx - e.sp.dataAddr)
    ensures Run(e, code, at, h) == Run(e, code, at + 2 + toAccess, h')
  {
    hide Run, Exec;
    var delta := W64(e.dataAt - e.sp.dataAddr);
    var h1 := Put(h, RSI, delta);
    MovImmExec(e, RSI, delta, h); RunOp(e, code, at, h, h1);
    RrExec(e, RCX, RSI, h1);
    Rebase(h.r.rcx, e.sp.dataAddr, e.dataAt);
    h' := PutF(h1, RCX, e.dataAt + (h.r.rcx - e.sp.dataAddr));
    RunOp(e, code, at + 1, h1, h');
    RunJmp(e, code, at + 2, toAccess, h');
  }

  lemma TextCheckOk(e: Env, code: seq<Item>, at: nat, store: bool, n: int, h: Host) returns (h': Host)
    requires Ready(e, h) && 0 < n <= 8
    requires at + |TextCheck(store, n)| <= |code| && code[at..at + |TextCheck(store, n)|] == TextCheck(store, n)
    ensures ScratchOnly(h, h') && h'.r.rax == h.r.rax
    ensures var hit := !store && InTextRegion(e, h.r.rcx, n); var end := at + |TextCheck(store, n)|;
            h'.r.rcx == (if hit then e.textAt + (h.r.rcx - e.sp.textAddr) else h.r.rcx) &&
            Run(e, code, at, h) == Run(e, code, if hit then end + 3 else end + 2, h')
  {
    hide Run, Exec, CmpFlags, Holds, Ready;
    ReadyBounds(e, h);
    PieceItems(code, at, TextCheck(store, n));
    if store {
      RunJmp(e, code, at, 3, h);
      return h;
    }
    var a := h.r.rcx;
    RrExec(e, RCX, RBX, h);
    RunBranch(e, code, at, a, e.sp.textAddr, B, 12, h);
    CmpDecides(a, e.sp.textAddr, B);
    h' := h.(f := CmpFlags(true, a, e.sp.textAddr));
    if a < e.sp.textAddr { return; }
    h' := RunBoundCheck(e, code, at + 2, RBP, e.sp.textAddr + |e.sp.text|, n, B, 8, h');
    if a + n > e.sp.textAddr + |e.sp.text| { return; }
    h' := TextHit(e, code, at + 6, h');
  }

  lemma TextHit(e: Env, code: seq<Item>, at: nat, h: Host) returns (h': Host)
    requires |h.cpu.x| == 32 && at + 5 <= |code|
    requires h.r.rbx == e.sp.textAddr && h.r.r12 == e.textAt
    requires e.sp.textAddr <= h.r.rcx && e.textAt + (h.r.rcx - e.sp.textAddr) < TWO64
    requires code[at] == MovRr(RDX, RCX) && code[at + 1] == Op(Rr(SUB, true, RDX, RBX))
    requires code[at + 2] == Op(Rr(ADD, true, RDX, R12)) && code[at + 3] == MovRr(RCX, RDX)
    requires code[at + 4] == JmpTo(Local(4))
    ensures ScratchOnly(h, h') && h'.r.rax == h.r.rax && h'.r.rcx == e.textAt + (h.r.rcx - e.sp.textAddr)
    ensures Run(e, code, at, h) == Run(e, code, at + 8, h')
  {
    hide Run, Exec;
    var off := h.r.rcx - e.sp.textAddr;
    var h1 := Put(h, RDX, h.r.rcx);
    MovExec(e, RDX, RCX, h); RunOp(e, code, at, h, h1);
    var h2 := PutF(h1, RDX, off);
    RrExec(e, RDX, RBX, h1); RunOp(e, code, at + 1, h1, h2);
    var h3 := PutF(h2, RDX, e.textAt + off);
    RrExec(e, RDX, R12, h2); RunOp(e, code, at + 2, h2, h3);
    h' := Put(h3, RCX, e.textAt + off);
    MovExec(e, RCX, RDX, h3); RunOp(e, code, at + 3, h3, h');
    RunJmp(e, code, at + 4, 4, h');
  }

  lemma StackHitOk(e: Env, code: seq<Item>, at: nat, h: Host) returns (h': Host)
    requires Ready(e, h) && at + 2 <= |code| && code[at..at + 2] == StackHit() && e.stackAt + h.r.rcx < TWO64
    ensures ScratchOnly(h, h') && h'.r.rax == h.r.rax && h'.r.rcx == e.stackAt + h.r.rcx
    ensures Run(e, code, at, h) == Run(e, code, at + 3, h')
  {
    hide Run, Exec, Ready;
    ReadyBounds(e, h);
    assert code[at] == StackHit()[0] && code[at + 1] == StackHit()[1];
    h' := PutF(h, RCX, e.stackAt + h.r.rcx);
    RrExec(e, RCX, R14, h); RunOp(e, code, at, h, h');
    RunJmp(e, code, at + 1, 2, h');
  }

  // ---------------------------------------------------------------- the whole sequence

  /** The emitted checks decide exactly the region model: they fall through, with the host
      address of the access in RCX, when the whole range lies in one permitted region, and
      leave through the fault jump otherwise. */
  lemma ChecksOk(e: Env, store: bool, n: int, k: nat, h: Host) returns (h': Host)
    requires Ready(e, h) && 0 < n <= 8
    ensures ScratchOnly(h, h') && h'.r.rax == h.r.rax
    ensures var p := Ir.Find(e.sp, h.r.rcx, n, store); var code := Checks(e, store, n, k);
            if p.Nowhere? then Run(e, code, 0, h) == Out(|code| - 1, Stub(FaultOf(store), k), h')
            else Run(e, code, 0, h) == Done(h') && h'.r.rcx == HostAt(e, p)
  {
    hide Run, Exec, StackCheck, DataCheck, TextCheck, Ready;
    ReadyBounds(e, h);
    var t := TextCheck(store, n);
    var d := DataCheck(e, n, |t| + 4);
    var s := StackCheck(n, 1 + |d| + |t|);
    assert |s| == 6 by { StackCheckLength(n, 1 + |d| + |t|); }
    assert |d| == 9 || !InDataRegion(e, h.r.rcx, n) by { DataCheckLength(e, n, |t| + 4); }
    var code := Checks(e, store, n, k);
    var hit := 6 + |d| + |t|;
    assert code == s + d + t + StackHit() + [JmpTo(Stub(FaultOf(store), k))];
    assert code[..6] == s;
    assert code[6..6 + |d|] == d;
    assert code[6 + |d|..hit] == t;
    assert code[hit..hit + 2] == StackHit();
    var h1 := StackCheckOk(e, code, n, 1 + |d| + |t|, h);
    ReadyKept(e, h, h1);
    if 8 <= h.r.rcx && h.r.rcx + n <= e.sp.stackSize {
      h' := StackHitOk(e, code, hit, h1);
      RunEnd(e, code, h');
      return;
    }
    var h2 := DataCheckOk(e, code, 6, n, |t| + 4, h1);
    ReadyKept(e, h1, h2);
    if InDataRegion(e, h.r.rcx, n) {
      h' := h2;
      RunEnd(e, code, h');
      return;
    }
    h' := TextCheckOk(e, code, 6 + |d|, store, n, h2);
    if !store && InTextRegion(e, h.r.rcx, n) {
      RunEnd(e, code, h');
    } else {
      RunOut(e, code, hit + 2, h');
    }
  }

  lemma StackCheckLength(n: int, skip: nat)
    requires 0 < n <= 8
    ensures |StackCheck(n, skip)| == 6
  {
  }

  lemma DataCheckLength(e: Env, n: int, skip: nat)
    ensures |DataCheck(e, n, skip)| == if e.sp.dataSize != 0 then 9 else 0
  {
  }

  lemma RunOut(e: Env, code: seq<Item>, k: nat, h: Host)
    requires k < |code| && code[k].JmpTo? && !code[k].to.Local? && |h.cpu.x| == 32
    ensures Run(e, code, k, h) == Out(k, code[k].to, h)
  {
    hide Exec;
  }
}
