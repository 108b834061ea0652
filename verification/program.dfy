/** The layout of a whole compiled program: trampoline, one body per IR operation, epilogue
    and fault stubs, with every label given its place. */
module Program {
  import opened Words
  import opened X86
  import opened Snippet
  import opened Lowering
  import opened Assembler
  import opened Reference
  import Ir

  // ---------------------------------------------------------------- fixed parts

  /** Entry code: saves the callee-saved registers, loads the constants and jumps to RSI. */
  function Trampoline(e: Env): (s: seq<Item>)
    requires e.sp.textAddr + |e.sp.text| < TWO64
    ensures |s| == 13
  {
    [Op(Push(RBP)), Op(Push(RBX)), Op(Push(R12)), Op(Push(R13)), Op(Push(R14)), Op(Push(R15)),
     MovRr(R15, RDI),
     Op(LoadM(Ir.L64, R14, R15, OFF_STACK_MEM)), Op(LoadM(Ir.L64, R13, R15, OFF_STACK_SIZE)),
     Op(MovImm(R12, e.textAt)), Op(MovImm(RBX, e.sp.textAddr)), Op(MovImm(RBP, e.sp.textAddr + |e.sp.text|)),
     Op(JmpR(RSI))]
  }

  /** Exit code: restores the callee-saved registers in reverse order. */
  function EpilogueCode(): (s: seq<Item>)
    ensures |s| == 7
  {
    [Op(Pop(R15)), Op(Pop(R14)), Op(Pop(R13)), Op(Pop(R12)), Op(Pop(RBX)), Op(Pop(RBP)), Op(Ret)]
  }

  function FaultCode(kind: Ir.FaultKind): u64
  {
    match kind
    case Timeout => 1
    case Read => 2
    case Write => 3
  }

  /** A fault stub records where and why, then leaves through the epilogue. */
  function StubCode(pc: u64, kind: Ir.FaultKind): (s: seq<Item>)
    ensures |s| == 5
  {
    [Op(MovImm(RAX, pc)), StorePc(RAX), Op(MovImm(RAX, FaultCode(kind))),
     Op(StoreM(Ir.St64, R15, OFF_FAULT, RAX)), JmpTo(Epilogue)]
  }

  // ---------------------------------------------------------------- stubs

  /** Whether an operation records a fault stub of this kind. */
  predicate Records(ins: Ir.Instr, kind: Ir.FaultKind)
  {
    match kind
    case Timeout => ins.op.FuelCheck?
    case Read => ins.op.Load? && !Ir.Discarded(ins)
    case Write => ins.op.Store?
  }

  /** How many of the first i operations record a stub of this kind. */
  function Count(irs: seq<Ir.Instr>, kind: Ir.FaultKind, i: nat): nat
    requires i <= |irs|
  {
    if i == 0 then 0 else Count(irs, kind, i - 1) + (if Records(irs[i - 1], kind) then 1 else 0)
  }

  function KindOf(ins: Ir.Instr): Ir.FaultKind
  {
    if ins.op.FuelCheck? then Ir.Timeout else if ins.op.Store? then Ir.Write else Ir.Read
  }

  /** The stubs of one kind for the first i operations. */
  function Stubs(irs: seq<Ir.Instr>, kind: Ir.FaultKind, i: nat): (s: seq<Item>)
    requires i <= |irs|
    ensures |s| == 5 * Count(irs, kind, i)
  {
    if i == 0 then [] else
    Stubs(irs, kind, i - 1) + (if Records(irs[i - 1], kind) then StubCode(irs[i - 1].pc, kind) else [])
  }

  // ---------------------------------------------------------------- the program

  function LowerAt(e: Env, irs: seq<Ir.Instr>, i: nat): seq<Item>
    requires i < |irs| && Ir.InstrOk(irs[i])
  {
    Lower(e, irs[i], Count(irs, KindOf(irs[i]), i))
  }

  function Bodies(e: Env, irs: seq<Ir.Instr>, i: nat): seq<Item>
    requires i <= |irs| && forall j | 0 <= j < |irs| :: Ir.InstrOk(irs[j])
  {
    if i == 0 then [] else Bodies(e, irs, i - 1) + LowerAt(e, irs, i - 1)
  }

  ghost predicate Compilable(e: Env, irs: seq<Ir.Instr>)
  {
    e.sp.textAddr + |e.sp.text| < TWO64 && forall j | 0 <= j < |irs| :: Ir.InstrOk(irs[j])
  }

  /** The first item of operation i. */
  ghost function Start(e: Env, irs: seq<Ir.Instr>, i: nat): nat
    requires i <= |irs| && Compilable(e, irs)
  {
    13 + |Bodies(e, irs, i)|
  }

  /** The epilogue directly follows the last operation. */
  ghost function Epi(e: Env, irs: seq<Ir.Instr>): nat
    requires Compilable(e, irs)
  {
    Start(e, irs, |irs|)
  }

  ghost function StubStart(e: Env, irs: seq<Ir.Instr>, kind: Ir.FaultKind): nat
    requires Compilable(e, irs)
  {
    var n := |irs|;
    Epi(e, irs) + 7 + 5 * (match kind
                           case Read => 0
                           case Write => Count(irs, Ir.Read, n)
                           case Timeout => Count(irs, Ir.Read, n) + Count(irs, Ir.Write, n))
  }

  ghost function Items(e: Env, irs: seq<Ir.Instr>): seq<Item>
    requires Compilable(e, irs)
  {
    var n := |irs|;
    Trampoline(e) + Bodies(e, irs, n) + EpilogueCode()
    + Stubs(irs, Ir.Read, n) + Stubs(irs, Ir.Write, n) + Stubs(irs, Ir.Timeout, n)
  }

  /** The item a label stands for; a local label is relative to the jump at j. A guest
      address outside the text stands for the epilogue. */
  ghost function Place(e: Env, irs: seq<Ir.Instr>, j: nat, l: Label): nat
    requires Compilable(e, irs)
  {
    match l
    case Local(d) => j + d
    case GuestPc(pc) => if InText(e.sp, pc) then Start(e, irs, FirstAt(irs, pc, 0)) else Epi(e, irs)
    case Epilogue => Epi(e, irs)
    case Stub(kind, k) => StubStart(e, irs, kind) + 5 * k
  }

  ghost function AllTargets(e: Env, irs: seq<Ir.Instr>): Targets
    requires Compilable(e, irs)
  {
    var items := Items(e, irs);
    map j: nat | j < |items| && IsJump(items[j]) :: Place(e, irs, j, items[j].to)
  }

  /** The finished code. */
  ghost function Image(e: Env, irs: seq<Ir.Instr>): seq<u8>
    requires Compilable(e, irs)
  {
    var items := Items(e, irs);
    Asm(items, AllTargets(e, irs), |items|)
  }

  ghost function CodeBytes(e: Env, irs: seq<Ir.Instr>): nat
    requires Compilable(e, irs)
  {
    var items := Items(e, irs);
    Off(items, |items|)
  }

  // ---------------------------------------------------------------- a buffer that is too small

  /** Every stub, whatever its kind, has a number. */
  ghost function StubRank(irs: seq<Ir.Instr>, kind: Ir.FaultKind, k: nat): nat
  {
    var n := |irs|;
    k + match kind
        case Read => 0
        case Write => Count(irs, Ir.Read, n)
        case Timeout => Count(irs, Ir.Read, n) + Count(irs, Ir.Write, n)
  }

  ghost function AllStubs(irs: seq<Ir.Instr>): nat { StubRank(irs, Ir.Timeout, Count(irs, Ir.Timeout, |irs|)) }

  const FAULT_STUB_BYTES := 39

  /** The bytes up to the first stub. */
  ghost function StubsAt(e: Env, irs: seq<Ir.Instr>): nat
    requires Compilable(e, irs)
  {
    var front := Trampoline(e) + Bodies(e, irs, |irs|) + EpilogueCode();
    Off(front, |front|)
  }

  /** Stub number m, counted from 0, fits into the room. */
  ghost predicate StubFits(e: Env, irs: seq<Ir.Instr>, room: nat, m: nat)
    requires Compilable(e, irs)
  {
    StubsAt(e, irs) + FAULT_STUB_BYTES * (m + 1) <= room
  }

  /** How many stubs fit. */
  ghost function FittingStubs(e: Env, irs: seq<Ir.Instr>, room: nat): (n: nat)
    requires Compilable(e, irs)
    ensures n <= AllStubs(irs) && forall m: nat | m < AllStubs(irs) :: StubFits(e, irs, room, m) <==> m < n
  {
    var most := if room < StubsAt(e, irs) then 0 else (room - StubsAt(e, irs)) / FAULT_STUB_BYTES;
    if most <= AllStubs(irs) then most else AllStubs(irs)
  }

  /** The items up to the last stub that fits. */
  ghost function Whole(e: Env, irs: seq<Ir.Instr>, room: nat): nat
    requires Compilable(e, irs)
  {
    Epi(e, irs) + 7 + 5 * FittingStubs(e, irs, room)
  }

  /** Where a jump leads in this much room: to its place, or for a stub that would start behind the
      room, to the end of the room. */
  ghost function Dest(e: Env, irs: seq<Ir.Instr>, room: nat, j: nat, l: Label): nat
    requires Compilable(e, irs)
  {
    if l.Stub? && room < StubsAt(e, irs) + FAULT_STUB_BYTES * StubRank(irs, l.kind, l.index) then |Items(e, irs)| + 1 + room
    else Place(e, irs, j, l)
  }

  ghost function TargetsIn(e: Env, irs: seq<Ir.Instr>, room: nat): Targets
    requires Compilable(e, irs)
  {
    var items := Items(e, irs);
    map j: nat | j < |items| && IsJump(items[j]) :: Dest(e, irs, room, j, items[j].to)
  }

  // ---------------------------------------------------------------- where the parts are

  lemma {:induction false} CountMonotone(irs: seq<Ir.Instr>, kind: Ir.FaultKind, i: nat, j: nat)
    requires i <= j <= |irs|
    ensures Count(irs, kind, i) <= Count(irs, kind, j)
    decreases j
  {
    if i < j { CountMonotone(irs, kind, i, j - 1); }
  }

  lemma {:induction false} BodiesSlice(e: Env, irs: seq<Ir.Instr>, i: nat, n: nat)
    requires i < n <= |irs| && Compilable(e, irs)
    ensures |Bodies(e, irs, i + 1)| <= |Bodies(e, irs, n)|
    ensures |Bodies(e, irs, i + 1)| == |Bodies(e, irs, i)| + |LowerAt(e, irs, i)|
    ensures Bodies(e, irs, n)[|Bodies(e, irs, i)|..|Bodies(e, irs, i + 1)|] == LowerAt(e, irs, i)
    decreases n
  {
    hide LowerAt;
    if i + 1 < n { BodiesSlice(e, irs, i, n - 1); }
  }

  lemma {:induction false} StubsSlice(irs: seq<Ir.Instr>, kind: Ir.FaultKind, i: nat, n: nat)
    requires i < n <= |irs| && Records(irs[i], kind)
    ensures var k := Count(irs, kind, i);
            5 * k + 5 <= |Stubs(irs, kind, n)| && Stubs(irs, kind, n)[5 * k..5 * k + 5] == StubCode(irs[i].pc, kind)
    decreases n
  {
    hide Records, StubCode;
    if i + 1 < n {
      StubsSlice(irs, kind, i, n - 1);
    }
  }

  /** The five parts of the program, by position. */
  lemma PartSlices(e: Env, irs: seq<Ir.Instr>)
    requires Compilable(e, irs)
    ensures var p, n := Items(e, irs), |irs|; var ep := Epi(e, irs);
            && ep + 7 <= |p|
            && p[..13] == Trampoline(e)
            && p[13..ep] == Bodies(e, irs, n)
            && p[ep..ep + 7] == EpilogueCode()
            && |p| == StubStart(e, irs, Ir.Timeout) + 5 * Count(irs, Ir.Timeout, n)
            && p[StubStart(e, irs, Ir.Read)..StubStart(e, irs, Ir.Write)] == Stubs(irs, Ir.Read, n)
            && p[StubStart(e, irs, Ir.Write)..StubStart(e, irs, Ir.Timeout)] == Stubs(irs, Ir.Write, n)
            && p[StubStart(e, irs, Ir.Timeout)..] == Stubs(irs, Ir.Timeout, n)
  {
    hide Trampoline, EpilogueCode, Bodies, Stubs, Count;
  }

  lemma BodySlice(e: Env, irs: seq<Ir.Instr>, i: nat)
    requires Compilable(e, irs) && i < |irs|
    ensures var p := Items(e, irs); var s, t := Start(e, irs, i), Start(e, irs, i + 1);
            t == s + |LowerAt(e, irs, i)| && t <= Epi(e, irs) <= |p| && p[s..t] == LowerAt(e, irs, i)
  {
    hide Items, Bodies, LowerAt;
    PartSlices(e, irs);
    BodiesSlice(e, irs, i, |irs|);
    var p := Items(e, irs);
    assert p[Start(e, irs, i)..Start(e, irs, i + 1)] ==
           p[13..Epi(e, irs)][|Bodies(e, irs, i)|..|Bodies(e, irs, i + 1)|];
  }

  lemma StubsPart(e: Env, irs: seq<Ir.Instr>, kind: Ir.FaultKind)
    requires Compilable(e, irs)
    ensures var p, b, s := Items(e, irs), StubStart(e, irs, kind), Stubs(irs, kind, |irs|);
            Epi(e, irs) + 7 <= b && b + |s| <= |p| && p[b..b + |s|] == s
  {
    hide Items, Stubs, Epi;
    PartSlices(e, irs);
  }

  lemma SliceOfSlice<T>(p: seq<T>, b: nat, s: seq<T>, i: nat, j: nat)
    requires b + |s| <= |p| && p[b..b + |s|] == s && i <= j <= |s|
    ensures p[b + i..b + j] == s[i..j]
  {
    forall k | 0 <= k < j - i ensures p[b + i..b + j][k] == s[i..j][k] {
      assert p[b..b + |s|][i + k] == p[b + (i + k)];
    }
  }

  lemma StubSlice(e: Env, irs: seq<Ir.Instr>, kind: Ir.FaultKind, i: nat)
    requires Compilable(e, irs) && i < |irs| && Records(irs[i], kind)
    ensures var p := Items(e, irs); var s := StubStart(e, irs, kind) + 5 * Count(irs, kind, i);
            Epi(e, irs) + 7 <= s && s + 5 <= |p| && p[s..s + 5] == StubCode(irs[i].pc, kind)
  {
    hide *;
    StubsPart(e, irs, kind);
    StubsSlice(irs, kind, i, |irs|);
    var k := Count(irs, kind, i);
    SliceOfSlice(Items(e, irs), StubStart(e, irs, kind), Stubs(irs, kind, |irs|), 5 * k, 5 * k + 5);
  }

  lemma StubsBehind(e: Env, irs: seq<Ir.Instr>)
    requires Compilable(e, irs)
    ensures Epi(e, irs) + 7 <= |Items(e, irs)| && StubsAt(e, irs) == Off(Items(e, irs), Epi(e, irs) + 7)
    ensures |Items(e, irs)| == Epi(e, irs) + 7 + 5 * AllStubs(irs)
  {
    hide Trampoline, EpilogueCode, Bodies, Stubs, Count, Off;
    var front := Trampoline(e) + Bodies(e, irs, |irs|) + EpilogueCode();
    var rest := Stubs(irs, Ir.Read, |irs|) + Stubs(irs, Ir.Write, |irs|) + Stubs(irs, Ir.Timeout, |irs|);
    assert Items(e, irs) == front + rest;
    OffPrefix(front, rest, |front|);
  }
}
