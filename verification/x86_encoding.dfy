/** Byte encodings as the generator writes them, and a decoder that follows the
    architecture's rules for REX, ModRM and SIB. */
module X86Encoding {
  import opened Words
  import opened X86
  import Ir

  // ---------------------------------------------------------------- register and opcode numbers

  function Num(r: Reg): (n: nat)
    ensures n < 16
  {
    match r
    case RAX => 0 case RCX => 1 case RDX => 2 case RBX => 3
    case RSP => 4 case RBP => 5 case RSI => 6 case RDI => 7
    case R8 => 8 case R9 => 9 case R10 => 10 case R11 => 11
    case R12 => 12 case R13 => 13 case R14 => 14 case R15 => 15
  }

  function RegOf(n: nat): Reg
    requires n < 16
  {
    [RAX, RCX, RDX, RBX, RSP, RBP, RSI, RDI, R8, R9, R10, R11, R12, R13, R14, R15][n]
  }

  lemma RegOfNum(r: Reg)
    ensures RegOf(Num(r)) == r
  {
  }

  function CondNum(c: Cond): (n: nat)
    ensures n < 16
  {
    match c
    case B => 2 case AE => 3 case E => 4 case NE => 5
    case A => 7 case L => 12 case GE => 13 case LE => 14
  }

  function CondOf(n: int): Option<Cond>
  {
    if n == 2 then Some(B) else if n == 3 then Some(AE) else if n == 4 then Some(E)
    else if n == 5 then Some(NE) else if n == 7 then Some(A) else if n == 12 then Some(L)
    else if n == 13 then Some(GE) else if n == 14 then Some(LE) else None
  }

  function AluOpcode(op: AluOp): u8
  {
    match op
    case ADD => 0x01 case OR => 0x09 case AND => 0x21 case SUB => 0x29
    case XOR => 0x31 case CMP => 0x39 case TEST => 0x85 case MOV => 0x89
  }

  function AluOf(b: u8): Option<AluOp>
  {
    if b == 0x01 then Some(ADD) else if b == 0x09 then Some(OR) else if b == 0x21 then Some(AND)
    else if b == 0x29 then Some(SUB) else if b == 0x31 then Some(XOR) else if b == 0x39 then Some(CMP)
    else if b == 0x85 then Some(TEST) else if b == 0x89 then Some(MOV) else None
  }

  function ImmExt(op: ImmOp): nat
  {
    match op
    case ADDI => 0 case ORI => 1 case ANDI => 4 case XORI => 6 case CMPI => 7
  }

  function ImmOf(n: int): Option<ImmOp>
  {
    if n == 0 then Some(ADDI) else if n == 1 then Some(ORI) else if n == 4 then Some(ANDI)
    else if n == 6 then Some(XORI) else if n == 7 then Some(CMPI) else None
  }

  function ShiftExt(op: ShiftOp): nat
  {
    match op
    case SHL => 4 case SHR => 5 case SAR => 7
  }

  function ShiftOf(n: int): Option<ShiftOp>
  {
    if n == 4 then Some(SHL) else if n == 5 then Some(SHR) else if n == 7 then Some(SAR) else None
  }

  function Grp3Ext(op: Grp3Op): nat
  {
    match op
    case MUL => 4 case IMUL => 5 case DIV => 6 case IDIV => 7
  }

  function Grp3Of(n: int): Option<Grp3Op>
  {
    if n == 4 then Some(MUL) else if n == 5 then Some(IMUL) else if n == 6 then Some(DIV)
    else if n == 7 then Some(IDIV) else None
  }

  // ---------------------------------------------------------------- encoding

  predicate FitsI8(v: int) { -128 <= v <= 127 }

  function Flag(b: bool): nat { if b then 1 else 0 }

  /** A REX byte carrying nothing is left out. */
  function Rex(w: bool, reg: nat, rm: nat): seq<u8>
    requires reg < 16 && rm < 16
  {
    var v := 0x40 + 8 * Flag(w) + 4 * (reg / 8) + rm / 8;
    if v == 0x40 then [] else [v]
  }

  function ModRm(mod: nat, reg: nat, rm: nat): u8
    requires mod < 4
  {
    mod * 64 + reg % 8 * 8 + rm % 8
  }

  function Imm32(v: i32): (s: seq<u8>)
    ensures |s| == 4
  {
    Le(W32(v), 4)
  }

  /** [base + disp], with the SIB byte that RSP and R12 need as a base. */
  function MemOperand(reg: nat, base: nat, disp: i32): seq<u8>
  {
    var sib: seq<u8> := if base % 8 == 4 then [0x24] else [];
    if FitsI8(disp) then [ModRm(1, reg, base)] + sib + [disp % 0x100]
    else [ModRm(2, reg, base)] + sib + Imm32(disp)
  }

  function EncodeLoad(k: Ir.LoadKind, dst: nat, base: nat, disp: i32): seq<u8>
    requires dst < 16 && base < 16
  {
    match k
    case L8 => Rex(true, dst, base) + [0x0F, 0xBE, ModRm(0, dst, base)]
    case L8U => Rex(true, dst, base) + [0x0F, 0xB6, ModRm(0, dst, base)]
    case L16 => Rex(true, dst, base) + [0x0F, 0xBF, ModRm(0, dst, base)]
    case L16U => Rex(true, dst, base) + [0x0F, 0xB7, ModRm(0, dst, base)]
    case L32 => Rex(true, dst, base) + [0x63] + MemOperand(dst, base, disp)
    case L32U => Rex(false, dst, base) + [0x8B] + MemOperand(dst, base, disp)
    case L64 => Rex(true, dst, base) + [0x8B] + MemOperand(dst, base, disp)
  }

  function EncodeStore(k: Ir.StoreKind, base: nat, disp: i32, src: nat): seq<u8>
    requires src < 16 && base < 16
  {
    match k
    case St8 => Rex(false, src, base) + [0x88] + MemOperand(src, base, disp)
    case St16 => [0x66] + Rex(false, src, base) + [0x89] + MemOperand(src, base, disp)
    case St32 => Rex(false, src, base) + [0x89] + MemOperand(src, base, disp)
    case St64 => Rex(true, src, base) + [0x89] + MemOperand(src, base, disp)
  }

  /** A short form for 8-bit immediates, and one for adding to RAX. */
  function ImmTail(op: ImmOp, dst: nat, imm: i32): seq<u8>
    requires dst < 16
  {
    if FitsI8(imm) then [0x83, ModRm(3, ImmExt(op), dst), imm % 0x100]
    else if dst == 0 && op == ADDI then [0x05] + Imm32(imm)
    else [0x81, ModRm(3, ImmExt(op), dst)] + Imm32(imm)
  }

  function EncodeImmOp(op: ImmOp, w: bool, dst: nat, imm: i32): seq<u8>
    requires dst < 16
  {
    Rex(w, 0, dst) + ImmTail(op, dst, imm)
  }

  function EncodeSetcc(c: Cond, dst: ByteReg): seq<u8>
  {
    match dst
    case Low(r) => Rex(false, 0, Num(r)) + [0x0F, 0x90 + CondNum(c), ModRm(3, 0, Num(r))]
    case High(r) => [0x0F, 0x90 + CondNum(c), ModRm(3, 0, 4 + Num(r) % 4)]
  }

  function Encode(ins: Instr): seq<u8>
  {
    match ins
    case Rr(op, w, dst, src) =>
      Rex(w, Num(src), Num(dst)) + [AluOpcode(op), ModRm(3, Num(src), Num(dst))]
    case Movsxd(dst, src) => Rex(true, Num(dst), Num(src)) + [0x63, ModRm(3, Num(dst), Num(src))]
    case LoadM(k, dst, base, disp) => EncodeLoad(k, Num(dst), Num(base), disp)
    case StoreM(k, base, disp, src) => EncodeStore(k, Num(base), disp, Num(src))
    case MovImm(dst, imm) => Rex(true, 0, Num(dst)) + [0xB8 + Num(dst) % 8] + Le(imm, 8)
    case RImm(op, w, dst, imm) => EncodeImmOp(op, w, Num(dst), imm)
    case ShiftImm(op, w, dst, count) => Rex(w, 0, Num(dst)) + [0xC1, ModRm(3, ShiftExt(op), Num(dst)), count]
    case ShiftCl(op, w, dst) => Rex(w, 0, Num(dst)) + [0xD3, ModRm(3, ShiftExt(op), Num(dst))]
    case Setcc(c, dst) => EncodeSetcc(c, dst)
    case MovzxB(dst, src) => Rex(true, Num(dst), Num(src)) + [0x0F, 0xB6, ModRm(3, Num(dst), Num(src))]
    case Cqo(w) => Rex(w, 0, 0) + [0x99]
    case Imul(w, dst, src) => Rex(w, Num(dst), Num(src)) + [0x0F, 0xAF, ModRm(3, Num(dst), Num(src))]
    case Grp3(op, w, src) => Rex(w, 0, Num(src)) + [0xF7, ModRm(3, Grp3Ext(op), Num(src))]
    case Push(src) => Rex(false, 0, Num(src)) + [0x50 + Num(src) % 8]
    case Pop(dst) => Rex(false, 0, Num(dst)) + [0x58 + Num(dst) % 8]
    case Jmp(rel) => [0xE9] + Imm32(rel)
    case Jcc(c, rel) => [0x0F, 0x80 + CondNum(c)] + Imm32(rel)
    case JmpR(src) => Rex(false, 0, Num(src)) + [0xFF, ModRm(3, 4, Num(src))]
    case CallR(src) => Rex(false, 0, Num(src)) + [0xFF, ModRm(3, 2, Num(src))]
    case Ret => [0xC3]
    case Int3 => [0xCC]
    case Ud2 => [0x0F, 0x0B]
  }

  // ---------------------------------------------------------------- decoding

  /** The operand-size prefix and the REX bits in front of an opcode. */
  datatype Prefix = Prefix(opSize: bool, rex: bool, w: bool, r: nat, x: nat, b: nat, length: nat)

  function ReadPrefix(c: seq<u8>): (p: Prefix)
    ensures p.r <= 1 && p.b <= 1 && p.length <= |c|
  {
    var n := if |c| > 0 && c[0] == 0x66 then 1 else 0;
    if |c| > n && 0x40 <= c[n] < 0x50 then
      Prefix(n == 1, true, c[n] >= 0x48, c[n] / 4 % 2, c[n] / 2 % 2, c[n] % 2, n + 1)
    else Prefix(n == 1, false, false, 0, 0, 0, n)
  }

  /** A register-direct ModRM: both registers. */
  function Mod3(p: Prefix, m: u8): (nat, nat)
    requires p.r <= 1 && p.b <= 1
  {
    (m / 8 % 8 + 8 * p.r, m % 8 + 8 * p.b)
  }

  /** A memory ModRM with a displacement: base, displacement and bytes consumed after the ModRM. */
  function ReadMem(p: Prefix, c: seq<u8>): Option<(nat, i32, nat)>
    requires |c| > 0 && p.b <= 1
  {
    var mod, rm := c[0] / 64, c[0] % 8;
    var s := if rm == 4 then 1 else 0;
    if |c| < 1 + s || p.x != 0 then None
    else if rm == 4 && c[1] / 8 != 4 then None
    else
      var base := (if rm == 4 then c[1] % 8 else rm) + 8 * p.b;
      if mod == 1 && |c| >= 2 + s then
        var d := c[1 + s];
        Some((base, S8(d), 2 + s))
      else if mod == 2 && |c| >= 5 + s then Some((base, S32(ReadI32(c, 1 + s)), 5 + s))
      else if mod == 0 && rm != 4 && rm != 5 then Some((base, 0, 1))
      else None
  }

  function S8(b: u8): i32 { if b < 0x80 then b else b - 0x100 }

  function ReadI32(c: seq<u8>, i: nat): u32
    requires i + 4 <= |c|
  {
    var b0: int, b1: int, b2: int, b3: int := c[i], c[i + 1], c[i + 2], c[i + 3];
    b0 + 0x100 * b1 + 0x1_0000 * b2 + 0x100_0000 * b3
  }

  /** An 8-bit register operand. */
  function ByteRegOf(p: Prefix, n: nat): ByteReg
    requires n < 16
  {
    if !p.rex && 4 <= n < 8 then High(RegOf(n - 4)) else Low(RegOf(n))
  }

  function DecodeLoad(k: Ir.LoadKind, p: Prefix, c: seq<u8>, head: nat): Option<(Instr, nat)>
    requires p.r <= 1 && p.b <= 1
  {
    if |c| <= head then None
    else
      match ReadMem(p, c[head..])
      case None => None
      case Some(t) =>
        if t.0 >= 16 then None
        else Some((LoadM(k, RegOf(c[head] / 8 % 8 + 8 * p.r), RegOf(t.0), t.1), p.length + head + t.2))
  }

  function DecodeStore(k: Ir.StoreKind, p: Prefix, c: seq<u8>): Option<(Instr, nat)>
    requires p.r <= 1 && p.b <= 1
  {
    if |c| <= 1 then None
    else
      var reg := c[1] / 8 % 8 + 8 * p.r;
      match ReadMem(p, c[1..])
      case None => None
      case Some(t) =>
        if t.0 >= 16 || (k.St8? && !p.rex && 4 <= reg < 8) then None
        else Some((StoreM(k, RegOf(t.0), t.1, RegOf(reg)), p.length + 1 + t.2))
  }

  function DecodeTwoByte(p: Prefix, c: seq<u8>): Option<(Instr, nat)>
    requires p.r <= 1 && p.b <= 1 && |c| >= 2
  {
    var op := c[1];
    if op == 0x0B then Some((Ud2, p.length + 2))
    else if 0x80 <= op < 0x90 then
      if |c| < 6 then None
      else match CondOf(op - 0x80) case None => None
        case Some(cc) => Some((Jcc(cc, S32(ReadI32(c, 2))), p.length + 6))
    else if |c| < 3 then None
    else
      var (reg, rm) := Mod3(p, c[2]);
      if c[2] / 64 == 3 then
        if op == 0xAF then Some((Imul(p.w, RegOf(reg), RegOf(rm)), p.length + 3))
        else if op == 0xB6 && p.w then Some((MovzxB(RegOf(reg), RegOf(rm)), p.length + 3))
        else if 0x90 <= op < 0xA0 then
          match CondOf(op - 0x90) case None => None
          case Some(cc) => Some((Setcc(cc, ByteRegOf(p, rm)), p.length + 3))
        else None
      else if !p.w then None
      else if op == 0xBE then DecodeLoad(Ir.L8, p, c, 2)
      else if op == 0xB6 then DecodeLoad(Ir.L8U, p, c, 2)
      else if op == 0xBF then DecodeLoad(Ir.L16, p, c, 2)
      else if op == 0xB7 then DecodeLoad(Ir.L16U, p, c, 2)
      else None
  }

  /** Opcodes followed by a register-direct ModRM. */
  function DecodeMod3(p: Prefix, c: seq<u8>): Option<(Instr, nat)>
    requires p.r <= 1 && p.b <= 1 && |c| >= 2 && c[1] / 64 == 3
  {
    var op := c[0];
    var (reg, rm) := Mod3(p, c[1]);
    var ext := c[1] / 8 % 8;
    if AluOf(op).Some? then Some((Rr(AluOf(op).value, p.w, RegOf(rm), RegOf(reg)), p.length + 2))
    else if op == 0x63 && p.w then Some((Movsxd(RegOf(reg), RegOf(rm)), p.length + 2))
    else if op == 0x83 && |c| >= 3 && ImmOf(ext).Some? then
      Some((RImm(ImmOf(ext).value, p.w, RegOf(rm), S8(c[2])), p.length + 3))
    else if op == 0x81 && |c| >= 6 && ImmOf(ext).Some? then
      Some((RImm(ImmOf(ext).value, p.w, RegOf(rm), S32(ReadI32(c, 2))), p.length + 6))
    else if op == 0xC1 && |c| >= 3 && ShiftOf(ext).Some? then
      Some((ShiftImm(ShiftOf(ext).value, p.w, RegOf(rm), c[2]), p.length + 3))
    else if op == 0xD3 && ShiftOf(ext).Some? then Some((ShiftCl(ShiftOf(ext).value, p.w, RegOf(rm)), p.length + 2))
    else if op == 0xF7 && Grp3Of(ext).Some? then Some((Grp3(Grp3Of(ext).value, p.w, RegOf(rm)), p.length + 2))
    else if op == 0xFF && ext == 4 then Some((JmpR(RegOf(rm)), p.length + 2))
    else if op == 0xFF && ext == 2 then Some((CallR(RegOf(rm)), p.length + 2))
    else None
  }

  /** Opcodes followed by a memory ModRM. */
  function DecodeMemory(p: Prefix, c: seq<u8>): Option<(Instr, nat)>
    requires p.r <= 1 && p.b <= 1 && |c| >= 2
  {
    var op := c[0];
    if op == 0x63 && p.w then DecodeLoad(Ir.L32, p, c, 1)
    else if op == 0x8B then DecodeLoad(if p.w then Ir.L64 else Ir.L32U, p, c, 1)
    else if op == 0x88 then DecodeStore(Ir.St8, p, c)
    else if op == 0x89 then DecodeStore(if p.opSize then Ir.St16 else if p.w then Ir.St64 else Ir.St32, p, c)
    else None
  }

  /** The rest of an instruction once its prefixes are read. */
  function DecodeBody(p: Prefix, c: seq<u8>): Option<(Instr, nat)>
    requires p.r <= 1 && p.b <= 1
  {
    if |c| == 0 then None
    else
      var op := c[0];
      if op == 0x0F then (if |c| >= 2 then DecodeTwoByte(p, c) else None)
      else if op == 0xC3 then Some((Ret, p.length + 1))
      else if op == 0xCC then Some((Int3, p.length + 1))
      else if op == 0x99 then Some((Cqo(p.w), p.length + 1))
      else if 0x50 <= op < 0x58 then Some((Push(RegOf(op - 0x50 + 8 * p.b)), p.length + 1))
      else if 0x58 <= op < 0x60 then Some((Pop(RegOf(op - 0x58 + 8 * p.b)), p.length + 1))
      else if 0xB8 <= op < 0xC0 then
        if p.w && |c| >= 9 then
          var imm := FromLe(c[1..9]);
          if imm < TWO64 then Some((MovImm(RegOf(op - 0xB8 + 8 * p.b), imm), p.length + 9)) else None
        else None
      else if op == 0xE9 then (if |c| >= 5 then Some((Jmp(S32(ReadI32(c, 1))), p.length + 5)) else None)
      else if op == 0x05 then (if |c| >= 5 then Some((RImm(ADDI, p.w, RAX, S32(ReadI32(c, 1))), p.length + 5)) else None)
      else if |c| < 2 then None
      else if c[1] / 64 == 3 then DecodeMod3(p, c)
      else DecodeMemory(p, c)
  }

  /** The instruction at the start of c, and its length. */
  function Decode(c: seq<u8>): Option<(Instr, nat)>
  {
    var p := ReadPrefix(c);
    DecodeBody(p, c[p.length..])
  }

  // ---------------------------------------------------------------- round trip

  /** The operands for which the generator's encoding is the instruction meant. Byte and
      word loads have no displacement and cannot use a base that ModRM reserves; an 8-bit
      register operand numbered 4 to 7 needs some REX byte, and the generator never emits
      an empty one. */
  predicate Encodable(ins: Instr)
  {
    match ins
    case LoadM(k, _, base, disp) =>
      k.L32? || k.L32U? || k.L64? || (disp == 0 && Num(base) % 8 != 4 && Num(base) % 8 != 5)
    case StoreM(k, base, _, src) => !k.St8? || Num(src) < 4 || Num(src) >= 8 || Num(base) >= 8
    case Setcc(_, dst) => if dst.Low? then Num(dst.reg) < 4 || Num(dst.reg) >= 8 else Num(dst.high) < 4
    case _ => true
  }

  lemma PrefixOk(w: bool, reg: nat, rm: nat, tail: seq<u8>)
    requires reg < 16 && rm < 16 && |tail| > 0 && tail[0] != 0x66 && !(0x40 <= tail[0] < 0x50)
    ensures var p := ReadPrefix(Rex(w, reg, rm) + tail);
            p == Prefix(false, |Rex(w, reg, rm)| == 1, w, reg / 8, 0, rm / 8, |Rex(w, reg, rm)|) &&
            (Rex(w, reg, rm) + tail)[p.length..] == tail
  {
    var c := Rex(w, reg, rm) + tail;
    if Rex(w, reg, rm) == [] { assert c == tail; } else { assert c[0] == Rex(w, reg, rm)[0]; }
  }

  lemma ModRmOk(mod: nat, reg: nat, rm: nat)
    requires mod < 4 && reg < 16 && rm < 16
    ensures var m := ModRm(mod, reg, rm);
            m / 64 == mod && m / 8 % 8 == reg % 8 && m % 8 == rm % 8 &&
            m / 8 % 8 + 8 * (reg / 8) == reg && m % 8 + 8 * (rm / 8) == rm
  {
    var m := ModRm(mod, reg, rm);
    DivModUnique(m, 8, 8 * mod + reg % 8, rm % 8);
    DivModUnique(8 * mod + reg % 8, 8, mod, reg % 8);
    DivModUnique(m, 64, mod, 8 * (reg % 8) + rm % 8);
  }

  lemma FromLe4(s: seq<u8>)
    requires |s| == 4
    ensures FromLe(s) == ReadI32(s, 0)
  {
    var t := s[1..];
    assert FromLe(s) == s[0] + 0x100 * FromLe(t);
    assert FromLe(t) == t[0] + 0x100 * FromLe(t[1..]);
    assert FromLe(t[1..]) == t[1] + 0x100 * FromLe(t[2..]);
    assert FromLe(t[2..]) == t[2];
  }

  lemma ReadI32Ok(v: i32, c: seq<u8>, i: nat)
    requires i + 4 <= |c| && c[i..i + 4] == Imm32(v)
    ensures S32(ReadI32(c, i)) == v
  {
    var s := Imm32(v);
    hide Imm32;
    assert c[i] == s[0] && c[i + 1] == s[1] && c[i + 2] == s[2] && c[i + 3] == s[3];
    assert ReadI32(c, i) == ReadI32(s, 0);
    FromLe4(s);
    Imm32Value(v);
  }

  lemma Imm32Value(v: i32)
    ensures FromLe(Imm32(v)) == W32(v) && S32(W32(v)) == v
  {
    assert Pow256(4) == TWO32 by { assert Pow256(2) == 0x1_0000 && Pow256(3) == 0x100 * Pow256(2); }
    LeRoundTrip(W32(v), 4);
  }

  // Each family of instructions: the decoder reads back what was encoded, whatever follows.

  ghost predicate RoundTrips(ins: Instr, rest: seq<u8>)
  {
    Decode(Encode(ins) + rest) == Some((ins, |Encode(ins)|))
  }

  /** The decoder after a REX prefix. */
  lemma AfterRex(w: bool, reg: nat, rm: nat, tail: seq<u8>, rest: seq<u8>, ins: Instr)
    requires reg < 16 && rm < 16 && |tail| > 0 && tail[0] != 0x66 && !(0x40 <= tail[0] < 0x50)
    requires Encode(ins) == Rex(w, reg, rm) + tail
    requires var x := Rex(w, reg, rm);
             DecodeBody(Prefix(false, |x| == 1, w, reg / 8, 0, rm / 8, |x|), tail + rest) == Some((ins, |x| + |tail|))
    ensures RoundTrips(ins, rest)
  {
    hide ReadPrefix, DecodeBody, Encode, Rex;
    PrefixOk(w, reg, rm, tail + rest);
    assert Encode(ins) + rest == Rex(w, reg, rm) + (tail + rest);
  }

  /** Opcodes whose meaning depends on a ModRM byte that follows. */
  predicate ModRmOpcode(op: u8)
  {
    AluOf(op).Some? || op in {0x63, 0x81, 0x83, 0xC1, 0xD3, 0xF7, 0xFF}
  }

  /** The decoder's view of a register-direct ModRM behind such an opcode. */
  lemma BodyIsMod3(p: Prefix, op: u8, reg: nat, rm: nat, c: seq<u8>)
    requires reg < 16 && rm < 16 && p.r == reg / 8 && p.b == rm / 8
    requires ModRmOpcode(op) && |c| >= 2 && c[0] == op && c[1] == ModRm(3, reg, rm)
    ensures c[1] / 64 == 3 && Mod3(p, c[1]) == (reg, rm) && c[1] / 8 % 8 == reg % 8
    ensures DecodeBody(p, c) == DecodeMod3(p, c)
  {
    hide DecodeMod3, DecodeMemory, DecodeTwoByte;
    ModRmOk(3, reg, rm);
  }

  lemma RoundTripRr(op: AluOp, w: bool, dst: Reg, src: Reg, rest: seq<u8>)
    ensures RoundTrips(Rr(op, w, dst, src), rest)
  {
    hide Decode, DecodeBody, Mod3, ModRm, Rex, Num, RegOf;
    var x := Rex(w, Num(src), Num(dst));
    var p := Prefix(false, |x| == 1, w, Num(src) / 8, 0, Num(dst) / 8, |x|);
    var tail := [AluOpcode(op), ModRm(3, Num(src), Num(dst))];
    RegOfNum(dst); RegOfNum(src);
    BodyIsMod3(p, AluOpcode(op), Num(src), Num(dst), tail + rest);
    AfterRex(w, Num(src), Num(dst), tail, rest, Rr(op, w, dst, src));
  }

  lemma RoundTripMovsxd(dst: Reg, src: Reg, rest: seq<u8>)
    ensures RoundTrips(Movsxd(dst, src), rest)
  {
    hide Decode, DecodeBody, Mod3, ModRm, Rex, Num, RegOf, Imm32;
    var x := Rex(true, Num(dst), Num(src));
    var p := Prefix(false, |x| == 1, true, Num(dst) / 8, 0, Num(src) / 8, |x|);
    var tail := [0x63, ModRm(3, Num(dst), Num(src))];
    RegOfNum(dst); RegOfNum(src);
    BodyIsMod3(p, 0x63, Num(dst), Num(src), tail + rest);
    AfterRex(true, Num(dst), Num(src), tail, rest, Movsxd(dst, src));
  }

  lemma RoundTripShiftCl(op: ShiftOp, w: bool, dst: Reg, rest: seq<u8>)
    ensures RoundTrips(ShiftCl(op, w, dst), rest)
  {
    hide Decode, DecodeBody, Mod3, ModRm, Rex, Num, RegOf, Imm32;
    var x := Rex(w, 0, Num(dst));
    var p := Prefix(false, |x| == 1, w, 0, 0, Num(dst) / 8, |x|);
    var tail := [0xD3, ModRm(3, ShiftExt(op), Num(dst))];
    RegOfNum(dst);
    BodyIsMod3(p, 0xD3, ShiftExt(op), Num(dst), tail + rest);
    AfterRex(w, 0, Num(dst), tail, rest, ShiftCl(op, w, dst));
  }

  lemma RoundTripShiftImm(op: ShiftOp, w: bool, dst: Reg, count: u8, rest: seq<u8>)
    ensures RoundTrips(ShiftImm(op, w, dst, count), rest)
  {
    hide Decode, DecodeBody, Mod3, ModRm, Rex, Num, RegOf, Imm32;
    var x := Rex(w, 0, Num(dst));
    var p := Prefix(false, |x| == 1, w, 0, 0, Num(dst) / 8, |x|);
    var tail := [0xC1, ModRm(3, ShiftExt(op), Num(dst)), count];
    RegOfNum(dst);
    BodyIsMod3(p, 0xC1, ShiftExt(op), Num(dst), tail + rest);
    AfterRex(w, 0, Num(dst), tail, rest, ShiftImm(op, w, dst, count));
  }

  lemma RoundTripGrp3(op: Grp3Op, w: bool, src: Reg, rest: seq<u8>)
    ensures RoundTrips(Grp3(op, w, src), rest)
  {
    hide Decode, DecodeBody, Mod3, ModRm, Rex, Num, RegOf, Imm32;
    var x := Rex(w, 0, Num(src));
    var p := Prefix(false, |x| == 1, w, 0, 0, Num(src) / 8, |x|);
    var tail := [0xF7, ModRm(3, Grp3Ext(op), Num(src))];
    RegOfNum(src);
    BodyIsMod3(p, 0xF7, Grp3Ext(op), Num(src), tail + rest);
    AfterRex(w, 0, Num(src), tail, rest, Grp3(op, w, src));
  }

  lemma RoundTripJmpR(src: Reg, rest: seq<u8>)
    ensures RoundTrips(JmpR(src), rest)
  {
    hide Decode, DecodeBody, Mod3, ModRm, Rex, Num, RegOf, Imm32;
    var x := Rex(false, 0, Num(src));
    var p := Prefix(false, |x| == 1, false, 0, 0, Num(src) / 8, |x|);
    var tail := [0xFF, ModRm(3, 4, Num(src))];
    RegOfNum(src);
    BodyIsMod3(p, 0xFF, 4, Num(src), tail + rest);
    AfterRex(false, 0, Num(src), tail, rest, JmpR(src));
  }

  lemma RoundTripCallR(src: Reg, rest: seq<u8>)
    ensures RoundTrips(CallR(src), rest)
  {
    hide Decode, DecodeBody, Mod3, ModRm, Rex, Num, RegOf, Imm32;
    var x := Rex(false, 0, Num(src));
    var p := Prefix(false, |x| == 1, false, 0, 0, Num(src) / 8, |x|);
    var tail := [0xFF, ModRm(3, 2, Num(src))];
    RegOfNum(src);
    BodyIsMod3(p, 0xFF, 2, Num(src), tail + rest);
    AfterRex(false, 0, Num(src), tail, rest, CallR(src));
  }

  lemma RoundTripImm8(op: ImmOp, w: bool, dst: Reg, imm: i32, rest: seq<u8>)
    requires FitsI8(imm)
    ensures RoundTrips(RImm(op, w, dst, imm), rest)
  {
    hide Decode, DecodeBody, Mod3, ModRm, Rex, RegOf, Num, ReadI32, S32, Imm32;
    var x := Rex(w, 0, Num(dst));
    var p := Prefix(false, |x| == 1, w, 0, 0, Num(dst) / 8, |x|);
    RegOfNum(dst);
    var tail := [0x83, ModRm(3, ImmExt(op), Num(dst)), imm % 0x100];
    BodyIsMod3(p, 0x83, ImmExt(op), Num(dst), tail + rest);
    assert S8(imm % 0x100) == imm;
    AfterRex(w, 0, Num(dst), tail, rest, RImm(op, w, dst, imm));
  }

  lemma EncodeImm32Form(op: ImmOp, w: bool, dst: Reg, imm: i32)
    requires !FitsI8(imm) && !(dst == RAX && op == ADDI)
    ensures Encode(RImm(op, w, dst, imm)) == Rex(w, 0, Num(dst)) + ([0x81, ModRm(3, ImmExt(op), Num(dst))] + Imm32(imm))
  {
    hide FitsI8, Rex, ModRm, Imm32;
  }

  lemma RoundTripImm32(op: ImmOp, w: bool, dst: Reg, imm: i32, rest: seq<u8>)
    requires !FitsI8(imm) && !(dst == RAX && op == ADDI)
    ensures RoundTrips(RImm(op, w, dst, imm), rest)
  {
    hide Decode, DecodeBody, Mod3, ModRm, Rex, RegOf, Num, ReadI32, S32, Imm32, Encode, FitsI8;
    var n := Num(dst);
    var x := Rex(w, 0, n);
    var p := Prefix(false, |x| == 1, w, 0, 0, n / 8, |x|);
    RegOfNum(dst);
    var tail := [0x81, ModRm(3, ImmExt(op), n)] + Imm32(imm);
    EncodeImm32Form(op, w, dst, imm);
    ReadI32Ok(imm, tail + rest, 2);
    BodyIsMod3(p, 0x81, ImmExt(op), n, tail + rest);
    AfterRex(w, 0, n, tail, rest, RImm(op, w, dst, imm));
  }

  lemma RoundTripAddRax(w: bool, imm: i32, rest: seq<u8>)
    requires !FitsI8(imm)
    ensures RoundTrips(RImm(ADDI, w, RAX, imm), rest)
  {
    hide Decode, DecodeBody, Mod3, ModRm, RegOf, ReadI32, S32, Imm32, FitsI8;
    var x := Rex(w, 0, 0);
    var p := Prefix(false, |x| == 1, w, 0, 0, 0, |x|);
    var tail := [0x05] + Imm32(imm);
    ReadI32Ok(imm, tail + rest, 1);
    ShortAdd(p, tail + rest, imm);
    AfterRex(w, 0, 0, tail, rest, RImm(ADDI, w, RAX, imm));
  }

  lemma ShortAdd(p: Prefix, c: seq<u8>, imm: i32)
    requires p.r <= 1 && p.b <= 1 && |c| >= 5 && c[0] == 0x05 && S32(ReadI32(c, 1)) == imm
    ensures DecodeBody(p, c) == Some((RImm(ADDI, p.w, RAX, imm), p.length + 5))
  {
    hide DecodeMod3, DecodeMemory, DecodeTwoByte, ReadI32, S32;
  }

  // ---------------------------------------------------------------- opcodes without a ModRM byte

  lemma RoundTripShort(ins: Instr, rest: seq<u8>)
    requires ins.Push? || ins.Pop? || ins.Cqo?
    ensures RoundTrips(ins, rest)
  {
    hide Decode, Rex, DecodeMod3, DecodeMemory, DecodeTwoByte;
    match ins
    case Push(r) => RegOfNum(r); AfterRex(false, 0, Num(r), [0x50 + Num(r) % 8], rest, ins);
    case Pop(r) => RegOfNum(r); AfterRex(false, 0, Num(r), [0x58 + Num(r) % 8], rest, ins);
    case Cqo(w) => AfterRex(w, 0, 0, [0x99], rest, ins);
  }

  lemma RoundTripBare(ins: Instr, rest: seq<u8>)
    requires ins.Ret? || ins.Int3? || ins.Ud2?
    ensures RoundTrips(ins, rest)
  {
    hide DecodeMod3, DecodeMemory;
    var c := Encode(ins) + rest;
    assert c[0..] == c;
  }

  lemma RoundTripMovImm(dst: Reg, imm: u64, rest: seq<u8>)
    ensures RoundTrips(MovImm(dst, imm), rest)
  {
    hide Decode, Rex, Le, FromLe, DecodeMod3, DecodeMemory, DecodeTwoByte;
    RegOfNum(dst);
    var tail := [0xB8 + Num(dst) % 8] + Le(imm, 8);
    assert (tail + rest)[1..9] == Le(imm, 8);
    Pow256Eight();
    LeRoundTrip(imm, 8);
    AfterRex(true, 0, Num(dst), tail, rest, MovImm(dst, imm));
  }

  lemma RoundTripJump(ins: Instr, rest: seq<u8>)
    requires ins.Jmp? || ins.Jcc?
    ensures RoundTrips(ins, rest)
  {
    hide DecodeMod3, DecodeMemory, ReadI32, Imm32, S32;
    var c := Encode(ins) + rest;
    assert c[0..] == c;
    ReadI32Ok(ins.rel, c, if ins.Jmp? then 1 else 2);
  }

  // ---------------------------------------------------------------- two-byte opcodes

  lemma TwoByteMod3(p: Prefix, op: u8, reg: nat, rm: nat, c: seq<u8>)
    requires reg < 16 && rm < 16 && p.r == reg / 8 && p.b == rm / 8
    requires |c| >= 3 && c[0] == 0x0F && c[1] == op && c[2] == ModRm(3, reg, rm)
    ensures c[2] / 64 == 3 && Mod3(p, c[2]) == (reg, rm) && DecodeBody(p, c) == DecodeTwoByte(p, c)
  {
    hide DecodeMod3, DecodeMemory, DecodeTwoByte;
    ModRmOk(3, reg, rm);
  }

  lemma RoundTripImul(w: bool, dst: Reg, src: Reg, rest: seq<u8>)
    ensures RoundTrips(Imul(w, dst, src), rest)
  {
    hide Decode, DecodeBody, Mod3, ModRm, Rex, Num, RegOf, DecodeLoad;
    var x := Rex(w, Num(dst), Num(src));
    var p := Prefix(false, |x| == 1, w, Num(dst) / 8, 0, Num(src) / 8, |x|);
    var tail := [0x0F, 0xAF, ModRm(3, Num(dst), Num(src))];
    RegOfNum(dst); RegOfNum(src);
    TwoByteMod3(p, 0xAF, Num(dst), Num(src), tail + rest);
    AfterRex(w, Num(dst), Num(src), tail, rest, Imul(w, dst, src));
  }

  lemma RoundTripMovzxB(dst: Reg, src: Reg, rest: seq<u8>)
    ensures RoundTrips(MovzxB(dst, src), rest)
  {
    hide Decode, DecodeBody, Mod3, ModRm, Rex, Num, RegOf, DecodeLoad;
    var x := Rex(true, Num(dst), Num(src));
    var p := Prefix(false, |x| == 1, true, Num(dst) / 8, 0, Num(src) / 8, |x|);
    var tail := [0x0F, 0xB6, ModRm(3, Num(dst), Num(src))];
    RegOfNum(dst); RegOfNum(src);
    TwoByteMod3(p, 0xB6, Num(dst), Num(src), tail + rest);
    AfterRex(true, Num(dst), Num(src), tail, rest, MovzxB(dst, src));
  }

  /** What the generator's SETcc bytes decode to, for every register: AH to BH in place of
      SPL to DIL, because the empty REX byte is not emitted. */
  lemma SetccDecodes(c: Cond, r: Reg, rest: seq<u8>)
    ensures var bytes := Encode(Setcc(c, Low(r)));
            Decode(bytes + rest) ==
            Some((Setcc(c, if 4 <= Num(r) < 8 then High(RegOf(Num(r) - 4)) else Low(r)), |bytes|))
  {
    hide DecodeBody, Mod3, ModRm, RegOf, DecodeLoad, ReadPrefix, Num, Rex;
    RexByteReg(Num(r));
    var x := Rex(false, 0, Num(r));
    var p := Prefix(false, |x| == 1, false, 0, 0, Num(r) / 8, |x|);
    var tail := [0x0F, 0x90 + CondNum(c), ModRm(3, 0, Num(r))];
    RegOfNum(r);
    TwoByteMod3(p, 0x90 + CondNum(c), 0, Num(r), tail + rest);
    PrefixOk(false, 0, Num(r), tail + rest);
    assert Encode(Setcc(c, Low(r))) + rest == x + (tail + rest);
  }

  lemma RexByteReg(n: nat)
    requires n < 16
    ensures |Rex(false, 0, n)| == if n >= 8 then 1 else 0
  {
  }

  /** SETcc means the register it names exactly when that register is not SP, BP, SI or DI. */
  lemma SetccExact(c: Cond, r: Reg, rest: seq<u8>)
    ensures RoundTrips(Setcc(c, Low(r)), rest) <==> !(r == RSP || r == RBP || r == RSI || r == RDI)
  {
    hide Decode, Encode, RegOf;
    SetccDecodes(c, r, rest);
  }

  // ---------------------------------------------------------------- memory operands

  lemma ReadMemOk(p: Prefix, reg: nat, base: nat, disp: i32, rest: seq<u8>)
    requires reg < 16 && base < 16 && p.b == base / 8 && p.x == 0
    ensures var c := MemOperand(reg, base, disp) + rest;
            ReadMem(p, c) == Some((base, disp, |MemOperand(reg, base, disp)|)) &&
            c[0] / 8 % 8 == reg % 8 && c[0] / 64 != 3
  {
    hide ReadI32, Imm32, S32;
    var c := MemOperand(reg, base, disp) + rest;
    var s := if base % 8 == 4 then 1 else 0;
    if FitsI8(disp) {
      ModRmOk(1, reg, base);
      assert S8(disp % 0x100) == disp;
    } else {
      ModRmOk(2, reg, base);
      ReadI32Ok(disp, c, 1 + s);
    }
  }

  /** Loads and stores through MemOperand share one shape: prefix, opcode, operand. */
  lemma BodyIsMemory(p: Prefix, op: u8, reg: nat, base: nat, disp: i32, rest: seq<u8>)
    requires reg < 16 && base < 16 && p.r == reg / 8 && p.b == base / 8 && p.x == 0
    requires op == 0x63 || op == 0x88 || op == 0x89 || op == 0x8B
    ensures var c := [op] + MemOperand(reg, base, disp) + rest;
            DecodeBody(p, c) == DecodeMemory(p, c) && c[1] / 8 % 8 + 8 * p.r == reg &&
            c[1..] == MemOperand(reg, base, disp) + rest &&
            ReadMem(p, c[1..]) == Some((base, disp, |MemOperand(reg, base, disp)|))
  {
    hide DecodeMod3, DecodeMemory, DecodeTwoByte, MemOperand, ReadMem;
    var m := MemOperand(reg, base, disp);
    ReadMemOk(p, reg, base, disp, rest);
    assert |m| > 0 by { MemOperandLength(reg, base, disp); }
    var c := [op] + m + rest;
    assert c[1..] == m + rest;
  }

  lemma MemOperandLength(reg: nat, base: nat, disp: i32)
    ensures 2 <= |MemOperand(reg, base, disp)| <= 6
  {
  }

  lemma RoundTripLoad(k: Ir.LoadKind, dst: Reg, base: Reg, disp: i32, rest: seq<u8>)
    requires k.L32? || k.L32U? || k.L64?
    ensures RoundTrips(LoadM(k, dst, base, disp), rest)
  {
    hide Decode, DecodeBody, ReadMem, MemOperand, Rex, Num, RegOf;
    var w, op := !k.L32U?, if k.L32? then 0x63 else 0x8B;
    var x := Rex(w, Num(dst), Num(base));
    var p := Prefix(false, |x| == 1, w, Num(dst) / 8, 0, Num(base) / 8, |x|);
    var m := MemOperand(Num(dst), Num(base), disp);
    MemOperandLength(Num(dst), Num(base), disp);
    RegOfNum(dst); RegOfNum(base);
    BodyIsMemory(p, op, Num(dst), Num(base), disp, rest);
    assert x + [op] + m == x + ([op] + m);
    AfterRex(w, Num(dst), Num(base), [op] + m, rest, LoadM(k, dst, base, disp));
  }

  lemma RoundTripStore(k: Ir.StoreKind, base: Reg, disp: i32, src: Reg, rest: seq<u8>)
    requires k.St32? || k.St64?
    ensures RoundTrips(StoreM(k, base, disp, src), rest)
  {
    hide Decode, DecodeBody, ReadMem, MemOperand, Rex, Num, RegOf;
    var w := k.St64?;
    var x := Rex(w, Num(src), Num(base));
    var p := Prefix(false, |x| == 1, w, Num(src) / 8, 0, Num(base) / 8, |x|);
    var m := MemOperand(Num(src), Num(base), disp);
    MemOperandLength(Num(src), Num(base), disp);
    RegOfNum(src); RegOfNum(base);
    BodyIsMemory(p, 0x89, Num(src), Num(base), disp, rest);
    assert x + [0x89] + m == x + ([0x89] + m);
    AfterRex(w, Num(src), Num(base), [0x89] + m, rest, StoreM(k, base, disp, src));
  }

  lemma RexPresent(reg: nat, rm: nat)
    requires reg < 16 && rm < 16
    ensures |Rex(false, reg, rm)| == if reg >= 8 || rm >= 8 then 1 else 0
  {
  }

  lemma RoundTripStore8(base: Reg, disp: i32, src: Reg, rest: seq<u8>)
    requires Num(src) < 4 || Num(src) >= 8 || Num(base) >= 8
    ensures RoundTrips(StoreM(Ir.St8, base, disp, src), rest)
  {
    hide Decode, DecodeBody, ReadMem, MemOperand, Rex, Num, RegOf;
    var x := Rex(false, Num(src), Num(base));
    RexPresent(Num(src), Num(base));
    var p := Prefix(false, |x| == 1, false, Num(src) / 8, 0, Num(base) / 8, |x|);
    var m := MemOperand(Num(src), Num(base), disp);
    MemOperandLength(Num(src), Num(base), disp);
    RegOfNum(src); RegOfNum(base);
    BodyIsMemory(p, 0x88, Num(src), Num(base), disp, rest);
    assert x + [0x88] + m == x + ([0x88] + m);
    AfterRex(false, Num(src), Num(base), [0x88] + m, rest, StoreM(Ir.St8, base, disp, src));
  }

  /** The operand-size prefix comes before REX. */
  lemma RoundTripStore16(base: Reg, disp: i32, src: Reg, rest: seq<u8>)
    ensures RoundTrips(StoreM(Ir.St16, base, disp, src), rest)
  {
    hide DecodeBody, ReadMem, MemOperand, Rex, Num, RegOf, ReadPrefix, Encode;
    var x := Rex(false, Num(src), Num(base));
    var p := Prefix(true, |x| == 1, false, Num(src) / 8, 0, Num(base) / 8, |x| + 1);
    var m := MemOperand(Num(src), Num(base), disp);
    var c := [0x89] + m + rest;
    BodyIsMemory(p, 0x89, Num(src), Num(base), disp, rest);
    MemOperandLength(Num(src), Num(base), disp);
    OpSizePrefixOk(Num(src), Num(base), c);
    Store16Form(base, disp, src);
    assert [0x66] + x + ([0x89] + m) + rest == [0x66] + x + c;
    Store16Body(p, base, disp, src, c);
  }

  lemma Store16Form(base: Reg, disp: i32, src: Reg)
    ensures Encode(StoreM(Ir.St16, base, disp, src)) ==
            [0x66] + Rex(false, Num(src), Num(base)) + ([0x89] + MemOperand(Num(src), Num(base), disp))
  {
    hide Rex, MemOperand, Num;
  }

  lemma Store16Body(p: Prefix, base: Reg, disp: i32, src: Reg, c: seq<u8>)
    requires p.opSize && p.r == Num(src) / 8 && p.b == Num(base) / 8 && |c| >= 2 && c[0] == 0x89
    requires DecodeBody(p, c) == DecodeMemory(p, c) && c[1] / 8 % 8 + 8 * p.r == Num(src)
    requires ReadMem(p, c[1..]) == Some((Num(base), disp, |MemOperand(Num(src), Num(base), disp)|))
    ensures DecodeBody(p, c) ==
            Some((StoreM(Ir.St16, base, disp, src), p.length + 1 + |MemOperand(Num(src), Num(base), disp)|))
  {
    hide DecodeBody, ReadMem, MemOperand, Rex, Num, RegOf;
    RegOfNum(src); RegOfNum(base);
  }

  lemma OpSizePrefixOk(reg: nat, rm: nat, tail: seq<u8>)
    requires reg < 16 && rm < 16 && |tail| > 0 && !(0x40 <= tail[0] < 0x50)
    ensures var x := Rex(false, reg, rm); var c := [0x66] + x + tail;
            ReadPrefix(c) == Prefix(true, |x| == 1, false, reg / 8, 0, rm / 8, |x| + 1) && c[|x| + 1..] == tail
  {
    var x := Rex(false, reg, rm);
    var c := [0x66] + x + tail;
    if x == [] { assert c == [0x66] + tail; } else { assert c[1] == x[0]; }
  }

  /** Byte and word loads, through a base that ModRM can name directly. */
  lemma RoundTripLoadExt(k: Ir.LoadKind, dst: Reg, base: Reg, rest: seq<u8>)
    requires k.L8? || k.L8U? || k.L16? || k.L16U?
    requires Num(base) % 8 != 4 && Num(base) % 8 != 5
    ensures RoundTrips(LoadM(k, dst, base, 0), rest)
  {
    hide Decode, DecodeBody, ModRm, Rex, Num, RegOf;
    var op: u8 := if k.L8? then 0xBE else if k.L8U? then 0xB6 else if k.L16? then 0xBF else 0xB7;
    var x := Rex(true, Num(dst), Num(base));
    var p := Prefix(false, |x| == 1, true, Num(dst) / 8, 0, Num(base) / 8, |x|);
    var tail := [0x0F, op, ModRm(0, Num(dst), Num(base))];
    RegOfNum(dst); RegOfNum(base);
    LoadExtBody(p, k, op, Num(dst), Num(base), tail + rest);
    AfterRex(true, Num(dst), Num(base), tail, rest, LoadM(k, dst, base, 0));
  }

  lemma LoadExtBody(p: Prefix, k: Ir.LoadKind, op: u8, reg: nat, base: nat, c: seq<u8>)
    requires reg < 16 && base < 16 && p.r == reg / 8 && p.b == base / 8 && p.x == 0 && p.w
    requires base % 8 != 4 && base % 8 != 5
    requires (k.L8? && op == 0xBE) || (k.L8U? && op == 0xB6) || (k.L16? && op == 0xBF) || (k.L16U? && op == 0xB7)
    requires |c| >= 3 && c[0] == 0x0F && c[1] == op && c[2] == ModRm(0, reg, base)
    ensures DecodeBody(p, c) == Some((LoadM(k, RegOf(reg), RegOf(base), 0), p.length + 3))
  {
    hide DecodeMod3, DecodeMemory, ModRm, RegOf;
    ModRmOk(0, reg, base);
    assert c[2..][0] == c[2];
    assert ReadMem(p, c[2..]) == Some((base, 0, 1));
  }

  /** Whatever follows it in the buffer, an encoded instruction decodes to itself. */
  lemma DecodeEncode(ins: Instr, rest: seq<u8>)
    requires Encodable(ins)
    ensures Decode(Encode(ins) + rest) == Some((ins, |Encode(ins)|))
  {
    hide Decode, Encode, FitsI8;
    match ins
    case Rr(op, w, dst, src) => RoundTripRr(op, w, dst, src, rest);
    case Movsxd(dst, src) => RoundTripMovsxd(dst, src, rest);
    case LoadM(k, dst, base, disp) =>
      if k.L32? || k.L32U? || k.L64? { RoundTripLoad(k, dst, base, disp, rest); }
      else { RoundTripLoadExt(k, dst, base, rest); }
    case StoreM(k, base, disp, src) =>
      if k.St8? { RoundTripStore8(base, disp, src, rest); }
      else if k.St16? { RoundTripStore16(base, disp, src, rest); }
      else { RoundTripStore(k, base, disp, src, rest); }
    case MovImm(dst, imm) => RoundTripMovImm(dst, imm, rest);
    case RImm(op, w, dst, imm) =>
      if FitsI8(imm) { RoundTripImm8(op, w, dst, imm, rest); }
      else if dst == RAX && op == ADDI { RoundTripAddRax(w, imm, rest); }
      else { RoundTripImm32(op, w, dst, imm, rest); }
    case ShiftImm(op, w, dst, count) => RoundTripShiftImm(op, w, dst, count, rest);
    case ShiftCl(op, w, dst) => RoundTripShiftCl(op, w, dst, rest);
    case Setcc(c, dst) => RoundTripSetcc(c, dst, rest);
    case MovzxB(dst, src) => RoundTripMovzxB(dst, src, rest);
    case Imul(w, dst, src) => RoundTripImul(w, dst, src, rest);
    case Grp3(op, w, src) => RoundTripGrp3(op, w, src, rest);
    case JmpR(src) => RoundTripJmpR(src, rest);
    case CallR(src) => RoundTripCallR(src, rest);
    case Jmp(_) => RoundTripJump(ins, rest);
    case Jcc(_, _) => RoundTripJump(ins, rest);
    case Push(_) => RoundTripShort(ins, rest);
    case Pop(_) => RoundTripShort(ins, rest);
    case Cqo(_) => RoundTripShort(ins, rest);
    case _ => RoundTripBare(ins, rest);
  }

  lemma RoundTripSetcc(c: Cond, dst: ByteReg, rest: seq<u8>)
    requires Encodable(Setcc(c, dst))
    ensures RoundTrips(Setcc(c, dst), rest)
  {
    hide Decode;
    match dst
    case Low(r) => SetccDecodes(c, r, rest);
    case High(r) =>
      var q := RegOf(4 + Num(r));
      SetccDecodes(c, q, rest);
      assert Encode(Setcc(c, Low(q))) == Encode(Setcc(c, dst));
  }
}
