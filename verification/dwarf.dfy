/** The line table: LEB128 numbers, the line-number program, and the row that is kept. */
module Dwarf {
  import opened Words

  // ---------------------------------------------------------------- LEB128

  /** A number starts at p: some byte from there on has no continuation bit. */
  predicate LebAt(s: seq<u8>, p: nat)
    decreases |s| - p
  {
    p < |s| && (s[p] < 0x80 || LebAt(s, p + 1))
  }

  /** The offset behind the number at p. */
  function LebEnd(s: seq<u8>, p: nat): (q: nat)
    requires LebAt(s, p)
    ensures p < q <= |s|
    decreases |s| - p
  {
    if s[p] < 0x80 then p + 1 else LebEnd(s, p + 1)
  }

  /** The number at p, unbounded. */
  function Uleb(s: seq<u8>, p: nat): nat
    requires LebAt(s, p)
    decreases |s| - p
  {
    var byte: int := s[p];
    if byte < 0x80 then byte else byte - 0x80 + 0x80 * Uleb(s, p + 1)
  }

  /** The signed number at p, unbounded: bit 6 of the last byte is the sign. */
  function Sleb(s: seq<u8>, p: nat): int
    requires LebAt(s, p)
    decreases |s| - p
  {
    var byte: int := s[p];
    if byte >= 0x80 then byte - 0x80 + 0x80 * Sleb(s, p + 1)
    else if byte >= 0x40 then byte - 0x80
    else byte
  }

  lemma Pow2Seven(n: nat)
    ensures Pow2(n + 7) == Pow2(n) * 0x80
  {
    assert Pow2(n + 1) == 2 * Pow2(n) && Pow2(n + 2) == 2 * Pow2(n + 1) && Pow2(n + 3) == 2 * Pow2(n + 2);
    assert Pow2(n + 4) == 2 * Pow2(n + 3) && Pow2(n + 5) == 2 * Pow2(n + 4) && Pow2(n + 6) == 2 * Pow2(n + 5);
  }

  lemma Carry(result: int, byte: int, scale: int, tail: int, more: int)
    requires tail == byte + 0x80 * more
    ensures W64(W64(result + byte * scale) + scale * 0x80 * more) == W64(result + scale * tail)
  {
    var x := result + byte * scale;
    assert scale * tail == byte * scale + scale * 0x80 * more by {
      assert scale * tail == scale * byte + scale * (0x80 * more);
    }
    ModEq(x + scale * 0x80 * more, W64(x) + scale * 0x80 * more, TWO64, x / TWO64);
  }

  method ReadUleb128(s: seq<u8>, start: nat) returns (value: u64, p: nat)
    requires LebAt(s, start)
    ensures value == W64(Uleb(s, start)) && p == LebEnd(s, start)
  {
    hide W64, Pow2;
    value, p := 0, start;
    var shift := 0;
    Pow2Zero();
    while s[p] >= 0x80
      invariant LebAt(s, p) && LebEnd(s, p) == LebEnd(s, start)
      invariant W64(value + Pow2(shift) * Uleb(s, p)) == W64(Uleb(s, start))
      decreases |s| - p
    {
      Carry(value, s[p] - 0x80, Pow2(shift), Uleb(s, p), Uleb(s, p + 1));
      Pow2Seven(shift);
      value := W64(value + (s[p] - 0x80) * Pow2(shift));
      p := p + 1;
      shift := shift + 7;
    }
    assert s[p] * Pow2(shift) == Pow2(shift) * Uleb(s, p);
    value := W64(value + s[p] * Pow2(shift));
    p := p + 1;
  }

  lemma Pow2Zero()
    ensures Pow2(0) == 1 && W64(0) == 0
  {
  }

  lemma {:induction false} Pow2Multiple(n: nat) returns (k: nat)
    requires n >= 64
    ensures Pow2(n) == k * TWO64
    decreases n
  {
    if n == 64 {
      Pow2Values();
      k := 1;
    } else {
      k := Pow2Multiple(n - 1);
      k := 2 * k;
    }
  }

  /** The last byte of a signed number, and its sign. */
  lemma LastByte(bits: int, byte: int, shift: nat, tail: int)
    requires tail == if byte >= 0x40 then byte - 0x80 else byte
    ensures W64(bits + Pow2(shift) * tail) ==
            if byte >= 0x40 && shift + 7 < 64 then W64(W64(bits + byte * Pow2(shift)) - Pow2(shift + 7))
            else W64(bits + byte * Pow2(shift))
  {
    hide Pow2;
    var x := bits + byte * Pow2(shift);
    Pow2Seven(shift);
    assert Pow2(shift) * tail == byte * Pow2(shift) - (if byte >= 0x40 then Pow2(shift + 7) else 0);
    if byte >= 0x40 && shift + 7 < 64 {
      ModEq(x - Pow2(shift + 7), W64(x) - Pow2(shift + 7), TWO64, x / TWO64);
    } else if byte >= 0x40 {
      var k := Pow2Multiple(shift + 7);
      ModEq(x, x - Pow2(shift + 7), TWO64, k);
    }
  }

  method ReadSleb128(s: seq<u8>, start: nat) returns (value: int, p: nat)
    requires LebAt(s, start)
    ensures value == S64(W64(Sleb(s, start))) && p == LebEnd(s, start)
  {
    hide W64, Pow2;
    var bits: u64, shift := 0, 0;
    p := start;
    Pow2Zero();
    while s[p] >= 0x80
      invariant LebAt(s, p) && LebEnd(s, p) == LebEnd(s, start)
      invariant W64(bits + Pow2(shift) * Sleb(s, p)) == W64(Sleb(s, start))
      decreases |s| - p
    {
      Carry(bits, s[p] - 0x80, Pow2(shift), Sleb(s, p), Sleb(s, p + 1));
      Pow2Seven(shift);
      bits := W64(bits + (s[p] - 0x80) * Pow2(shift));
      p := p + 1;
      shift := shift + 7;
    }
    LastByte(bits, s[p], shift, Sleb(s, p));
    bits := W64(bits + s[p] * Pow2(shift));
    shift := shift + 7;
    if shift < 64 && s[p] >= 0x40 {
      bits := W64(bits - Pow2(shift));
    }
    p := p + 1;
    value := S64(bits);
  }

  /** The standard encoders, section 7.6 of DWARF 4. */
  function EncodeUleb(v: nat): seq<u8>
  {
    if v < 0x80 then [v] else [v % 0x80 + 0x80] + EncodeUleb(v / 0x80)
  }

  function EncodeSleb(v: int): seq<u8>
    decreases if v < 0 then -v - 1 else v
  {
    var byte, rest := v % 0x80, v / 0x80;
    if (rest == 0 && byte < 0x40) || (rest == -1 && byte >= 0x40) then [byte] else [byte + 0x80] + EncodeSleb(rest)
  }

  lemma {:induction false} UlebInverts(pre: seq<u8>, v: nat, post: seq<u8>)
    ensures var s := pre + EncodeUleb(v) + post;
            LebAt(s, |pre|) && Uleb(s, |pre|) == v && LebEnd(s, |pre|) == |pre| + |EncodeUleb(v)|
    decreases v
  {
    var s := pre + EncodeUleb(v) + post;
    assert s[|pre|] == EncodeUleb(v)[0];
    if v >= 0x80 {
      var first: seq<u8> := [v % 0x80 + 0x80];
      UlebInverts(pre + first, v / 0x80, post);
      assert pre + first + EncodeUleb(v / 0x80) + post == s;
    }
  }

  lemma {:induction false} SlebInverts(pre: seq<u8>, v: int, post: seq<u8>)
    ensures var s := pre + EncodeSleb(v) + post;
            LebAt(s, |pre|) && Sleb(s, |pre|) == v && LebEnd(s, |pre|) == |pre| + |EncodeSleb(v)|
    decreases if v < 0 then -v - 1 else v
  {
    var s := pre + EncodeSleb(v) + post;
    assert s[|pre|] == EncodeSleb(v)[0];
    var byte, rest := v % 0x80, v / 0x80;
    if !((rest == 0 && byte < 0x40) || (rest == -1 && byte >= 0x40)) {
      var first: seq<u8> := [byte + 0x80];
      SlebInverts(pre + first, rest, post);
      assert pre + first + EncodeSleb(rest) + post == s;
    }
  }

  /** The readers invert the encoders on all 64-bit values. */
  lemma ReadersInvert(pre: seq<u8>, u: u64, i: int, post: seq<u8>)
    requires -TWO63 <= i < TWO63
    ensures var s := pre + EncodeUleb(u) + post; LebAt(s, |pre|) && W64(Uleb(s, |pre|)) == u
    ensures var s := pre + EncodeSleb(i) + post; LebAt(s, |pre|) && S64(W64(Sleb(s, |pre|))) == i
  {
    hide LebAt, Uleb, Sleb, EncodeUleb, EncodeSleb;
    UlebInverts(pre, u, post);
    SlebInverts(pre, i, post);
  }

  // ---------------------------------------------------------------- the line-number program

  /** What the header of a unit fixes. */
  datatype Header = Header(minInstrLen: u8, lineBase: int, lineRange: u8, opcodeBase: u8, opcodeLens: seq<u8>, filesCount: nat)

  ghost predicate HeaderOk(h: Header)
  {
    h.opcodeBase >= 1 && |h.opcodeLens| == h.opcodeBase - 1 && h.lineRange != 0 && -0x80 <= h.lineBase < 0x80
  }

  datatype Regs = Regs(addr: u64, file: u32, line: u32)

  /** One instruction of the program: the new registers, the offset of the next instruction, and
      whether a row is emitted and whether the sequence ends. */
  datatype Effect = Effect(regs: Regs, next: int, row: bool, end: bool)

  const MAX_SPECIAL_OPCODE := 255

  /** Special opcodes advance line and address together and emit a row. */
  function Special(h: Header, r: Regs, op: u8, p: nat): Effect
    requires HeaderOk(h) && op >= h.opcodeBase
  {
    var adjusted: int := op - h.opcodeBase;
    Effect(r.(line := W32(r.line + h.lineBase + adjusted % h.lineRange),
              addr := W64(r.addr + adjusted / h.lineRange * h.minInstrLen)), p + 1, true, false)
  }

  /** const_add_pc advances the address as the special opcode 255 does, leaves the line alone and emits
      no row. */
  lemma ConstAddsLikeSpecial(h: Header, s: seq<u8>, r: Regs, p: nat)
    requires HeaderOk(h) && h.opcodeBase > 8 && p < |s| && s[p] == 8
    ensures var e := InstructionAt(h, s, r, p);
            e == Some(Effect(r.(addr := Special(h, r, 255, p).regs.addr), p + 1, false, false))
  {
  }

  function SkipUlebs(s: seq<u8>, p: nat, n: nat): (q: Option<nat>)
    ensures q.Some? ==> q.value >= p
    decreases n
  {
    if n == 0 then Some(p) else if LebAt(s, p) then SkipUlebs(s, LebEnd(s, p), n - 1) else None
  }

  /** The extended opcodes; p is behind the opcode. The length counts the sub-opcode. */
  function Extended(s: seq<u8>, r: Regs, p: nat): (e: Option<Effect>)
    ensures e.Some? ==> e.value.next > p
  {
    if !LebAt(s, p) || LebEnd(s, p) >= |s| then None
    else
      var q := LebEnd(s, p);
      var next := q + 1 + W64(Uleb(s, p)) - 1;
      if s[q] == 1 then Some(Effect(r, next, true, true))
      else if s[q] == 2 then
        if q + 9 <= |s| then Some(Effect(r.(addr := W64(FromLe(s[q + 1..q + 9]))), next, false, false)) else None
      else Some(Effect(r, next, false, false))
  }

  function Standard(h: Header, s: seq<u8>, r: Regs, op: u8, p: nat): (e: Option<Effect>)
    requires HeaderOk(h) && 0 < op < h.opcodeBase
    ensures e.Some? ==> e.value.next >= p
  {
    if op == 1 then Some(Effect(r, p, true, false))
    else if op == 2 then
      if LebAt(s, p) then Some(Effect(r.(addr := W64(r.addr + W64(Uleb(s, p)) * h.minInstrLen)), LebEnd(s, p), false, false))
      else None
    else if op == 3 then
      if LebAt(s, p) then Some(Effect(r.(line := W32(r.line + S64(W64(Sleb(s, p))))), LebEnd(s, p), false, false)) else None
    else if op == 4 then
      if LebAt(s, p) then Some(Effect(r.(file := W32(W64(Uleb(s, p)))), LebEnd(s, p), false, false)) else None
    else if op == 8 then
      var adjusted: int := MAX_SPECIAL_OPCODE - h.opcodeBase;
      Some(Effect(r.(addr := W64(r.addr + adjusted / h.lineRange * h.minInstrLen)), p, false, false))
    else if op == 9 then
      if p + 2 <= |s| then Some(Effect(r.(addr := W64(r.addr + FromLe(s[p..p + 2]))), p + 2, false, false)) else None
    else
      match SkipUlebs(s, p, h.opcodeLens[op - 1])
      case Some(q) => Some(Effect(r, q, false, false))
      case None => None
  }

  /** The instruction at p; None if it runs past the section. The next one lies behind it. */
  function InstructionAt(h: Header, s: seq<u8>, r: Regs, p: nat): (e: Option<Effect>)
    requires HeaderOk(h) && p < |s|
    ensures e.Some? ==> e.value.next > p
  {
    var op := s[p];
    if op >= h.opcodeBase then Some(Special(h, r, op, p))
    else if op == 0 then Extended(s, r, p + 1)
    else Standard(h, s, r, op, p + 1)
  }

  /** The rows from p to the end of the unit or the first end of sequence; None if the program
      runs past the section. */
  function Rows(h: Header, s: seq<u8>, p: nat, end: nat, r: Regs): Option<seq<Regs>>
    requires HeaderOk(h) && end <= |s|
    decreases end - p
  {
    if p >= end then Some([])
    else
      match InstructionAt(h, s, r, p)
      case None => None
      case Some(e) =>
        var first := if e.row then [e.regs] else [];
        if e.end then Some(first)
        else
          match Rows(h, s, e.next, end, e.regs)
          case None => None
          case Some(rest) => Some(first + rest)
  }

  // ---------------------------------------------------------------- the standard's programs

  /** The instructions of a line-number program, sections 6.2.5.1 to 6.2.5.3 of DWARF 4. A special
      opcode is given by what it advances, an unknown one by its operands. */
  datatype LineOp =
    | SpecialOp(lineAdvance: int, advance: nat)
    | CopyRow
    | AdvancePc(units: u64)
    | AdvanceLine(delta: int)
    | SetFile(number: u64)
    | ConstAddPc
    | FixedAdvancePc(bytes: nat)
    | UnknownStandard(code: u8, operands: seq<u64>)
    | SetAddress(at: u64)
    | EndSequence
    | UnknownExtended(sub: u8, payload: seq<u8>)

  /** The opcode of a special instruction, by the formula of section 6.2.5.1. */
  function SpecialOpcode(h: Header, lineAdvance: int, advance: int): int
  {
    (lineAdvance - h.lineBase) + h.lineRange * advance + h.opcodeBase
  }

  ghost predicate Encodable(h: Header, op: LineOp)
  {
    match op
    case SpecialOp(l, a) => h.lineBase <= l < h.lineBase + h.lineRange && SpecialOpcode(h, l, a) <= 255
    case CopyRow => h.opcodeBase > 1
    case AdvancePc(_) => h.opcodeBase > 2
    case AdvanceLine(d) => h.opcodeBase > 3 && -TWO63 <= d < TWO63
    case SetFile(_) => h.opcodeBase > 4
    case ConstAddPc => h.opcodeBase > 8
    case FixedAdvancePc(n) => h.opcodeBase > 9 && n < 0x1_0000
    case UnknownStandard(c, s) => 4 < c < h.opcodeBase && c != 8 && c != 9 && c <= |h.opcodeLens| && |s| == h.opcodeLens[c - 1]
    case UnknownExtended(sub, b) => sub != 1 && sub != 2 && |b| < TWO63
    case _ => true
  }

  function EncodeUlebs(vs: seq<u64>): seq<u8> { if vs == [] then [] else EncodeUleb(vs[0]) + EncodeUlebs(vs[1..]) }

  /** An extended instruction: a zero, the length of what follows, a sub-opcode and its operands. */
  function ExtendedBytes(sub: u8, payload: seq<u8>): seq<u8> { [0] + EncodeUleb(|payload| + 1) + [sub] + payload }

  function EncodeOp(h: Header, op: LineOp): (s: seq<u8>)
    requires HeaderOk(h) && Encodable(h, op)
    ensures |s| > 0
  {
    match op
    case SpecialOp(l, a) => MulMonotone(h.lineRange, 0, a); [SpecialOpcode(h, l, a)]
    case CopyRow => [1]
    case AdvancePc(n) => [2] + EncodeUleb(n)
    case AdvanceLine(d) => [3] + EncodeSleb(d)
    case SetFile(n) => [4] + EncodeUleb(n)
    case ConstAddPc => [8]
    case FixedAdvancePc(n) => [9] + Le(n, 2)
    case UnknownStandard(c, s) => [c] + EncodeUlebs(s)
    case SetAddress(a) => ExtendedBytes(2, Le(a, 8))
    case EndSequence => ExtendedBytes(1, [])
    case UnknownExtended(sub, b) => ExtendedBytes(sub, b)
  }

  /** What an instruction does to the registers. */
  function Next(h: Header, op: LineOp, r: Regs): Regs
    requires HeaderOk(h)
  {
    match op
    case SpecialOp(l, a) => r.(line := W32(r.line + l), addr := W64(r.addr + a * h.minInstrLen))
    case AdvancePc(n) => r.(addr := W64(r.addr + n * h.minInstrLen))
    case AdvanceLine(d) => r.(line := W32(r.line + d))
    case SetFile(n) => r.(file := W32(n))
    case ConstAddPc => r.(addr := W64(r.addr + (MAX_SPECIAL_OPCODE - h.opcodeBase) / h.lineRange * h.minInstrLen))
    case FixedAdvancePc(n) => r.(addr := W64(r.addr + n))
    case SetAddress(a) => r.(addr := a)
    case _ => r
  }

  predicate Emits(op: LineOp) { op.SpecialOp? || op.CopyRow? || op.EndSequence? }

  /** The rows a program appends to the line table, up to its first end of sequence. */
  function Table(h: Header, ops: seq<LineOp>, r: Regs): seq<Regs>
    requires HeaderOk(h)
    decreases |ops|
  {
    if ops == [] then []
    else
      var r' := Next(h, ops[0], r);
      (if Emits(ops[0]) then [r'] else []) + (if ops[0].EndSequence? then [] else Table(h, ops[1..], r'))
  }

  function EncodeOps(h: Header, ops: seq<LineOp>): seq<u8>
    requires HeaderOk(h) && forall op <- ops :: Encodable(h, op)
  {
    if ops == [] then [] else EncodeOp(h, ops[0]) + EncodeOps(h, ops[1..])
  }

  /** The interpreter's step on an encoded instruction. */
  ghost predicate StepsOver(h: Header, op: LineOp, r: Regs, pre: seq<u8>, post: seq<u8>)
    requires HeaderOk(h) && Encodable(h, op)
  {
    InstructionAt(h, pre + EncodeOp(h, op) + post, r, |pre|) ==
    Some(Effect(Next(h, op, r), |pre| + |EncodeOp(h, op)|, Emits(op), op.EndSequence?))
  }

  lemma SpecialSteps(h: Header, op: LineOp, r: Regs, pre: seq<u8>, post: seq<u8>)
    requires HeaderOk(h) && Encodable(h, op) && op.SpecialOp?
    ensures StepsOver(h, op, r, pre, post)
  {
    var code := SpecialOpcode(h, op.lineAdvance, op.advance);
    MulMonotone(h.lineRange, 0, op.advance);
    assert (pre + EncodeOp(h, op) + post)[|pre|] == code;
    DivModUnique(code - h.opcodeBase, h.lineRange, op.advance, op.lineAdvance - h.lineBase);
  }

  /** A number behind an opcode. */
  lemma Operand(pre: seq<u8>, opcode: u8, u: u64, d: int, post: seq<u8>)
    requires -TWO63 <= d < TWO63
    ensures var s := pre + ([opcode] + EncodeUleb(u)) + post; var p := |pre| + 1;
            s[|pre|] == opcode && LebAt(s, p) && W64(Uleb(s, p)) == u && LebEnd(s, p) == p + |EncodeUleb(u)|
    ensures var s := pre + ([opcode] + EncodeSleb(d)) + post; var p := |pre| + 1;
            s[|pre|] == opcode && LebAt(s, p) && S64(W64(Sleb(s, p))) == d && LebEnd(s, p) == p + |EncodeSleb(d)|
  {
    hide LebAt, LebEnd, Uleb, Sleb, EncodeUleb, EncodeSleb;
    UlebInverts(pre + [opcode], u, post);
    SlebInverts(pre + [opcode], d, post);
    assert pre + ([opcode] + EncodeUleb(u)) + post == pre + [opcode] + EncodeUleb(u) + post;
    assert pre + ([opcode] + EncodeSleb(d)) + post == pre + [opcode] + EncodeSleb(d) + post;
  }

  lemma OperandSteps(h: Header, op: LineOp, r: Regs, pre: seq<u8>, post: seq<u8>)
    requires HeaderOk(h) && Encodable(h, op) && (op.AdvancePc? || op.AdvanceLine? || op.SetFile?)
    ensures StepsOver(h, op, r, pre, post)
  {
    hide LebAt, LebEnd, Uleb, Sleb, EncodeUleb, EncodeSleb, Extended, Special;
    Operand(pre, if op.AdvancePc? then 2 else 4, if op.AdvancePc? then op.units else if op.SetFile? then op.number else 0, 0, post);
    Operand(pre, 3, 0, if op.AdvanceLine? then op.delta else 0, post);
  }

  lemma BareSteps(h: Header, op: LineOp, r: Regs, pre: seq<u8>, post: seq<u8>)
    requires HeaderOk(h) && Encodable(h, op) && (op.CopyRow? || op.ConstAddPc? || op.FixedAdvancePc?)
    ensures StepsOver(h, op, r, pre, post)
  {
    hide LebAt, Extended, Special;
    var s, p := pre + EncodeOp(h, op) + post, |pre| + 1;
    assert s[|pre|] == EncodeOp(h, op)[0];
    if op.FixedAdvancePc? {
      assert s[p..p + 2] == Le(op.bytes, 2);
      TwoBytes(op.bytes);
    }
  }

  lemma TwoBytes(n: nat)
    requires n < 0x1_0000
    ensures FromLe(Le(n, 2)) == n
  {
    assert Pow256(2) == 0x1_0000;
    LeRoundTrip(n, 2);
  }

  lemma {:induction false} SkipsOperands(pre: seq<u8>, vs: seq<u64>, post: seq<u8>)
    ensures SkipUlebs(pre + EncodeUlebs(vs) + post, |pre|, |vs|) == Some(|pre| + |EncodeUlebs(vs)|)
    decreases |vs|
  {
    hide LebAt, LebEnd, Uleb, EncodeUleb;
    if vs != [] {
      var first, rest := EncodeUleb(vs[0]), EncodeUlebs(vs[1..]);
      UlebInverts(pre, vs[0], rest + post);
      SkipsOperands(pre + first, vs[1..], post);
      assert pre + EncodeUlebs(vs) + post == pre + first + (rest + post) == (pre + first) + rest + post;
    }
  }

  lemma UnknownSteps(h: Header, op: LineOp, r: Regs, pre: seq<u8>, post: seq<u8>)
    requires HeaderOk(h) && Encodable(h, op) && op.UnknownStandard?
    ensures StepsOver(h, op, r, pre, post)
  {
    hide LebAt, SkipUlebs, EncodeUlebs, Extended, Special;
    var s := pre + EncodeOp(h, op) + post;
    assert s[|pre|] == op.code;
    assert s == (pre + [op.code]) + EncodeUlebs(op.operands) + post;
    SkipsOperands(pre + [op.code], op.operands, post);
  }

  /** The interpreter at an extended instruction: the length says where the next one is. */
  lemma ExtendedAt(sub: u8, payload: seq<u8>, r: Regs, pre: seq<u8>, post: seq<u8>)
    requires |payload| < TWO63
    ensures var s := pre + ExtendedBytes(sub, payload) + post; var p := |pre| + 1; var q := p + |EncodeUleb(|payload| + 1)|;
            && s[|pre|] == 0 && LebAt(s, p) && LebEnd(s, p) == q < |s| && s[q] == sub && s[q + 1..q + 1 + |payload|] == payload
            && W64(Uleb(s, p)) == |payload| + 1 && q + 1 + |payload| == |pre| + |ExtendedBytes(sub, payload)| <= |s|
  {
    hide LebAt, LebEnd, Uleb, EncodeUleb;
    var length := EncodeUleb(|payload| + 1);
    var s := pre + ExtendedBytes(sub, payload) + post;
    UlebInverts(pre + [0], |payload| + 1, [sub] + payload + post);
    assert s == (pre + [0]) + length + ([sub] + payload + post);
  }

  lemma SetAddressSteps(h: Header, op: LineOp, r: Regs, pre: seq<u8>, post: seq<u8>)
    requires HeaderOk(h) && Encodable(h, op) && op.SetAddress?
    ensures StepsOver(h, op, r, pre, post)
  {
    hide LebAt, LebEnd, Uleb, EncodeUleb, ExtendedBytes, Special, Standard, FromLe, Le;
    ExtendedAt(2, Le(op.at, 8), r, pre, post);
    EightBytes(op.at);
  }

  lemma ExtendedSteps(h: Header, op: LineOp, r: Regs, pre: seq<u8>, post: seq<u8>)
    requires HeaderOk(h) && Encodable(h, op) && (op.EndSequence? || op.UnknownExtended?)
    ensures StepsOver(h, op, r, pre, post)
  {
    hide LebAt, LebEnd, Uleb, EncodeUleb, ExtendedBytes, Special, Standard, FromLe, Le;
    if op.EndSequence? { ExtendedAt(1, [], r, pre, post); } else { ExtendedAt(op.sub, op.payload, r, pre, post); }
  }

  lemma EightBytes(a: u64)
    ensures FromLe(Le(a, 8)) == a
  {
    Pow256Eight();
    LeRoundTrip(a, 8);
  }

  /** The line-program loop reads the standard's programs as the standard means them: the rows
      found in the encoding of any program are the rows it appends to the line table. */
  lemma {:induction false} ProgramsMean(h: Header, ops: seq<LineOp>, r: Regs, pre: seq<u8>, post: seq<u8>)
    requires HeaderOk(h) && forall op <- ops :: Encodable(h, op)
    ensures var s := pre + EncodeOps(h, ops) + post;
            Rows(h, s, |pre|, |pre| + |EncodeOps(h, ops)|, r) == Some(Table(h, ops, r))
    decreases |ops|
  {
    hide InstructionAt, EncodeOp, Next, Encodable, HeaderOk;
    if ops != [] {
      var op, first, rest := ops[0], EncodeOp(h, ops[0]), EncodeOps(h, ops[1..]);
      var s := pre + EncodeOps(h, ops) + post;
      assert s == pre + first + (rest + post) && s == (pre + first) + rest + post;
      OpSteps(h, op, r, pre, rest + post);
      ProgramsMean(h, ops[1..], Next(h, op, r), pre + first, post);
      assert |first| > 0 && s[|pre|] == first[0];
      var row := if Emits(op) then [Next(h, op, r)] else [];
      assert row + [] == row;
    }
  }

  lemma OpSteps(h: Header, op: LineOp, r: Regs, pre: seq<u8>, post: seq<u8>)
    requires HeaderOk(h) && Encodable(h, op)
    ensures StepsOver(h, op, r, pre, post)
  {
    hide StepsOver, HeaderOk, Encodable;
    match op
    case SpecialOp(_, _) => SpecialSteps(h, op, r, pre, post);
    case AdvancePc(_) => OperandSteps(h, op, r, pre, post);
    case AdvanceLine(_) => OperandSteps(h, op, r, pre, post);
    case SetFile(_) => OperandSteps(h, op, r, pre, post);
    case UnknownStandard(_, _) => UnknownSteps(h, op, r, pre, post);
    case SetAddress(_) => SetAddressSteps(h, op, r, pre, post);
    case EndSequence => ExtendedSteps(h, op, r, pre, post);
    case UnknownExtended(_, _) => ExtendedSteps(h, op, r, pre, post);
    case _ => BareSteps(h, op, r, pre, post);
  }

  // ---------------------------------------------------------------- the row that is kept

  const NO_MATCH: u64 := TWO64 - 1

  /** The best row so far; diff starts at the largest value. */
  datatype Match = Match(row: Option<Regs>, diff: u64)

  /** Row r is at or before the target, closer than diff, and its file number is below the count. */
  predicate Candidate(h: Header, target: u64, r: Regs, diff: int)
  {
    r.addr <= target && target - r.addr < diff && r.file < h.filesCount
  }

  function Remember(h: Header, target: u64, best: Match, r: Regs): Match
  {
    if Candidate(h, target, r, best.diff) then Match(Some(r), target - r.addr) else best
  }

  /** Afterwards the row is not closer than what is kept; what was kept gives way only to something
      closer, and only to this row. */
  method RememberLineRow(h: Header, target: u64, best: Match, r: Regs) returns (now: Match)
    ensures !Candidate(h, target, r, now.diff)
    ensures now != best ==> now.diff < best.diff && r.file < h.filesCount && r.addr <= target
    ensures now != best ==> now == Match(Some(r), target - r.addr)
    ensures now == best <==> r.addr > target || r.file >= h.filesCount || best.diff <= target - r.addr
  {
    if r.addr > target || target - r.addr >= best.diff || r.file >= h.filesCount {
      return best;
    }
    return Match(Some(r), target - r.addr);
  }

  /** That leaves no choice. */
  lemma Remembered(h: Header, target: u64, best: Match, r: Regs, now: Match)
    requires !Candidate(h, target, r, now.diff)
    requires now != best ==> now.diff < best.diff && r.file < h.filesCount && r.addr <= target
    requires now != best ==> now == Match(Some(r), target - r.addr)
    ensures now == Remember(h, target, best, r)
  {
  }

  function Best(h: Header, target: u64, best: Match, rows: seq<Regs>): Match
    decreases |rows|
  {
    if |rows| == 0 then best else Best(h, target, Remember(h, target, best, rows[0]), rows[1..])
  }

  /** The line-program loop of one unit. */
  method RunProgram(h: Header, s: seq<u8>, start: nat, end: nat, target: u64, best: Match) returns (now: Match)
    requires HeaderOk(h) && end <= |s| && Rows(h, s, start, end, Regs(0, 1, 1)).Some?
    ensures now == Best(h, target, best, Rows(h, s, start, end, Regs(0, 1, 1)).value)
  {
    hide InstructionAt, Remember, HeaderOk;
    now := best;
    var p, regs := start, Regs(0, 1, 1);
    ghost var all := Rows(h, s, start, end, regs).value;
    var done := false;
    while p < end && !done
      invariant done || (Rows(h, s, p, end, regs).Some? &&
                         Best(h, target, now, Rows(h, s, p, end, regs).value) == Best(h, target, best, all))
      invariant done ==> now == Best(h, target, best, all)
      decreases !done, end - p
    {
      var e := InstructionAt(h, s, regs, p).value;
      if e.row {
        ghost var was := now;
        now := RememberLineRow(h, target, now, e.regs);
        Remembered(h, target, was, e.regs, now);
      }
      if !e.end { RowThen(e.row, e.regs, Rows(h, s, e.next, end, e.regs).value); }
      regs, p, done := e.regs, (if e.end then p else e.next), e.end;
    }
  }

  lemma RowThen(row: bool, r: Regs, rest: seq<Regs>)
    ensures var s := (if row then [r] else []) + rest; row ==> |s| > 0 && s[0] == r && s[1..] == rest
    ensures !row ==> (if row then [r] else []) + rest == rest
  {
  }

  /** Row i gives the match, beats what was known before, and no earlier row is as close. */
  ghost predicate IsFirstBest(h: Header, target: u64, best: Match, rows: seq<Regs>, i: nat, now: Match)
    requires i < |rows|
  {
    && rows[i].addr <= target && now == Match(Some(rows[i]), target - rows[i].addr)
    && Candidate(h, target, rows[i], best.diff)
    && forall j | 0 <= j < i :: !Candidate(h, target, rows[j], now.diff + 1)
  }

  /** The kept row is the earliest one of least distance among the rows at or before the target
      with a file number below the count; if none beats what was known before, that stays. */
  lemma {:induction false} BestIsArgmin(h: Header, target: u64, best: Match, rows: seq<Regs>)
    ensures var now := Best(h, target, best, rows);
            now.diff <= best.diff && (forall j | 0 <= j < |rows| :: !Candidate(h, target, rows[j], now.diff))
    ensures var now := Best(h, target, best, rows);
            now == best || exists i | 0 <= i < |rows| :: IsFirstBest(h, target, best, rows, i, now)
    decreases |rows|
  {
    if |rows| > 0 {
      var next := Remember(h, target, best, rows[0]);
      BestIsArgmin(h, target, next, rows[1..]);
      var now := Best(h, target, best, rows);
      forall j | 0 <= j < |rows| ensures !Candidate(h, target, rows[j], now.diff) {
        if j > 0 { assert rows[j] == rows[1..][j - 1]; }
      }
      if now == next {
        if next != best { assert IsFirstBest(h, target, best, rows, 0, now); }
      } else {
        var i :| 0 <= i < |rows[1..]| && IsFirstBest(h, target, next, rows[1..], i, now);
        FirstBestLater(h, target, best, rows, i, now);
      }
    }
  }

  lemma FirstBestLater(h: Header, target: u64, best: Match, rows: seq<Regs>, i: nat, now: Match)
    requires |rows| > 0 && i < |rows[1..]|
    requires IsFirstBest(h, target, Remember(h, target, best, rows[0]), rows[1..], i, now)
    ensures IsFirstBest(h, target, best, rows, i + 1, now)
  {
    assert rows[i + 1] == rows[1..][i];
    forall j | 0 <= j < i + 1 ensures !Candidate(h, target, rows[j], now.diff + 1) {
      if j > 0 { assert rows[j] == rows[1..][j - 1]; }
    }
  }

  /** The first unit decides from nothing: a row is found exactly if some row is at or before the
      target, less than the largest distance away, and has a file number below the count. */
  lemma FoundIff(h: Header, target: u64, rows: seq<Regs>)
    ensures Best(h, target, Match(None, NO_MATCH), rows).row.Some? <==>
            exists j | 0 <= j < |rows| :: Candidate(h, target, rows[j], 0xFFFF_FFFF_FFFF_FFFF)
  {
    BestIsArgmin(h, target, Match(None, NO_MATCH), rows);
  }

  // ---------------------------------------------------------------- all units

  /** A unit of the section: its program stands from start to end. */
  datatype Unit = Unit(version: nat, h: Header, start: nat, end: nat)

  const MAX_SUPPORTED_VERSION := 4

  ghost predicate UnitOk(s: seq<u8>, u: Unit)
  {
    HeaderOk(u.h) && u.end <= |s| && Rows(u.h, s, u.start, u.end, Regs(0, 1, 1)).Some?
  }

  ghost function UnitRows(s: seq<u8>, u: Unit): seq<Regs>
    requires UnitOk(s, u)
  {
    Rows(u.h, s, u.start, u.end, Regs(0, 1, 1)).value
  }

  /** Later units carry on from the best row of the earlier ones; newer versions are skipped. */
  method LookupUnits(s: seq<u8>, units: seq<Unit>, target: u64) returns (best: Match)
    requires forall u <- units :: UnitOk(s, u)
    ensures forall u <- units :: NoneCloser(s, u, target, best.diff)
    ensures forall u <- units | u.version == 4 :: forall r <- UnitRows(s, u) :: !Candidate(u.h, target, r, best.diff)
    ensures (forall u <- units :: u.version >= 5) ==> best == Match(None, NO_MATCH)
    ensures best == Match(None, NO_MATCH) || exists i, k | 0 <= i < |units| && 0 <= k :: Earliest(s, units, target, i, k, best)
  {
    hide UnitOk, NoneCloser, Earliest;
    best := Match(None, NO_MATCH);
    ghost var bi, bk := 0, 0;
    for i := 0 to |units|
      invariant forall j | 0 <= j < i :: NoneCloser(s, units[j], target, best.diff)
      invariant best == Match(None, NO_MATCH) || (bi < |units| && Earliest(s, units, target, bi, bk, best))
    {
      var u := units[i];
      if u.version <= MAX_SUPPORTED_VERSION {
        UnitShape(s, u);
        ghost var was := best;
        best := RunProgram(u.h, s, u.start, u.end, target, best);
        ghost var k := UnitStep(s, units, i, target, was, best);
        if best != was { bi, bk := i, k; }
      } else {
        NewerSkipped(s, u, target, best.diff);
      }
    }
    assert best == Match(None, NO_MATCH) || exists i, k | 0 <= i < |units| && 0 <= k :: Earliest(s, units, target, i, k, best);
    VersionsRead(s, units, target, best);
  }

  /** Version 4 is read, version 5 is not. */
  lemma VersionsRead(s: seq<u8>, units: seq<Unit>, target: u64, best: Match)
    requires forall u <- units :: UnitOk(s, u)
    requires forall u <- units :: NoneCloser(s, u, target, best.diff)
    requires best == Match(None, NO_MATCH) || exists i, k | 0 <= i < |units| && 0 <= k :: Earliest(s, units, target, i, k, best)
    ensures forall u <- units | u.version == 4 :: forall r <- UnitRows(s, u) :: !Candidate(u.h, target, r, best.diff)
    ensures (forall u <- units :: u.version >= 5) ==> best == Match(None, NO_MATCH)
  {
    hide UnitOk, UnitRows, Candidate;
  }

  /** No row of a unit, if it is read at all, is closer than diff. */
  ghost predicate NoneCloser(s: seq<u8>, u: Unit, target: u64, diff: int)
    requires UnitOk(s, u)
  {
    u.version <= MAX_SUPPORTED_VERSION ==> forall r <- UnitRows(s, u) :: !Candidate(u.h, target, r, diff)
  }

  /** Row k of unit i gives the match, and no row before it, in this unit or an earlier one, is as close. */
  ghost predicate Earliest(s: seq<u8>, units: seq<Unit>, target: u64, i: nat, k: nat, m: Match)
    requires i < |units| && forall u <- units :: UnitOk(s, u)
  {
    var rows := UnitRows(s, units[i]);
    && units[i].version <= MAX_SUPPORTED_VERSION && k < |rows| && Candidate(units[i].h, target, rows[k], NO_MATCH)
    && m == Match(Some(rows[k]), target - rows[k].addr)
    && (forall j | 0 <= j < k :: !Candidate(units[i].h, target, rows[j], m.diff + 1))
    && forall j | 0 <= j < i :: NoneCloser(s, units[j], target, m.diff + 1)
  }

  lemma UnitShape(s: seq<u8>, u: Unit)
    requires UnitOk(s, u)
    ensures HeaderOk(u.h) && u.end <= |s| && Rows(u.h, s, u.start, u.end, Regs(0, 1, 1)).Some?
  {
    hide Rows, HeaderOk;
  }

  lemma NewerSkipped(s: seq<u8>, u: Unit, target: u64, diff: int)
    requires UnitOk(s, u) && u.version > MAX_SUPPORTED_VERSION
    ensures NoneCloser(s, u, target, diff)
  {
  }

  lemma FartherStill(s: seq<u8>, u: Unit, target: u64, now: int, was: int)
    requires UnitOk(s, u) && now <= was && NoneCloser(s, u, target, was)
    ensures NoneCloser(s, u, target, now)
  {
    hide UnitOk;
  }

  lemma UnitStep(s: seq<u8>, units: seq<Unit>, i: nat, target: u64, was: Match, now: Match) returns (k: nat)
    requires i < |units| && units[i].version <= MAX_SUPPORTED_VERSION && forall u <- units :: UnitOk(s, u)
    requires forall j | 0 <= j < i :: NoneCloser(s, units[j], target, was.diff)
    requires now == Best(units[i].h, target, was, UnitRows(s, units[i]))
    ensures forall j | 0 <= j <= i :: NoneCloser(s, units[j], target, now.diff)
    ensures now != was ==> Earliest(s, units, target, i, k, now)
  {
    hide UnitOk, Best, UnitRows, Candidate;
    var u, rows := units[i], UnitRows(s, units[i]);
    k := 0;
    BestIsArgmin(u.h, target, was, rows);
    forall j | 0 <= j < i ensures NoneCloser(s, units[j], target, now.diff) {
      FartherStill(s, units[j], target, now.diff, was.diff);
    }
    if now != was {
      k :| 0 <= k < |rows| && IsFirstBest(u.h, target, was, rows, k, now);
      FirstIsCandidate(u.h, target, was, rows, k, now);
      forall j | 0 <= j < i ensures NoneCloser(s, units[j], target, now.diff + 1) {
        FartherStill(s, units[j], target, now.diff + 1, was.diff);
      }
    }
  }

  lemma FirstIsCandidate(h: Header, target: u64, was: Match, rows: seq<Regs>, k: nat, now: Match)
    requires k < |rows| && IsFirstBest(h, target, was, rows, k, now)
    ensures Candidate(h, target, rows[k], NO_MATCH) && now.diff + 1 <= was.diff
    ensures now == Match(Some(rows[k]), target - rows[k].addr)
  {
  }
}
