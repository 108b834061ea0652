/** The growing code buffer and the instruction encoders that append to it. */
module CodeBuffer {
  import opened Words
  import opened X86
  import opened X86Encoding
  import Ir

  function Min(a: nat, b: nat): nat { if a < b then a else b }

  /** A fixed buffer. When it is full, bytes are dropped without notice: all records every
      byte that was asked for, and the buffer holds as much of it as fits. */
  class Buffer {
    const data: array<u8>
    var size: nat
    ghost var all: seq<u8>

    ghost predicate Valid()
      reads this, data
    {
      size == Min(|all|, data.Length) && data[..size] == all[..size]
    }

    constructor (capacity: nat)
      ensures Valid() && fresh(data) && all == [] && data.Length == capacity && size == 0
    {
      data := new u8[capacity];
      size, all := 0, [];
    }

    method Emit8(b: u8)
      requires Valid()
      modifies this, data
      ensures Valid() && all == old(all) + [b]
    {
      if size < data.Length {
        data[size] := b;
        size := size + 1;
      }
      all := all + [b];
    }

    method Emit32(v: u32)
      requires Valid()
      modifies this, data
      ensures Valid() && all == old(all) + Le(v, 4)
    {
      Emit8(v % 0x100);
      Emit8(v / 0x100 % 0x100);
      Emit8(v / 0x1_0000 % 0x100);
      Emit8(v / 0x100_0000 % 0x100);
      LeFour(v);
    }

    method Emit64(v: u64)
      requires Valid()
      modifies this, data
      ensures Valid() && all == old(all) + Le(v, 8)
    {
      hide Valid, Le;
      LeHalves(v);
      Emit32(v % TWO32);
      Emit32(v / TWO32);
      Assoc(old(all), Le(v % TWO32, 4), Le(v / TWO32, 4));
    }

    method EmitRex(w: bool, r: nat, x: nat, b: nat)
      requires Valid() && r <= 1 && x <= 1 && b <= 1
      modifies this, data
      ensures Valid()
      ensures all == old(all) + (if !w && r == x == b == 0 then [] else [0x40 + 8 * Flag(w) + 4 * r + 2 * x + b])
      ensures x == 0 ==> all == old(all) + Rex(w, 8 * r, 8 * b)
    {
      var rex: u8 := 0x40;
      if w { rex := rex + 8; }
      if r == 1 { rex := rex + 4; }
      if x == 1 { rex := rex + 2; }
      if b == 1 { rex := rex + 1; }
      if rex != 0x40 {
        Emit8(rex);
      }
    }

    method EmitModRm(mod: nat, reg: nat, rm: nat)
      requires Valid() && mod < 4
      modifies this, data
      ensures Valid() && all == old(all) + [ModRm(mod, reg, rm)]
    {
      Emit8(mod * 64 + reg % 8 * 8 + rm % 8);
    }

    method EmitAluRR(opcode: u8, w: bool, dst: nat, src: nat)
      requires Valid() && dst < 16 && src < 16
      modifies this, data
      ensures Valid() && all == old(all) + Rex(w, src, dst) + [opcode, ModRm(3, src, dst)]
    {
      EmitRex(w, src / 8, 0, dst / 8);
      Emit8(opcode);
      EmitModRm(3, src, dst);
    }

    /** The ModRM, SIB and displacement of [base + disp]. */
    method EmitMemOperand(reg: nat, base: nat, disp: i32)
      requires Valid()
      modifies this, data
      ensures Valid() && all == old(all) + MemOperand(reg, base, disp)
    {
      hide ModRm, Le;
      if FitsI8(disp) {
        EmitModRm(1, reg, base);
        if base % 8 == 4 {
          Emit8(4 * 8 + base % 8);
        }
        Emit8(disp % 0x100);
      } else {
        EmitModRm(2, reg, base);
        if base % 8 == 4 {
          Emit8(4 * 8 + base % 8);
        }
        Emit32(W32(disp));
        Assoc(old(all), [ModRm(2, reg, base)] + (if base % 8 == 4 then [0x24] else []), Imm32(disp));
      }
    }

    method EmitAluRM(opcode: u8, w: bool, reg: nat, base: nat, disp: i32)
      requires Valid() && reg < 16 && base < 16
      modifies this, data
      ensures Valid() && all == old(all) + Rex(w, reg, base) + [opcode] + MemOperand(reg, base, disp)
    {
      hide MemOperand;
      EmitRex(w, reg / 8, 0, base / 8);
      Emit8(opcode);
      EmitMemOperand(reg, base, disp);
    }

    method EmitMovImm64(dst: nat, imm: u64)
      requires Valid() && dst < 16
      modifies this, data
      ensures Valid() && all == old(all) + Rex(true, 0, dst) + [0xB8 + dst % 8] + Le(imm, 8)
    {
      EmitRex(true, 0, 0, dst / 8);
      Emit8(0xB8 + dst % 8);
      Emit64(imm);
    }

    method EmitImmTail(op: ImmOp, dst: nat, imm: i32)
      requires Valid() && dst < 16
      modifies this, data
      ensures Valid() && all == old(all) + ImmTail(op, dst, imm)
    {
      hide ModRm, Le, ImmExt;
      if FitsI8(imm) {
        Emit8(0x83);
        EmitModRm(3, ImmExt(op), dst);
        Emit8(imm % 0x100);
      } else if dst == 0 && op == ADDI {
        Emit8(0x05);
        Emit32(W32(imm));
        Assoc(old(all), [0x05], Imm32(imm));
      } else {
        Emit8(0x81);
        EmitModRm(3, ImmExt(op), dst);
        Emit32(W32(imm));
        Assoc(old(all), [0x81, ModRm(3, ImmExt(op), dst)], Imm32(imm));
      }
    }

    method EmitAluImm32(op: ImmOp, w: bool, dst: nat, imm: i32)
      requires Valid() && dst < 16
      modifies this, data
      ensures Valid() && all == old(all) + EncodeImmOp(op, w, dst, imm)
    {
      hide Rex, ImmTail;
      RexBits(w, 0, dst);
      EmitRex(w, 0, 0, dst / 8);
      EmitImmTail(op, dst, imm);
      Assoc(old(all), Rex(w, 0, dst), ImmTail(op, dst, imm));
    }

    /** PUSH and POP. */
    method EmitRegisterOpcode(base: u8, reg: nat)
      requires Valid() && reg < 16 && base + 8 <= 0x100
      modifies this, data
      ensures Valid() && all == old(all) + Rex(false, 0, reg) + [base + reg % 8]
    {
      if reg >= 8 {
        EmitRex(false, 0, 0, reg / 8);
      }
      Emit8(base + reg % 8);
    }

    method EmitGroup5(ext: nat, reg: nat)
      requires Valid() && reg < 16
      modifies this, data
      ensures Valid() && all == old(all) + Rex(false, 0, reg) + [0xFF, ModRm(3, ext, reg)]
    {
      if reg >= 8 {
        EmitRex(false, 0, 0, reg / 8);
      }
      Emit8(0xFF);
      EmitModRm(3, ext, reg);
    }

    /** An opcode group with the operation in ModRM.reg: shifts and unary multiply/divide. */
    method EmitGroup(opcode: u8, w: bool, ext: nat, reg: nat)
      requires Valid() && reg < 16 && ext < 8
      modifies this, data
      ensures Valid() && all == old(all) + Rex(w, 0, reg) + [opcode, ModRm(3, ext, reg)]
    {
      EmitRex(w, 0, 0, reg / 8);
      Emit8(opcode);
      EmitModRm(3, ext, reg);
    }

    method EmitSetcc(c: Cond, dst: nat)
      requires Valid() && dst < 16
      modifies this, data
      ensures Valid() && all == old(all) + Rex(false, 0, dst) + [0x0F, 0x90 + CondNum(c), ModRm(3, 0, dst)]
    {
      if dst >= 4 {
        EmitRex(false, 0, 0, dst / 8);
      }
      Emit8(0x0F);
      Emit8(0x90 + CondNum(c));
      EmitModRm(3, 0, dst);
    }

    /** Two-byte opcodes with a ModRM of the given mode. */
    method EmitTwoByte(opcode: u8, w: bool, mod: nat, reg: nat, rm: nat)
      requires Valid() && reg < 16 && rm < 16 && mod < 4
      modifies this, data
      ensures Valid() && all == old(all) + Rex(w, reg, rm) + [0x0F, opcode, ModRm(mod, reg, rm)]
    {
      EmitRex(w, reg / 8, 0, rm / 8);
      Emit8(0x0F);
      Emit8(opcode);
      EmitModRm(mod, reg, rm);
    }

    method EmitLoad(k: Ir.LoadKind, dst: nat, base: nat, disp: i32)
      requires Valid() && dst < 16 && base < 16
      modifies this, data
      ensures Valid() && all == old(all) + EncodeLoad(k, dst, base, disp)
    {
      hide Rex, ModRm, MemOperand, Valid;
      match k {
        case L8 => EmitTwoByte(0xBE, true, 0, dst, base);
        case L8U => EmitTwoByte(0xB6, true, 0, dst, base);
        case L16 => EmitTwoByte(0xBF, true, 0, dst, base);
        case L16U => EmitTwoByte(0xB7, true, 0, dst, base);
        case L32 => EmitAluRM(0x63, true, dst, base, disp);
        case L32U => EmitAluRM(0x8B, false, dst, base, disp);
        case L64 => EmitAluRM(0x8B, true, dst, base, disp);
      }
    }

    method EmitStore(k: Ir.StoreKind, base: nat, disp: i32, src: nat)
      requires Valid() && src < 16 && base < 16
      modifies this, data
      ensures Valid() && all == old(all) + EncodeStore(k, base, disp, src)
    {
      hide Rex, ModRm, MemOperand, Valid;
      match k {
        case St8 => EmitAluRM(0x88, false, src, base, disp);
        case St16 =>
          ghost var was := all;
          Emit8(0x66);
          EmitAluRM(0x89, false, src, base, disp);
          PrefixMoves(was, 0x66, Rex(false, src, base), [0x89], MemOperand(src, base, disp));
        case St32 => EmitAluRM(0x89, false, src, base, disp);
        case St64 => EmitAluRM(0x89, true, src, base, disp);
      }
    }

    method EmitJmp(rel: i32)
      requires Valid()
      modifies this, data
      ensures Valid() && all == old(all) + Encode(Jmp(rel))
    {
      hide Encode, Le;
      Emit8(0xE9);
      Emit32(W32(rel));
      JumpBytes(rel);
      Assoc(old(all), [0xE9], Imm32(rel));
    }

    method EmitJcc(c: Cond, rel: i32)
      requires Valid()
      modifies this, data
      ensures Valid() && all == old(all) + Encode(Jcc(c, rel))
    {
      hide Encode, Le, CondNum;
      Emit8(0x0F);
      Emit8(0x80 + CondNum(c));
      Emit32(W32(rel));
      JccBytes(c, rel);
      Assoc(old(all), [0x0F, 0x80 + CondNum(c)], Imm32(rel));
    }

    // One method per mnemonic in the source; here three that select the encoder.

    predicate IsRegisterForm(ins: Instr)
    {
      ins.Rr? || ins.Movsxd? || ins.RImm? || ins.ShiftImm? || ins.ShiftCl? || ins.MovImm?
    }

    predicate IsWideForm(ins: Instr)
    {
      ins.LoadM? || ins.StoreM? || ins.Setcc? || ins.MovzxB? || ins.Cqo? || ins.Imul? || ins.Grp3?
    }

    method EmitRegisterForm(ins: Instr)
      requires Valid() && IsRegisterForm(ins)
      modifies this, data
      ensures Valid() && all == old(all) + Encode(ins)
    {
      hide Rex, ModRm, MemOperand, ImmTail, EncodeLoad, EncodeStore, EncodeImmOp, Le, Num;
      match ins {
        case Rr(op, w, dst, src) => EmitAluRR(AluOpcode(op), w, Num(dst), Num(src));
        case Movsxd(dst, src) => EmitAluRR(0x63, true, Num(src), Num(dst));
        case MovImm(dst, imm) => EmitMovImm64(Num(dst), imm);
        case RImm(op, w, dst, imm) => EmitAluImm32(op, w, Num(dst), imm);
        case ShiftImm(op, w, dst, count) =>
          EmitGroup(0xC1, w, ShiftExt(op), Num(dst));
          Emit8(count);
        case ShiftCl(op, w, dst) => EmitGroup(0xD3, w, ShiftExt(op), Num(dst));
      }
    }

    method EmitWideForm(ins: Instr)
      requires Valid() && IsWideForm(ins) && !(ins.Setcc? && ins.byteDst.High?)
      modifies this, data
      ensures Valid() && all == old(all) + Encode(ins)
    {
      hide Rex, ModRm, MemOperand, ImmTail, EncodeLoad, EncodeStore, EncodeImmOp, Le, Num;
      match ins {
        case LoadM(k, dst, base, disp) => EmitLoad(k, Num(dst), Num(base), disp);
        case StoreM(k, base, disp, src) => EmitStore(k, Num(base), disp, Num(src));
        case Setcc(c, dst) => EmitSetcc(c, Num(dst.reg));
        case MovzxB(dst, src) => EmitTwoByte(0xB6, true, 3, Num(dst), Num(src));
        case Cqo(w) =>
          EmitRex(w, 0, 0, 0);
          Emit8(0x99);
        case Imul(w, dst, src) => EmitTwoByte(0xAF, w, 3, Num(dst), Num(src));
        case Grp3(op, w, src) => EmitGroup(0xF7, w, Grp3Ext(op), Num(src));
      }
    }

    method EmitControlForm(ins: Instr)
      requires Valid() && !IsRegisterForm(ins) && !IsWideForm(ins)
      modifies this, data
      ensures Valid() && all == old(all) + Encode(ins)
    {
      hide Rex, ModRm, MemOperand, ImmTail, EncodeLoad, EncodeStore, EncodeImmOp, Le, Num;
      match ins {
        case Push(src) => EmitRegisterOpcode(0x50, Num(src));
        case Pop(dst) => EmitRegisterOpcode(0x58, Num(dst));
        case Jmp(rel) => EmitJmp(rel);
        case Jcc(c, rel) => EmitJcc(c, rel);
        case JmpR(src) => EmitGroup5(4, Num(src));
        case CallR(src) => EmitGroup5(2, Num(src));
        case Ret => Emit8(0xC3);
        case Int3 => Emit8(0xCC);
        case Ud2 =>
          Emit8(0x0F);
          Emit8(0x0B);
      }
    }

    method Emit(ins: Instr)
      requires Valid() && !(ins.Setcc? && ins.byteDst.High?)
      modifies this, data
      ensures Valid() && all == old(all) + Encode(ins)
    {
      hide Encode;
      if IsRegisterForm(ins) {
        EmitRegisterForm(ins);
      } else if IsWideForm(ins) {
        EmitWideForm(ins);
      } else {
        EmitControlForm(ins);
      }
    }

    /** Overwrites a displacement field inside the buffer; nothing else changes. */
    method Patch32(at: nat, v: u32)
      requires Valid() && at + 4 <= size
      modifies data, this`all
      ensures Valid() && size == old(size) && all == Splice(old(all), at, Le(v, 4))
    {
      data[at] := v % 0x100;
      data[at + 1] := v / 0x100 % 0x100;
      data[at + 2] := v / 0x1_0000 % 0x100;
      data[at + 3] := v / 0x100_0000 % 0x100;
      all := Splice(all, at, Le(v, 4));
      LeFour(v);
    }
  }

  /** REX depends on the top bit of each register number only. */
  lemma RexBits(w: bool, reg: nat, rm: nat)
    requires reg < 16 && rm < 16
    ensures Rex(w, 8 * (reg / 8), 8 * (rm / 8)) == Rex(w, reg, rm)
  {
  }

  lemma JumpBytes(rel: i32)
    ensures Encode(Jmp(rel)) == [0xE9] + Imm32(rel)
  {
    hide Le;
  }

  lemma JccBytes(c: Cond, rel: i32)
    ensures Encode(Jcc(c, rel)) == [0x0F, 0x80 + CondNum(c)] + Imm32(rel)
  {
    hide Le, CondNum;
  }

  function FourBytes(v: nat): seq<u8>
  {
    [v % 0x100, v / 0x100 % 0x100, v / 0x1_0000 % 0x100, v / 0x100_0000 % 0x100]
  }

  lemma LeFirstTwo(v: nat, n: nat)
    ensures Le(v, n + 2) == [v % 0x100, v / 0x100 % 0x100] + Le(v / 0x1_0000, n)
  {
    assert Le(v, n + 2) == [v % 0x100] + Le(v / 0x100, n + 1);
    assert v / 0x100 / 0x100 == v / 0x1_0000;
    assert Le(v / 0x100, n + 1) == [v / 0x100 % 0x100] + Le(v / 0x1_0000, n);
  }

  lemma LeFirstFour(v: nat, n: nat)
    ensures Le(v, n + 4) == FourBytes(v) + Le(v / TWO32, n)
  {
    hide Le;
    LeFirstTwo(v, n + 2);
    LeFirstTwo(v / 0x1_0000, n);
    assert v / 0x1_0000 / 0x1_0000 == v / TWO32 && v / 0x1_0000 / 0x100 == v / 0x100_0000;
  }

  lemma LeFour(v: nat)
    ensures Le(v, 4) == FourBytes(v)
  {
    LeFirstFour(v, 0);
  }

  /** A byte below bit 32 depends on the low word only. */
  lemma ByteOfLow(v: u64, k: int, m: int)
    requires k > 0 && m >= 0 && k * (0x100 * m) == TWO32
    ensures v / k % 0x100 == v % TWO32 / k % 0x100
  {
    var q, w := v / TWO32, v % TWO32;
    assert v == k * (0x100 * m * q + w / k) + w % k by {
      assert w == k * (w / k) + w % k;
      assert k * (0x100 * m * q) == (k * (0x100 * m)) * q;
    }
    DivModUnique(v, k, 0x100 * m * q + w / k, w % k);
    ModEq(v / k, w / k, 0x100, m * q);
  }

  /** Only the low word of a value shows in four bytes. */
  lemma LeLow(v: u64)
    ensures Le(v % TWO32, 4) == Le(v, 4)
  {
    LeFour(v);
    LeFour(v % TWO32);
    ByteOfLow(v, 1, 0x100_0000);
    ByteOfLow(v, 0x100, 0x1_0000);
    ByteOfLow(v, 0x1_0000, 0x100);
    ByteOfLow(v, 0x100_0000, 1);
  }

  lemma LeHalves(v: u64)
    ensures Le(v, 8) == Le(v % TWO32, 4) + Le(v / TWO32, 4)
  {
    LeFirstFour(v, 4);
    LeFour(v);
    LeLow(v);
  }

  lemma PrefixMoves(was: seq<u8>, p: u8, a: seq<u8>, b: seq<u8>, c: seq<u8>)
    ensures was + [p] + a + b + c == was + ([p] + a + b + c)
  {
  }

  lemma Assoc(a: seq<u8>, b: seq<u8>, c: seq<u8>)
    ensures a + b + c == a + (b + c)
  {
  }
}
