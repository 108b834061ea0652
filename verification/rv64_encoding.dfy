/** The 32-bit instruction formats, sections 2.2 and 2.3 of the RISC-V Unprivileged ISA (20191213),
    and the fields the front end reads out of them. */
module Rv64Encoding {
  import opened Words
  import opened Decode

  // ---------------------------------------------------------------- opcodes

  const LOAD := 0x03
  const OP_IMM := 0x13
  const OP_IMM_32 := 0x1B
  const STORE := 0x23
  const OP := 0x33
  const LUI := 0x37
  const OP_32 := 0x3B
  const BRANCH := 0x63
  const JALR := 0x67
  const JAL := 0x6F
  const AUIPC := 0x17
  const MISC_MEM := 0x0F
  const SYSTEM := 0x73

  // ---------------------------------------------------------------- formats

  /** An immediate is stored modulo its width. */
  function EncodeI(op: int, rd: int, f3: int, rs1: int, imm: int): Word
    requires 0 <= op < 0x80 && 0 <= rd < 32 && 0 <= f3 < 8 && 0 <= rs1 < 32
  {
    op + rd * 0x80 + f3 * 0x1000 + rs1 * 0x8000 + imm % 0x1000 * 0x10_0000
  }

  function EncodeR(op: int, rd: int, f3: int, rs1: int, rs2: int, f7: int): Word
    requires 0 <= op < 0x80 && 0 <= rd < 32 && 0 <= f3 < 8 && 0 <= rs1 < 32 && 0 <= rs2 < 32 && 0 <= f7 < 0x80
  {
    op + rd * 0x80 + f3 * 0x1000 + rs1 * 0x8000 + rs2 * 0x10_0000 + f7 * 0x200_0000
  }

  function EncodeS(op: int, f3: int, rs1: int, rs2: int, imm: int): Word
    requires 0 <= op < 0x80 && 0 <= f3 < 8 && 0 <= rs1 < 32 && 0 <= rs2 < 32
  {
    var i := imm % 0x1000;
    op + i % 0x20 * 0x80 + f3 * 0x1000 + rs1 * 0x8000 + rs2 * 0x10_0000 + i / 0x20 * 0x200_0000
  }

  function EncodeB(op: int, f3: int, rs1: int, rs2: int, imm: int): Word
    requires 0 <= op < 0x80 && 0 <= f3 < 8 && 0 <= rs1 < 32 && 0 <= rs2 < 32
  {
    var i := imm % 0x2000;
    op + i / 0x800 % 2 * 0x80 + i / 2 % 0x10 * 0x100 + f3 * 0x1000 + rs1 * 0x8000 + rs2 * 0x10_0000
    + i / 0x20 % 0x40 * 0x200_0000 + i / 0x1000 * 0x8000_0000
  }

  /** imm is the value of the upper 20 bits. */
  function EncodeU(op: int, rd: int, imm: int): Word
    requires 0 <= op < 0x80 && 0 <= rd < 32
  {
    op + rd * 0x80 + imm % 0x10_0000 * 0x1000
  }

  function EncodeJ(op: int, rd: int, imm: int): Word
    requires 0 <= op < 0x80 && 0 <= rd < 32
  {
    var i := imm % 0x20_0000;
    op + rd * 0x80 + i / 0x1000 % 0x100 * 0x1000 + i / 0x800 % 2 * 0x10_0000 + i / 2 % 0x400 * 0x20_0000
    + i / 0x10_0000 * 0x8000_0000
  }

  /** One digit of a mixed-radix number. */
  lemma Digit(x: int, m: int, low: int, n: int, mid: int, high: int)
    requires m > 0 && n > 0 && 0 <= low < m && 0 <= mid < n && x == m * (n * high + mid) + low
    ensures x / m % n == mid && x / m == n * high + mid
  {
    DivModUnique(x, m, n * high + mid, low);
    DivModUnique(n * high + mid, n, high, mid);
  }

  /** The fields of op, rd, funct3, rs1 and the upper twelve bits. */
  lemma Parts(x: Word, op: int, rd: int, f3: int, rs1: int, hi: int)
    requires 0 <= op < 0x80 && 0 <= rd < 32 && 0 <= f3 < 8 && 0 <= rs1 < 32 && 0 <= hi < 0x1000
    requires x == op + rd * 0x80 + f3 * 0x1000 + rs1 * 0x8000 + hi * 0x10_0000
    ensures Opcode(x) == op && Rd(x) == rd && Funct3(x) == f3 && Rs1(x) == rs1
    ensures x / 0x10_0000 == hi && x / 0x200_0000 == hi / 0x20 && x / 0x400_0000 == hi / 0x40
    ensures x / 0x8000_0000 == hi / 0x800
  {
    var a := 0x20 * hi + rs1;
    var b := 8 * a + f3;
    Digit(x, 1, 0, 0x80, op, 0x20 * b + rd);
    Digit(x, 0x80, op, 0x20, rd, b);
    Digit(x, 0x1000, op + rd * 0x80, 8, f3, a);
    Digit(x, 0x8000, op + rd * 0x80 + f3 * 0x1000, 0x20, rs1, hi);
    var low := op + rd * 0x80 + f3 * 0x1000 + rs1 * 0x8000;
    DivModUnique(x, 0x10_0000, hi, low);
    DivModUnique(x, 0x200_0000, hi / 0x20, hi % 0x20 * 0x10_0000 + low);
    DivModUnique(x, 0x400_0000, hi / 0x40, hi % 0x40 * 0x10_0000 + low);
    DivModUnique(x, 0x8000_0000, hi / 0x800, hi % 0x800 * 0x10_0000 + low);
  }

  lemma FieldsI(op: int, rd: int, f3: int, rs1: int, imm: int)
    requires 0 <= op < 0x80 && 0 <= rd < 32 && 0 <= f3 < 8 && 0 <= rs1 < 32 && -0x800 <= imm < 0x800
    ensures var x := EncodeI(op, rd, f3, rs1, imm);
            Opcode(x) == op && Rd(x) == rd && Funct3(x) == f3 && Rs1(x) == rs1 && ImmI(x) == imm
  {
    hide Opcode, Rd, Funct3, Rs1;
    Parts(EncodeI(op, rd, f3, rs1, imm), op, rd, f3, rs1, imm % 0x1000);
  }

  lemma FieldsShift(op: int, rd: int, f3: int, rs1: int, f6: int, shamt: int)
    requires 0 <= op < 0x80 && 0 <= rd < 32 && 0 <= f3 < 8 && 0 <= rs1 < 32 && 0 <= shamt < 64 && 0 <= f6 < 32
    ensures var x := EncodeI(op, rd, f3, rs1, f6 * 64 + shamt);
            Opcode(x) == op && Rd(x) == rd && Funct3(x) == f3 && Rs1(x) == rs1 && Shamt64(x) == shamt && Funct6(x) == f6
  {
    hide Opcode, Rd, Funct3, Rs1;
    Parts(EncodeI(op, rd, f3, rs1, f6 * 64 + shamt), op, rd, f3, rs1, f6 * 64 + shamt);
  }

  lemma FieldsR(op: int, rd: int, f3: int, rs1: int, rs2: int, f7: int)
    requires 0 <= op < 0x80 && 0 <= rd < 32 && 0 <= f3 < 8 && 0 <= rs1 < 32 && 0 <= rs2 < 32 && 0 <= f7 < 0x80
    ensures var x := EncodeR(op, rd, f3, rs1, rs2, f7);
            Opcode(x) == op && Rd(x) == rd && Funct3(x) == f3 && Rs1(x) == rs1 && Rs2(x) == rs2 && Funct7(x) == f7
  {
    hide Opcode, Rd, Funct3, Rs1;
    Parts(EncodeR(op, rd, f3, rs1, rs2, f7), op, rd, f3, rs1, f7 * 0x20 + rs2);
  }

  lemma FieldsS(op: int, f3: int, rs1: int, rs2: int, imm: int)
    requires 0 <= op < 0x80 && 0 <= f3 < 8 && 0 <= rs1 < 32 && 0 <= rs2 < 32 && -0x800 <= imm < 0x800
    ensures var x := EncodeS(op, f3, rs1, rs2, imm);
            Opcode(x) == op && Funct3(x) == f3 && Rs1(x) == rs1 && Rs2(x) == rs2 && ImmS(x) == imm
  {
    hide Opcode, Rd, Funct3, Rs1;
    var i := imm % 0x1000;
    Parts(EncodeS(op, f3, rs1, rs2, imm), op, i % 0x20, f3, rs1, i / 0x20 * 0x20 + rs2);
  }

  /** An even 13-bit immediate by its pieces. */
  lemma PiecesB(imm: int, i: int)
    requires -0x1000 <= imm < 0x1000 && imm % 2 == 0 && i == imm % 0x2000
    ensures imm == Sign(i / 0x1000, 0x1000) + i / 0x800 % 2 * 0x800 + i / 0x20 % 0x40 * 0x20 + i / 2 % 0x10 * 2
    ensures 0 <= i / 0x1000 < 2
  {
    var h := i / 0x20;
    assert i == 0x20 * h + i % 0x20 && h / 0x40 == i / 0x800 && h / 0x80 == i / 0x1000;
    assert i % 0x20 == i / 2 % 0x10 * 2;
    assert h == h / 0x80 * 0x80 + h / 0x40 % 2 * 0x40 + h % 0x40;
    assert i == imm || i == imm + 0x2000;
  }

  lemma DigitsB(x: Word, op: int, f3: int, rs1: int, rs2: int, b12: int, b11: int, b10: int, b4: int)
    requires 0 <= op < 0x80 && 0 <= f3 < 8 && 0 <= rs1 < 32 && 0 <= rs2 < 32
    requires 0 <= b12 < 2 && 0 <= b11 < 2 && 0 <= b10 < 0x40 && 0 <= b4 < 0x10
    requires x == op + b11 * 0x80 + b4 * 0x100 + f3 * 0x1000 + rs1 * 0x8000 + rs2 * 0x10_0000 + b10 * 0x200_0000 + b12 * 0x8000_0000
    ensures Opcode(x) == op && Funct3(x) == f3 && Rs1(x) == rs1 && Rs2(x) == rs2
    ensures ImmB(x) == Sign(b12, 0x1000) + b11 * 0x800 + b10 * 0x20 + b4 * 2
  {
    hide Opcode, Rd, Funct3, Rs1;
    var hi := b12 * 0x800 + b10 * 0x20 + rs2;
    Parts(x, op, b4 * 2 + b11, f3, rs1, hi);
    DivModUnique(hi, 0x20, b12 * 0x40 + b10, rs2);
    DivModUnique(hi, 0x800, b12, b10 * 0x20 + rs2);
    DivModUnique(b12 * 0x40 + b10, 0x40, b12, b10);
    var a := 8 * (0x20 * hi + rs1) + f3;
    Digit(x, 0x80, op, 2, b11, 0x10 * a + b4);
    Digit(x, 0x100, op + b11 * 0x80, 0x10, b4, a);
  }

  lemma FieldsB(op: int, f3: int, rs1: int, rs2: int, imm: int)
    requires 0 <= op < 0x80 && 0 <= f3 < 8 && 0 <= rs1 < 32 && 0 <= rs2 < 32 && -0x1000 <= imm < 0x1000 && imm % 2 == 0
    ensures var x := EncodeB(op, f3, rs1, rs2, imm);
            Opcode(x) == op && Funct3(x) == f3 && Rs1(x) == rs1 && Rs2(x) == rs2 && ImmB(x) == imm
  {
    hide Opcode, Rd, Funct3, Rs1, Rs2, ImmB;
    var i := imm % 0x2000;
    PiecesB(imm, i);
    DigitsB(EncodeB(op, f3, rs1, rs2, imm), op, f3, rs1, rs2, i / 0x1000, i / 0x800 % 2, i / 0x20 % 0x40, i / 2 % 0x10);
  }

  lemma FieldsU(op: int, rd: int, imm: int)
    requires 0 <= op < 0x80 && 0 <= rd < 32 && -0x8_0000 <= imm < 0x8_0000
    ensures var x := EncodeU(op, rd, imm); Opcode(x) == op && Rd(x) == rd && ImmU(x) == imm * 0x1000
  {
    var x, u := EncodeU(op, rd, imm), imm % 0x10_0000;
    Digit(x, 1, 0, 0x80, op, 0x20 * u + rd);
    Digit(x, 0x80, op, 0x20, rd, u);
    DivModUnique(x, 0x1000, u, op + rd * 0x80);
  }

  /** An even 21-bit immediate by its pieces. */
  lemma PiecesJ(imm: int, i: int)
    requires -0x10_0000 <= imm < 0x10_0000 && imm % 2 == 0 && i == imm % 0x20_0000
    ensures imm == Sign(i / 0x10_0000, 0x10_0000) + i / 0x1000 % 0x100 * 0x1000 + i / 0x800 % 2 * 0x800 + i / 2 % 0x400 * 2
    ensures 0 <= i / 0x10_0000 < 2
  {
    var h := i / 0x800;
    assert i == 0x800 * h + i % 0x800 && h / 2 == i / 0x1000 && h / 0x200 == i / 0x10_0000;
    assert i % 0x800 == i / 2 % 0x400 * 2;
    assert h == h / 0x200 * 0x200 + h / 2 % 0x100 * 2 + h % 2;
    assert i == imm || i == imm + 0x20_0000;
  }

  lemma DigitsJ(x: Word, op: int, rd: int, b20: int, b19: int, b11: int, b10: int)
    requires 0 <= op < 0x80 && 0 <= rd < 32 && 0 <= b20 < 2 && 0 <= b19 < 0x100 && 0 <= b11 < 2 && 0 <= b10 < 0x400
    requires x == op + rd * 0x80 + b19 * 0x1000 + b11 * 0x10_0000 + b10 * 0x20_0000 + b20 * 0x8000_0000
    ensures Opcode(x) == op && Rd(x) == rd && ImmJ(x) == Sign(b20, 0x10_0000) + b19 * 0x1000 + b11 * 0x800 + b10 * 2
  {
    var c := 0x400 * b20 + b10;
    var b := 2 * c + b11;
    Digit(x, 1, 0, 0x80, op, 0x20 * (0x100 * b + b19) + rd);
    Digit(x, 0x80, op, 0x20, rd, 0x100 * b + b19);
    Digit(x, 0x1000, op + rd * 0x80, 0x100, b19, b);
    Digit(x, 0x10_0000, op + rd * 0x80 + b19 * 0x1000, 2, b11, c);
    Digit(x, 0x20_0000, op + rd * 0x80 + b19 * 0x1000 + b11 * 0x10_0000, 0x400, b10, b20);
    DivModUnique(x, 0x8000_0000, b20, x - b20 * 0x8000_0000);
  }

  lemma FieldsJ(op: int, rd: int, imm: int)
    requires 0 <= op < 0x80 && 0 <= rd < 32 && -0x10_0000 <= imm < 0x10_0000 && imm % 2 == 0
    ensures var x := EncodeJ(op, rd, imm); Opcode(x) == op && Rd(x) == rd && ImmJ(x) == imm
  {
    hide Opcode, Rd, ImmJ;
    var i := imm % 0x20_0000;
    PiecesJ(imm, i);
    DigitsJ(EncodeJ(op, rd, imm), op, rd, i / 0x10_0000, i / 0x1000 % 0x100, i / 0x800 % 2, i / 2 % 0x400);
  }

  // ---------------------------------------------------------------- back from the fields
  /** A word is the sum of its fields. */
  lemma WordFields(i: Word)
    ensures i == Opcode(i) + Rd(i) * 0x80 + Funct3(i) * 0x1000 + Rs1(i) * 0x8000 + i / 0x10_0000 * 0x10_0000
    ensures i / 0x10_0000 == Funct7(i) * 0x20 + Rs2(i) == Funct6(i) * 0x40 + Shamt64(i)
    ensures 0 <= Opcode(i) < 0x80 && 0 <= Funct3(i) < 8 && 0 <= Funct7(i) < 0x80 && 0 <= Funct6(i) < 0x40
    ensures 0 <= i / 0x10_0000 < 0x1000 && Shamt32(i) == Rs2(i)
  {
    assert i / 0x8000 == i / 0x10_0000 * 0x20 + Rs1(i);
    assert i / 0x1000 == i / 0x8000 * 8 + Funct3(i);
    assert i / 0x80 == i / 0x1000 * 0x20 + Rd(i);
  }

  lemma FormatI(i: Word)
    ensures 0 <= Opcode(i) < 0x80 && 0 <= Funct3(i) < 8 && ImmI(i) % 0x1000 == i / 0x10_0000
    ensures EncodeI(Opcode(i), Rd(i), Funct3(i), Rs1(i), ImmI(i)) == i
  {
    hide Opcode, Rd, Funct3, Rs1, Funct7, Funct6, Rs2, Shamt64, Shamt32;
    WordFields(i);
  }

  lemma FormatR(i: Word)
    ensures 0 <= Opcode(i) < 0x80 && 0 <= Funct3(i) < 8 && 0 <= Funct7(i) < 0x80
    ensures EncodeR(Opcode(i), Rd(i), Funct3(i), Rs1(i), Rs2(i), Funct7(i)) == i
  {
    hide Opcode, Rd, Funct3, Rs1, Funct7, Funct6, Rs2, Shamt64, Shamt32;
    WordFields(i);
  }

  lemma FormatS(i: Word)
    ensures 0 <= Opcode(i) < 0x80 && 0 <= Funct3(i) < 8
    ensures EncodeS(Opcode(i), Funct3(i), Rs1(i), Rs2(i), ImmS(i)) == i
  {
    hide Opcode, Rd, Funct3, Rs1, Funct7, Funct6, Rs2, Shamt64, Shamt32;
    WordFields(i);
    assert ImmS(i) % 0x1000 == Funct7(i) * 0x20 + Rd(i);
  }

  /** The pieces of a branch offset. */
  lemma BranchPieces(i: Word)
    ensures Rd(i) == i / 0x100 % 0x10 * 2 + i / 0x80 % 2
    ensures Funct7(i) == i / 0x8000_0000 * 0x40 + i / 0x200_0000 % 0x40 && i / 0x8000_0000 < 2
  {
    assert i / 0x100 == i / 0x80 / 2;
  }

  lemma PackB(b12: int, b11: int, b10: int, b4: int, imm: int)
    requires 0 <= b12 < 2 && 0 <= b11 < 2 && 0 <= b10 < 0x40 && 0 <= b4 < 0x10
    requires imm == Sign(b12, 0x1000) + b11 * 0x800 + b10 * 0x20 + b4 * 2
    ensures var i := imm % 0x2000;
            imm % 2 == 0 && i / 0x1000 == b12 && i / 0x800 % 2 == b11 && i / 0x20 % 0x40 == b10 && i / 2 % 0x10 == b4
  {
    var i := b12 * 0x1000 + b11 * 0x800 + b10 * 0x20 + b4 * 2;
    DivModUnique(imm, 0x2000, -b12, i);
    Digit(i, 2, 0, 0x10, b4, b10 + 0x40 * (b11 + 2 * b12));
    Digit(i, 0x20, b4 * 2, 0x40, b10, b11 + 2 * b12);
    Digit(i, 0x800, b10 * 0x20 + b4 * 2, 2, b11, b12);
    DivModUnique(i, 0x1000, b12, b11 * 0x800 + b10 * 0x20 + b4 * 2);
  }

  lemma FormatB(i: Word)
    ensures 0 <= Opcode(i) < 0x80 && 0 <= Funct3(i) < 8 && ImmB(i) % 2 == 0
    ensures EncodeB(Opcode(i), Funct3(i), Rs1(i), Rs2(i), ImmB(i)) == i
  {
    hide Opcode, Rd, Funct3, Funct7, Rs1, Funct6, Rs2, Shamt64, Shamt32;
    WordFields(i);
    BranchPieces(i);
    PackB(i / 0x8000_0000, i / 0x80 % 2, i / 0x200_0000 % 0x40, i / 0x100 % 0x10, ImmB(i));
  }

  lemma FormatU(i: Word)
    ensures 0 <= Opcode(i) < 0x80 && ImmU(i) % 0x1000 == 0 && -0x8_0000 <= ImmU(i) / 0x1000 < 0x8_0000
    ensures EncodeU(Opcode(i), Rd(i), ImmU(i) / 0x1000) == i
  {
    var u := i / 0x1000;
    var s := if u < 0x8_0000 then u else u - 0x10_0000;
    LowTwelve(i);
    assert ImmU(i) == s * 0x1000;
    DivModUnique(ImmU(i), 0x1000, s, 0);
    DivModUnique(s, 0x10_0000, if u < 0x8_0000 then 0 else -1, u);
  }

  lemma LowTwelve(i: Word)
    ensures i % 0x1000 == Opcode(i) + Rd(i) * 0x80 && i == i / 0x1000 * 0x1000 + i % 0x1000
    ensures 0 <= Opcode(i) < 0x80 && 0 <= i / 0x1000 < 0x10_0000
  {
  }

  /** The pieces of a jump offset. */
  lemma JumpPieces(i: Word)
    ensures var b20, b19, b11, b10 := i / 0x8000_0000, i / 0x1000 % 0x100, i / 0x10_0000 % 2, i / 0x20_0000 % 0x400;
            i / 0x1000 == b19 + 0x100 * (b11 + 2 * (b10 + 0x400 * b20)) && 0 <= b20 < 2
  {
    assert i / 0x10_0000 == i / 0x1000 / 0x100 && i / 0x20_0000 == i / 0x10_0000 / 2;
    assert i / 0x8000_0000 == i / 0x20_0000 / 0x400;
  }

  lemma PackJ(b20: int, b19: int, b11: int, b10: int, imm: int)
    requires 0 <= b20 < 2 && 0 <= b19 < 0x100 && 0 <= b11 < 2 && 0 <= b10 < 0x400
    requires imm == Sign(b20, 0x10_0000) + b19 * 0x1000 + b11 * 0x800 + b10 * 2
    ensures var i := imm % 0x20_0000;
            imm % 2 == 0 && i / 0x10_0000 == b20 && i / 0x1000 % 0x100 == b19 && i / 0x800 % 2 == b11 && i / 2 % 0x400 == b10
  {
    var i := b20 * 0x10_0000 + b19 * 0x1000 + b11 * 0x800 + b10 * 2;
    DivModUnique(imm, 0x20_0000, -b20, i);
    Digit(i, 2, 0, 0x400, b10, b11 + 2 * (b19 + 0x100 * b20));
    Digit(i, 0x800, b10 * 2, 2, b11, b19 + 0x100 * b20);
    Digit(i, 0x1000, b11 * 0x800 + b10 * 2, 0x100, b19, b20);
    DivModUnique(i, 0x10_0000, b20, b19 * 0x1000 + b11 * 0x800 + b10 * 2);
  }

  lemma FormatJ(i: Word)
    ensures 0 <= Opcode(i) < 0x80 && ImmJ(i) % 2 == 0 && EncodeJ(Opcode(i), Rd(i), ImmJ(i)) == i
  {
    hide Opcode, Rd;
    LowTwelve(i);
    JumpPieces(i);
    PackJ(i / 0x8000_0000, i / 0x1000 % 0x100, i / 0x10_0000 % 2, i / 0x20_0000 % 0x400, ImmJ(i));
  }
}
