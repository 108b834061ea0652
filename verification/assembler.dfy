/** Laying symbolic code out in bytes. A jump whose target is not known yet is written with
    a zero displacement and patched later. */
module Assembler {
  import opened Words
  import opened X86
  import opened Snippet
  import opened X86Encoding

  /** The item each jump goes to, or past the items a byte; a jump that is missing has not been
      patched. */
  type Targets = map<nat, nat>

  /** The displacement field keeps 32 bits. */
  function Rel32(x: int): i32 { S32(W32(x)) }

  function Concrete(i: Item, rel: i32): Instr
  {
    match i
    case Op(ins) => ins
    case JmpTo(_) => Jmp(rel)
    case JccTo(c, _) => Jcc(c, rel)
  }

  function Size(i: Item): nat { |Encode(Concrete(i, 0))| }

  /** The byte offset of item i. */
  function Off(items: seq<Item>, i: nat): nat
    requires i <= |items|
  {
    if i == 0 then 0 else Off(items, i - 1) + Size(items[i - 1])
  }

  /** The byte a target stands for. */
  function TargetOff(items: seq<Item>, t: nat): nat
  {
    if t <= |items| then Off(items, t) else t - |items| - 1
  }

  function RelAt(items: seq<Item>, tgt: Targets, j: nat): i32
    requires j < |items|
  {
    if j in tgt then Rel32(TargetOff(items, tgt[j]) - Off(items, j) - Size(items[j])) else 0
  }

  function InstrAt(items: seq<Item>, tgt: Targets, j: nat): Instr
    requires j < |items|
  {
    Concrete(items[j], RelAt(items, tgt, j))
  }

  /** The bytes of the first k items. */
  function Asm(items: seq<Item>, tgt: Targets, k: nat): seq<u8>
    requires k <= |items|
  {
    if k == 0 then [] else Asm(items, tgt, k - 1) + Encode(InstrAt(items, tgt, k - 1))
  }

  // ---------------------------------------------------------------- layout

  lemma ConcreteSize(i: Item, rel: i32)
    ensures |Encode(Concrete(i, rel))| == Size(i)
  {
  }

  lemma OffZero(items: seq<Item>)
    ensures Off(items, 0) == 0
  {
  }

  lemma {:induction false} AsmLength(items: seq<Item>, tgt: Targets, k: nat)
    requires k <= |items|
    ensures |Asm(items, tgt, k)| == Off(items, k)
  {
    hide Encode;
    if k > 0 {
      AsmLength(items, tgt, k - 1);
      ConcreteSize(items[k - 1], RelAt(items, tgt, k - 1));
    }
  }

  lemma {:induction false} OffMonotone(items: seq<Item>, i: nat, j: nat)
    requires i <= j <= |items|
    ensures Off(items, i) <= Off(items, j)
    decreases j
  {
    hide Encode;
    if i < j { OffMonotone(items, i, j - 1); }
  }

  lemma {:induction false} OffPrefix(items: seq<Item>, more: seq<Item>, i: nat)
    requires i <= |items|
    ensures Off(items + more, i) == Off(items, i)
  {
    hide Encode;
    if i > 0 {
      OffPrefix(items, more, i - 1);
      assert (items + more)[i - 1] == items[i - 1];
    }
  }

  /** The encoding of item j stands at its offset. */
  ghost predicate PlacedAt(code: seq<u8>, items: seq<Item>, tgt: Targets, j: nat)
    requires j < |items|
  {
    && Off(items, j + 1) <= |code|
    && code[Off(items, j)..Off(items, j + 1)] == Encode(InstrAt(items, tgt, j))
  }

  lemma {:induction false} AsmPlaced(items: seq<Item>, tgt: Targets, k: nat, j: nat)
    requires j < k <= |items|
    ensures PlacedAt(Asm(items, tgt, k), items, tgt, j)
  {
    hide Encode, RelAt;
    AsmLength(items, tgt, k - 1);
    AsmLength(items, tgt, k);
    AsmLength(items, tgt, j);
    if j < k - 1 {
      AsmPlaced(items, tgt, k - 1, j);
      OffMonotone(items, j + 1, k - 1);
      assert Asm(items, tgt, k)[Off(items, j)..Off(items, j + 1)] == Asm(items, tgt, k - 1)[Off(items, j)..Off(items, j + 1)];
    }
  }

  /** At the offset of an item the decoder finds that item. */
  lemma DecodeAt(code: seq<u8>, items: seq<Item>, tgt: Targets, j: nat)
    requires j < |items| && PlacedAt(code, items, tgt, j) && Encodable(InstrAt(items, tgt, j))
    ensures Off(items, j) <= |code| && Off(items, j + 1) == Off(items, j) + Size(items[j])
    ensures Decode(code[Off(items, j)..]) == Some((InstrAt(items, tgt, j), Size(items[j])))
  {
    hide Encode, Decode, Encodable, RelAt;
    var ins := InstrAt(items, tgt, j);
    ConcreteSize(items[j], RelAt(items, tgt, j));
    var rest := code[Off(items, j + 1)..];
    assert code[Off(items, j)..] == Encode(ins) + rest by {
      assert code[Off(items, j)..] == code[Off(items, j)..Off(items, j + 1)] + rest;
    }
    DecodeEncode(ins, rest);
  }

  // ---------------------------------------------------------------- patching

  /** The offset of the displacement field of a jump. */
  function Hole(items: seq<Item>, j: nat): nat
    requires j < |items| && IsJump(items[j])
  {
    Off(items, j) + (if items[j].JmpTo? then 1 else 2)
  }

  lemma JumpEncoding(i: Item, rel: i32)
    requires IsJump(i)
    ensures Encode(Concrete(i, rel)) == (if i.JmpTo? then [0xE9] else [0x0F, 0x80 + CondNum(i.cond)]) + Imm32(rel)
    ensures Size(i) == (if i.JmpTo? then 5 else 6)
  {
  }

  lemma SpliceLeft(a: seq<u8>, z: seq<u8>, h: nat, b: seq<u8>)
    requires h + |b| <= |a|
    ensures Splice(a + z, h, b) == Splice(a, h, b) + z
  {
  }

  lemma SpliceTail(a: seq<u8>, opc: seq<u8>, was: seq<u8>, now: seq<u8>)
    requires |was| == |now|
    ensures Splice(a + (opc + was), |a| + |opc|, now) == a + (opc + now)
  {
  }

  /** Where the displacement field ends, a jump's target is counted from. */
  lemma HoleEnd(items: seq<Item>, j: nat)
    requires j < |items| && IsJump(items[j])
    ensures Hole(items, j) + 4 == Off(items, j) + Size(items[j]) == Off(items, j + 1)
  {
    hide Encode;
    JumpEncoding(items[j], 0);
  }

  /** The bytes a patch writes. */
  function PatchBytes(items: seq<Item>, j: nat, t: nat): (s: seq<u8>)
    requires j < |items| && IsJump(items[j])
    ensures |s| == 4
  {
    Le(W32(TargetOff(items, t) - (Hole(items, j) + 4)), 4)
  }

  lemma PatchLast(items: seq<Item>, tgt: Targets, j: nat, t: nat)
    requires j < |items| && IsJump(items[j]) && j !in tgt
    ensures Hole(items, j) + 4 == |Asm(items, tgt, j + 1)|
    ensures Asm(items, tgt[j := t], j + 1) == Splice(Asm(items, tgt, j + 1), Hole(items, j), PatchBytes(items, j, t))
  {
    hide Encode, Le, Rel32, Off, TargetOff, CondNum, Splice, W32;
    var tgt' := tgt[j := t];
    AsmLength(items, tgt, j);
    AsmLength(items, tgt, j + 1);
    HoleEnd(items, j);
    AsmAgree(items, tgt, tgt', j);
    var d := TargetOff(items, t) - (Hole(items, j) + 4);
    var rel := Rel32(d);
    assert RelAt(items, tgt', j) == rel;
    JumpEncoding(items[j], rel);
    JumpEncoding(items[j], 0);
    Rel32Word(d);
    var opc: seq<u8> := if items[j].JmpTo? then [0xE9] else [0x0F, 0x80 + CondNum(items[j].cond)];
    SpliceTail(Asm(items, tgt, j), opc, Imm32(0), Imm32(rel));
  }

  /** Writing the displacement of one jump is the same as assembling with its target known;
      every byte outside the field is unchanged. */
  lemma {:induction false} AsmPatch(items: seq<Item>, tgt: Targets, j: nat, t: nat, k: nat)
    requires j < k <= |items| && IsJump(items[j]) && j !in tgt
    ensures Hole(items, j) + 4 <= |Asm(items, tgt, k)|
    ensures Asm(items, tgt[j := t], k) == Splice(Asm(items, tgt, k), Hole(items, j), PatchBytes(items, j, t))
  {
    hide Encode, Le, PatchBytes, Rel32;
    if k == j + 1 {
      PatchLast(items, tgt, j, t);
    } else {
      AsmPatch(items, tgt, j, t, k - 1);
      assert RelAt(items, tgt[j := t], k - 1) == RelAt(items, tgt, k - 1);
      SpliceLeft(Asm(items, tgt, k - 1), Encode(InstrAt(items, tgt, k - 1)), Hole(items, j), PatchBytes(items, j, t));
    }
  }

  lemma Rel32Word(x: int)
    ensures W32(Rel32(x)) == W32(x)
  {
  }

  lemma {:induction false} AsmAgree(items: seq<Item>, tgt: Targets, tgt': Targets, k: nat)
    requires k <= |items|
    requires forall j | 0 <= j < k :: RelAt(items, tgt, j) == RelAt(items, tgt', j)
    ensures Asm(items, tgt, k) == Asm(items, tgt', k)
  {
    hide Encode, RelAt;
    if k > 0 { AsmAgree(items, tgt, tgt', k - 1); }
  }

  /** The displacement fields of two different jumps do not overlap. */
  lemma HolesDisjoint(items: seq<Item>, i: nat, j: nat)
    requires i < j < |items| && IsJump(items[i]) && IsJump(items[j])
    ensures Hole(items, i) + 4 <= Off(items, j) < Hole(items, j)
    ensures Hole(items, j) + 4 <= Off(items, |items|)
  {
    hide Encode;
    JumpEncoding(items[i], 0);
    JumpEncoding(items[j], 0);
    OffMonotone(items, i + 1, j);
    OffMonotone(items, j + 1, |items|);
  }

  // ---------------------------------------------------------------- the byte machine

  /** Running machine code: at a byte offset, returned to the caller, or not running. */
  datatype Conf = At(off: int, h: Host) | Finished(h: Host) | Signalled | Crashed

  /** Fetch, decode and execute one instruction. */
  function Step(e: Env, code: seq<u8>, c: Conf): Conf
  {
    if !c.At? then c
    else if !(0 <= c.off < |code|) || |c.h.cpu.x| != 32 then Crashed
    else
      match Decode(code[c.off..])
      case None => Crashed
      case Some((ins, len)) =>
        match Exec(e, ins, c.h)
        case Fall(h) => At(c.off + len, h)
        case Branch(h) =>
          if ins.Jmp? || ins.Jcc? then At(c.off + len + ins.rel, h) else Crashed
        case Goto(h, t) => At(t - e.codeAt, h)
        case Return(h) => Finished(h)
        case Trap => Signalled
        case Stuck => Crashed
  }

  function Steps(e: Env, code: seq<u8>, n: nat, c: Conf): Conf
  {
    if n == 0 then c else Steps(e, code, n - 1, Step(e, code, c))
  }

  lemma {:induction false} StepsAdd(e: Env, code: seq<u8>, m: nat, n: nat, c: Conf)
    ensures Steps(e, code, m + n, c) == Steps(e, code, n, Steps(e, code, m, c))
  {
    hide Step;
    if m > 0 { StepsAdd(e, code, m - 1, n, Step(e, code, c)); }
  }

  lemma {:induction false} StepsDone(e: Env, code: seq<u8>, n: nat, c: Conf)
    requires !c.At?
    ensures Steps(e, code, n, c) == c
  {
    if n > 0 { StepsDone(e, code, n - 1, c); }
  }
}
