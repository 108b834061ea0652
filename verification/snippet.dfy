/** Symbolic code: instructions whose jumps still name labels, and how a self-contained
    piece of it runs. */
module Snippet {
  import opened Words
  import opened X86
  import Ir

  /** Where a jump goes. Local counts items forward from the jump itself. */
  datatype Label =
    | Local(skip: nat)
    | GuestPc(pc: u64)
    | Epilogue
    | Stub(kind: Ir.FaultKind, index: nat)

  datatype Item =
    | Op(ins: Instr)
    | JmpTo(to: Label)
    | JccTo(cond: Cond, to: Label)

  /** Jumps appear as JmpTo and JccTo only. */
  predicate Plain(i: Item)
  {
    i.Op? ==> !i.ins.Jmp? && !i.ins.Jcc?
  }

  predicate IsJump(i: Item) { i.JmpTo? || i.JccTo? }

  /** How a piece of code ends: past its last item, at a jump to an outside label, or not at all. */
  datatype Ending =
    | Done(h: Host)
    | Out(at: nat, to: Label, h: Host)
    | Trapped
    | Failed

  function Run(e: Env, code: seq<Item>, k: nat, h: Host): Ending
    decreases |code| - k
  {
    if k == |code| then Done(h)
    else if k > |code| || |h.cpu.x| != 32 then Failed
    else
      match code[k]
      case Op(ins) =>
        (match Exec(e, ins, h)
         case Fall(h') => Run(e, code, k + 1, h')
         case Trap => Trapped
         case _ => Failed)
      case JmpTo(l) => Follow(e, code, k, l, h)
      case JccTo(c, l) =>
        if h.f.Unknown? then Failed
        else if Holds(c, h.f) then Follow(e, code, k, l, h)
        else Run(e, code, k + 1, h)
  }

  function Follow(e: Env, code: seq<Item>, k: nat, l: Label, h: Host): Ending
    requires k < |code|
    decreases |code| - k, 0
  {
    if l.Local? then (if l.skip == 0 then Failed else Run(e, code, k + l.skip, h)) else Out(k, l, h)
  }

  /** A piece of code runs the same inside a larger one. */
  lemma {:induction false} Embed(e: Env, code: seq<Item>, at: nat, piece: seq<Item>, k: nat, h: Host)
    requires at + |piece| <= |code| && code[at..at + |piece|] == piece && k <= |piece|
    ensures match Run(e, piece, k, h)
            case Done(h') => Run(e, code, at + k, h) == Run(e, code, at + |piece|, h')
            case Out(j, l, h') => Run(e, code, at + k, h) == Out(at + j, l, h')
            case Trapped => Run(e, code, at + k, h) == Trapped
            case Failed => true
    decreases |piece| - k, 1
  {
    hide Exec;
    if k < |piece| && |h.cpu.x| == 32 {
      assert code[at + k] == piece[k];
      match piece[k]
      case Op(ins) =>
        if Exec(e, ins, h).Fall? { Embed(e, code, at, piece, k + 1, Exec(e, ins, h).h); }
      case JmpTo(l) =>
        EmbedFollow(e, code, at, piece, k, l, h);
      case JccTo(c, l) =>
        if h.f.Flags? && Holds(c, h.f) {
          EmbedFollow(e, code, at, piece, k, l, h);
        } else if h.f.Flags? {
          Embed(e, code, at, piece, k + 1, h);
        }
    }
  }

  lemma {:induction false} EmbedFollow(e: Env, code: seq<Item>, at: nat, piece: seq<Item>, k: nat, l: Label, h: Host)
    requires at + |piece| <= |code| && code[at..at + |piece|] == piece && k < |piece|
    ensures match Follow(e, piece, k, l, h)
            case Done(h') => Follow(e, code, at + k, l, h) == Run(e, code, at + |piece|, h')
            case Out(j, l', h') => Follow(e, code, at + k, l, h) == Out(at + j, l', h')
            case Trapped => Follow(e, code, at + k, l, h) == Trapped
            case Failed => true
    decreases |piece| - k, 0
  {
    hide Exec, Holds;
    if l.Local? && l.skip > 0 {
      if k + l.skip <= |piece| {
        Embed(e, code, at, piece, k + l.skip, h);
        assert Follow(e, code, at + k, l, h) == Run(e, code, at + (k + l.skip), h);
      } else {
        assert Run(e, piece, k + l.skip, h) == Failed;
      }
    }
  }

  /** A conditional jump forward, on known flags. */
  lemma RunJcc(e: Env, code: seq<Item>, k: nat, c: Cond, skip: nat, h: Host)
    requires k < |code| && code[k] == JccTo(c, Local(skip)) && skip > 0
    requires |h.cpu.x| == 32 && h.f.Flags?
    ensures Run(e, code, k, h) == Run(e, code, if Holds(c, h.f) then k + skip else k + 1, h)
  {
    hide Exec, Holds;
  }

  lemma RunJmp(e: Env, code: seq<Item>, k: nat, skip: nat, h: Host)
    requires k < |code| && code[k] == JmpTo(Local(skip)) && skip > 0 && |h.cpu.x| == 32
    ensures Run(e, code, k, h) == Run(e, code, k + skip, h)
  {
    hide Exec, Holds;
  }

  lemma RunOp(e: Env, code: seq<Item>, k: nat, h: Host, h': Host)
    requires k < |code| && code[k].Op? && |h.cpu.x| == 32 && Exec(e, code[k].ins, h) == Fall(h')
    ensures Run(e, code, k, h) == Run(e, code, k + 1, h')
  {
    hide Exec;
  }

  lemma RunEnd(e: Env, code: seq<Item>, h: Host)
    ensures Run(e, code, |code|, h) == Done(h)
  {
    hide Exec;
  }
}
