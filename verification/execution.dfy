/** Assembled code behaves as the symbolic code it came from. */
module Execution {
  import opened Words
  import opened X86
  import opened Snippet
  import opened X86Encoding
  import opened Assembler

  /** Items the assembler can lay out and the decoder can read back. */
  ghost predicate GoodItem(i: Item)
  {
    Plain(i) && (i.Op? ==> Encodable(i.ins))
  }

  /** Every jump in items lo to hi has a target, a local jump the one it names. */
  ghost predicate Resolved(items: seq<Item>, tgt: Targets, lo: nat, hi: nat)
    requires hi <= |items|
  {
    forall j | lo <= j < hi && IsJump(items[j]) ::
      j in tgt && (items[j].to.Local? ==> tgt[j] == j + items[j].to.skip <= |items|)
  }

  /** Items lo to hi stand in the code, can be decoded, and their jumps are resolved. */
  ghost predicate Installed(code: seq<u8>, items: seq<Item>, tgt: Targets, lo: nat, hi: nat)
    requires hi <= |items|
  {
    && Off(items, hi) < TWO31
    && Resolved(items, tgt, lo, hi)
    && forall j | lo <= j < hi :: GoodItem(items[j]) && PlacedAt(code, items, tgt, j)
  }

  lemma Fetch(code: seq<u8>, items: seq<Item>, tgt: Targets, lo: nat, hi: nat, j: nat)
    requires lo <= j < hi <= |items| && Installed(code, items, tgt, lo, hi)
    ensures 0 <= Off(items, j) < |code| && Off(items, j + 1) == Off(items, j) + Size(items[j])
    ensures Decode(code[Off(items, j)..]) == Some((InstrAt(items, tgt, j), Size(items[j])))
  {
    hide Encode, Decode, Encodable, RelAt;
    assert Encodable(InstrAt(items, tgt, j)) by { ItemEncodable(items, tgt, j); }
    DecodeAt(code, items, tgt, j);
    SizePositive(items[j]);
  }

  lemma ItemEncodable(items: seq<Item>, tgt: Targets, j: nat)
    requires j < |items| && GoodItem(items[j])
    ensures Encodable(InstrAt(items, tgt, j))
  {
  }

  /** No encoding is empty: the decoder finds nothing in an empty string. */
  lemma SizePositive(i: Item)
    requires GoodItem(i)
    ensures Size(i) > 0
  {
    hide Encode, Encodable, DecodeBody;
    var ins := Concrete(i, 0);
    assert Encodable(ins) by { ItemEncodable([i], map[], 0); }
    DecodeEncode(ins, []);
    assert Encode(ins) + [] == Encode(ins);
    if |Encode(ins)| == 0 {
      assert Encode(ins) == [];
      DecodeEmpty();
    }
  }

  lemma DecodeEmpty()
    ensures Decode([]) == None
  {
  }

  // ---------------------------------------------------------------- single items

  lemma OpStep(e: Env, code: seq<u8>, items: seq<Item>, tgt: Targets, lo: nat, hi: nat, j: nat, h: Host)
    requires lo <= j < hi <= |items| && Installed(code, items, tgt, lo, hi) && items[j].Op? && |h.cpu.x| == 32
    ensures match Exec(e, items[j].ins, h)
            case Fall(h') => Step(e, code, At(Off(items, j), h)) == At(Off(items, j + 1), h')
            case Return(h') => Step(e, code, At(Off(items, j), h)) == Finished(h')
            case Goto(h', t) => Step(e, code, At(Off(items, j), h)) == At(t - e.codeAt, h')
            case Trap => Step(e, code, At(Off(items, j), h)) == Signalled
            case _ => true
  {
    hide Exec, Decode, Encode;
    Fetch(code, items, tgt, lo, hi, j);
  }

  /** The target of a jump is an item, within the distance of a displacement. */
  predicate Reached(items: seq<Item>, tgt: Targets, j: nat)
  {
    j in tgt && tgt[j] <= |items| && Off(items, tgt[j]) < TWO31
  }

  /** A taken jump goes to the offset of its target item. */
  lemma JumpStep(e: Env, code: seq<u8>, items: seq<Item>, tgt: Targets, lo: nat, hi: nat, j: nat, h: Host)
    requires lo <= j < hi <= |items| && Installed(code, items, tgt, lo, hi) && |h.cpu.x| == 32
    requires items[j].JmpTo? || (items[j].JccTo? && h.f.Flags? && Holds(items[j].cond, h.f))
    requires Reached(items, tgt, j)
    ensures Step(e, code, At(Off(items, j), h)) == At(Off(items, tgt[j]), h)
  {
    hide Decode, Encode, Off, Rel32, Holds;
    Fetch(code, items, tgt, lo, hi, j);
    OffMonotone(items, j + 1, hi);
    var d := Off(items, tgt[j]) - Off(items, j) - Size(items[j]);
    assert Rel32(d) == d by { Rel32Small(d); }
    JumpExec(e, items[j], RelAt(items, tgt, j), h);
  }

  lemma Rel32Small(d: int)
    requires -TWO31 <= d < TWO31
    ensures Rel32(d) == d
  {
  }

  lemma JumpExec(e: Env, i: Item, rel: i32, h: Host)
    requires |h.cpu.x| == 32 && IsJump(i)
    ensures i.JmpTo? ==> Exec(e, Concrete(i, rel), h) == X86.Branch(h)
    ensures i.JccTo? && h.f.Flags? ==>
            Exec(e, Concrete(i, rel), h) == if Holds(i.cond, h.f) then X86.Branch(h) else Fall(h)
  {
    hide Bits64, Bits32, ShiftValue, Grp3Value, ReadHost, WriteHost, CallEcall, Holds;
  }

  lemma NoJumpStep(e: Env, code: seq<u8>, items: seq<Item>, tgt: Targets, lo: nat, hi: nat, j: nat, h: Host)
    requires lo <= j < hi <= |items| && Installed(code, items, tgt, lo, hi) && |h.cpu.x| == 32
    requires items[j].JccTo? && h.f.Flags? && !Holds(items[j].cond, h.f)
    ensures Step(e, code, At(Off(items, j), h)) == At(Off(items, j + 1), h)
  {
    hide Decode, Encode, Off, Rel32, Holds, Exec;
    Fetch(code, items, tgt, lo, hi, j);
    JumpExec(e, items[j], RelAt(items, tgt, j), h);
  }

  // ---------------------------------------------------------------- pieces of code

  /** Where the machine is when a piece of code ends the way Run says. */
  function Landing(items: seq<Item>, tgt: Targets, at: nat, n: nat, r: Ending): Conf
    requires at + n <= |items|
  {
    match r
    case Done(h) => At(Off(items, at + n), h)
    case Out(j, _, h) => if Reached(items, tgt, at + j) then At(Off(items, tgt[at + j]), h) else Crashed
    case Trapped => Signalled
    case Failed => Crashed
  }

  /** The byte machine, started at a piece of installed code, reaches the ending that the
      symbolic run of the piece predicts. */
  lemma {:induction false} RunSteps(e: Env, code: seq<u8>, items: seq<Item>, tgt: Targets, at: nat, piece: seq<Item>, k: nat, h: Host)
    returns (n: nat)
    requires at + |piece| <= |items| && items[at..at + |piece|] == piece && k <= |piece|
    requires Installed(code, items, tgt, at, at + |piece|)
    requires Run(e, piece, k, h) != Failed && (Run(e, piece, k, h).Out? ==> Reached(items, tgt, at + Run(e, piece, k, h).at))
    ensures Steps(e, code, n, At(Off(items, at + k), h)) == Landing(items, tgt, at, |piece|, Run(e, piece, k, h))
    decreases |piece| - k, 1
  {
    hide Exec, Off, Step, Holds, Installed;
    if k == |piece| { return 0; }
    var j, hi := at + k, at + |piece|;
    assert items[j] == piece[k];
    if piece[k].Op? {
      OpStep(e, code, items, tgt, at, hi, j, h);
      var x := Exec(e, piece[k].ins, h);
      if x.Fall? {
        var m := RunSteps(e, code, items, tgt, at, piece, k + 1, x.h);
        n := m + 1;
      } else {
        n := 1;
      }
    } else if piece[k].JccTo? && !Holds(piece[k].cond, h.f) {
      NoJumpStep(e, code, items, tgt, at, hi, j, h);
      var m := RunSteps(e, code, items, tgt, at, piece, k + 1, h);
      n := m + 1;
    } else {
      JumpReached(e, code, items, tgt, at, piece, k, h);
      JumpStep(e, code, items, tgt, at, hi, j, h);
      n := RunJump(e, code, items, tgt, at, piece, k, h);
    }
  }

  /** A taken jump leaves the piece, or stays in it. */
  lemma JumpReached(e: Env, code: seq<u8>, items: seq<Item>, tgt: Targets, at: nat, piece: seq<Item>, k: nat, h: Host)
    requires at + |piece| <= |items| && items[at..at + |piece|] == piece && k < |piece| && IsJump(piece[k])
    requires Installed(code, items, tgt, at, at + |piece|)
    requires var r := Follow(e, piece, k, piece[k].to, h); r != Failed && (r.Out? ==> Reached(items, tgt, at + r.at))
    ensures Reached(items, tgt, at + k)
  {
    hide Exec, Holds, Off, GoodItem, PlacedAt, Run;
    assert items[at + k] == piece[k];
    var l := piece[k].to;
    if l.Local? {
      RunInside(e, piece, k + l.skip, h);
      OffMonotone(items, at + (k + l.skip), at + |piece|);
    }
  }

  lemma {:induction false} RunJump(e: Env, code: seq<u8>, items: seq<Item>, tgt: Targets, at: nat, piece: seq<Item>, k: nat, h: Host)
    returns (n: nat)
    requires at + |piece| <= |items| && items[at..at + |piece|] == piece && k < |piece| && IsJump(piece[k])
    requires Installed(code, items, tgt, at, at + |piece|)
    requires var r := Follow(e, piece, k, piece[k].to, h); r != Failed && (r.Out? ==> Reached(items, tgt, at + r.at))
    requires Reached(items, tgt, at + k)
    requires Step(e, code, At(Off(items, at + k), h)) == At(Off(items, tgt[at + k]), h)
    ensures Steps(e, code, n, At(Off(items, at + k), h)) ==
            Landing(items, tgt, at, |piece|, Follow(e, piece, k, piece[k].to, h))
    decreases |piece| - k, 0
  {
    hide Exec, Off, Step, Holds, Installed, Run;
    var l := piece[k].to;
    assert items[at + k] == piece[k];
    if l.Local? {
      LocalTarget(code, items, tgt, at, at + |piece|, at + k);
      assert tgt[at + k] == at + (k + l.skip);
      assert k + l.skip <= |piece| by { RunInside(e, piece, k + l.skip, h); }
      var m := RunSteps(e, code, items, tgt, at, piece, k + l.skip, h);
      n := m + 1;
    } else {
      n := 1;
    }
  }

  lemma LocalTarget(code: seq<u8>, items: seq<Item>, tgt: Targets, lo: nat, hi: nat, j: nat)
    requires lo <= j < hi <= |items| && Installed(code, items, tgt, lo, hi)
    requires IsJump(items[j]) && items[j].to.Local?
    ensures j in tgt && tgt[j] == j + items[j].to.skip
  {
  }

  lemma RunInside(e: Env, piece: seq<Item>, k: nat, h: Host)
    requires Run(e, piece, k, h) != Failed
    ensures k <= |piece|
  {
    hide Exec;
  }
}
