/** The breakpoint patcher: it overwrites live code with jumps to trap stubs and puts it back. */
module Breakpoints {
  import opened Words
  import opened X86
  import opened X86Encoding
  import Ir

  const MAX_BREAKPOINTS := 64
  const STUB_BYTES := 39
  const STUB_SLOT := 40
  const STUB_RESERVE := STUB_SLOT * MAX_BREAKPOINTS

  /** stubOff counts from the start of the stub area. */
  datatype Breakpoint = Breakpoint(pc: u64, hostOff: nat, stubOff: nat, saved: seq<u8>, used: bool)

  // ---------------------------------------------------------------- the overlay, by value

  /** The jump written over a site. */
  function SiteJump(b: Breakpoint, base: nat): (s: seq<u8>)
    ensures |s| == 5
  {
    [0xE9] + Le(W32(base + b.stubOff - (b.hostOff + 5)), 4)
  }

  predicate Covers(b: Breakpoint, x: nat) { b.hostOff <= x < b.hostOff + 5 }

  ghost predicate Untouched(bps: seq<Breakpoint>, armed: set<nat>, x: nat)
  {
    forall i <- armed :: i < |bps| ==> !Covers(bps[i], x)
  }

  /** Memory is the compiled code, except for the jump of each armed breakpoint. */
  ghost predicate Overlay(mem: seq<u8>, code: seq<u8>, bps: seq<Breakpoint>, armed: set<nat>, base: nat)
  {
    && |code| <= |mem|
    && (forall i <- armed :: i < |bps| && bps[i].hostOff + 5 <= |code|)
    && (forall i <- armed :: mem[bps[i].hostOff..bps[i].hostOff + 5] == SiteJump(bps[i], base))
    && (forall x: nat | x < |code| && Untouched(bps, armed, x) :: mem[x] == code[x])
  }

  /** The sites of different breakpoints do not overlap. */
  ghost predicate SitesApart(bps: seq<Breakpoint>)
  {
    forall i, j | 0 <= i < j < |bps| && bps[i].used && bps[j].used ::
      bps[i].hostOff + 5 <= bps[j].hostOff || bps[j].hostOff + 5 <= bps[i].hostOff
  }

  lemma SpliceAt(s: seq<u8>, i: nat, b: seq<u8>, x: nat)
    requires i + |b| <= |s| && x < |s|
    ensures Splice(s, i, b)[x] == if i <= x < i + |b| then b[x - i] else s[x]
    ensures Splice(s, i, b)[i..i + |b|] == b
  {
  }

  lemma SpliceApart(s: seq<u8>, i: nat, b: seq<u8>, j: nat, n: nat)
    requires i + |b| <= |s| && j + n <= |s| && (j + n <= i || i + |b| <= j)
    ensures Splice(s, i, b)[j..j + n] == s[j..j + n]
  {
  }

  /** Writing the jump of a breakpoint arms it. */
  lemma Arm(mem: seq<u8>, code: seq<u8>, bps: seq<Breakpoint>, armed: set<nat>, base: nat, i: nat)
    requires Overlay(mem, code, bps, armed, base) && SitesApart(bps) && forall j <- armed :: bps[j].used
    requires i < |bps| && bps[i].used && bps[i].hostOff + 5 <= |code|
    ensures Overlay(Splice(mem, bps[i].hostOff, SiteJump(bps[i], base)), code, bps, armed + {i}, base)
  {
    hide SiteJump, Splice;
    var at, jump := bps[i].hostOff, SiteJump(bps[i], base);
    var now := Splice(mem, at, jump);
    SpliceAt(mem, at, jump, at);
    forall j <- armed + {i} ensures now[bps[j].hostOff..bps[j].hostOff + 5] == SiteJump(bps[j], base) {
      if j != i { SpliceApart(mem, at, jump, bps[j].hostOff, 5); }
    }
    forall x: nat | x < |code| && Untouched(bps, armed + {i}, x) ensures now[x] == code[x] {
      SpliceAt(mem, at, jump, x);
      assert !Covers(bps[i], x);
      assert Untouched(bps, armed, x);
    }
  }

  /** Writing the saved bytes back disarms it. */
  lemma Disarm(mem: seq<u8>, code: seq<u8>, bps: seq<Breakpoint>, armed: set<nat>, base: nat, i: nat)
    requires Overlay(mem, code, bps, armed, base) && SitesApart(bps) && forall j <- armed :: bps[j].used
    requires i < |bps| && bps[i].used && bps[i].hostOff + 5 <= |code|
    requires bps[i].saved == code[bps[i].hostOff..bps[i].hostOff + 5]
    ensures Overlay(Splice(mem, bps[i].hostOff, bps[i].saved), code, bps, armed - {i}, base)
  {
    hide SiteJump, Splice;
    var at, saved := bps[i].hostOff, bps[i].saved;
    var now := Splice(mem, at, saved);
    forall j <- armed - {i} ensures now[bps[j].hostOff..bps[j].hostOff + 5] == SiteJump(bps[j], base) {
      SpliceApart(mem, at, saved, bps[j].hostOff, 5);
    }
    forall x: nat | x < |code| && Untouched(bps, armed - {i}, x) ensures now[x] == code[x] {
      SpliceAt(mem, at, saved, x);
      if !Covers(bps[i], x) { assert Untouched(bps, armed, x); }
    }
  }

  /** With nothing armed the code is the compiled code. */
  lemma NothingArmed(mem: seq<u8>, code: seq<u8>, bps: seq<Breakpoint>, base: nat)
    requires Overlay(mem, code, bps, {}, base)
    ensures mem[..|code|] == code
  {
    forall x: nat | x < |code| ensures mem[x] == code[x] { assert Untouched(bps, {}, x); }
  }

  /** Only the code and the recorded sites of armed breakpoints matter. */
  lemma OverlayKept(mem: seq<u8>, mem': seq<u8>, code: seq<u8>, bps: seq<Breakpoint>, bps': seq<Breakpoint>, armed: set<nat>, base: nat)
    requires Overlay(mem, code, bps, armed, base) && |code| <= |mem'| && mem[..|code|] == mem'[..|code|]
    requires forall i <- armed :: i < |bps'| && bps'[i].hostOff == bps[i].hostOff && bps'[i].stubOff == bps[i].stubOff
    ensures Overlay(mem', code, bps', armed, base)
  {
    forall i <- armed ensures mem'[bps'[i].hostOff..bps'[i].hostOff + 5] == SiteJump(bps'[i], base) {
      assert mem'[bps[i].hostOff..bps[i].hostOff + 5] == mem'[..|code|][bps[i].hostOff..bps[i].hostOff + 5];
      assert mem[bps[i].hostOff..bps[i].hostOff + 5] == mem[..|code|][bps[i].hostOff..bps[i].hostOff + 5];
    }
    forall x: nat | x < |code| && Untouched(bps', armed, x) ensures mem'[x] == code[x] {
      assert Untouched(bps, armed, x);
      assert mem'[x] == mem'[..|code|][x] && mem[x] == mem[..|code|][x];
    }
  }

  // ---------------------------------------------------------------- trap stubs

  /** A trap stub, byte for byte: it records the address and the debug fault, and leaves through
      the epilogue. */
  function StubBytes(pc: u64, rel: u32): (s: seq<u8>)
    ensures |s| == STUB_BYTES
  {
    ([0x48, 0xB8] + Le(pc, 8)) + ([0x49, 0x89, 0x87] + Le(OFF_PC, 4)) + ([0x48, 0xB8] + Le(FAULT_DEBUG, 8))
    + ([0x49, 0x89, 0x87] + Le(OFF_FAULT, 4)) + ([0xE9] + Le(rel, 4))
  }

  /** The bytes written by hand are the encodings of the five instructions they stand for. */
  lemma StubIsCode(pc: u64, rel: i32)
    ensures StubBytes(pc, W32(rel)) ==
            Encode(MovImm(RAX, pc)) + Encode(StoreM(Ir.St64, R15, OFF_PC, RAX)) + Encode(MovImm(RAX, FAULT_DEBUG))
            + Encode(StoreM(Ir.St64, R15, OFF_FAULT, RAX)) + Encode(Jmp(rel))
  {
    hide Le, Encode;
    MovPart(pc);
    MovPart(FAULT_DEBUG);
    StorePart(OFF_PC);
    StorePart(OFF_FAULT);
    JmpPart(rel);
  }

  lemma MovPart(imm: u64)
    ensures Encode(MovImm(RAX, imm)) == [0x48, 0xB8] + Le(imm, 8)
  {
    hide Le;
  }

  lemma JmpPart(rel: i32)
    ensures Encode(Jmp(rel)) == [0xE9] + Le(W32(rel), 4)
  {
    hide Le;
  }

  lemma StorePart(off: i32)
    requires 128 <= off < 1000
    ensures Encode(StoreM(Ir.St64, R15, off, RAX)) == [0x49, 0x89, 0x87] + Le(off, 4)
  {
    hide Le;
  }

  /** Distances a 32-bit displacement is used for. */
  predicate Near(rel: int) { -0x7FFF_FFFF <= rel <= 0x7FFF_FFFF }

  // ---------------------------------------------------------------- the table, by value

  /** What the debugger may ask for at a stop. */
  datatype Command = InsertAt(pc: u64) | RemoveAt(pc: u64)

  /** What does not change: where the code of the guest's instructions is, and where stubs go, if
      there is room for them behind the code. */
  datatype Layout = Layout(textAddr: u64, pcMap: seq<u32>, epilogueOffset: nat, base: nat, room: bool)

  /** The address of each entry that is used, and how much of the stub area has been handed out. */
  datatype Table = Table(slots: seq<Option<u64>>, handedOut: nat)

  function HostOffset(textAddr: u64, pcMap: seq<u32>, pc: u64): nat
  {
    if textAddr <= pc < textAddr + |pcMap| then pcMap[pc - textAddr] else 0
  }

  /** A stub can be written: a free entry, a translated address, a free slot, the epilogue in reach. */
  predicate HasSlot(l: Layout, t: Table, pc: u64)
  {
    && |t.slots| < MAX_BREAKPOINTS && HostOffset(l.textAddr, l.pcMap, pc) != 0
    && l.room && t.handedOut + STUB_SLOT <= STUB_RESERVE
    && Near(l.epilogueOffset - (l.base + t.handedOut + STUB_BYTES))
  }

  /** A breakpoint can be set: its stub can be written and is in reach of the site. */
  predicate CanInsert(l: Layout, t: Table, pc: u64)
  {
    HasSlot(l, t, pc) && Near(l.base + t.handedOut - (HostOffset(l.textAddr, l.pcMap, pc) + 5))
  }

  /** The slot of a stub out of reach of its site is not given back. */
  function Inserted(l: Layout, t: Table, pc: u64): Table
  {
    if Some(pc) in t.slots || !HasSlot(l, t, pc) then t
    else Table(if CanInsert(l, t, pc) then t.slots + [Some(pc)] else t.slots, t.handedOut + STUB_SLOT)
  }

  function Freed(slots: seq<Option<u64>>, pc: u64): (r: seq<Option<u64>>)
    ensures |r| == |slots|
  {
    seq(|slots|, i requires 0 <= i < |slots| => if slots[i] == Some(pc) then None else slots[i])
  }

  /** Free entries at the end go. */
  function Trim(slots: seq<Option<u64>>): (r: seq<Option<u64>>)
    ensures forall pc: u64 :: Some(pc) in r <==> Some(pc) in slots
  {
    if slots == [] || slots[|slots| - 1].Some? then slots else
    assert slots == slots[..|slots| - 1] + [slots[|slots| - 1]];
    Trim(slots[..|slots| - 1])
  }

  function Removed(t: Table, pc: u64): Table
  {
    if Some(pc) in t.slots then t.(slots := Trim(Freed(t.slots, pc))) else t
  }

  function Obeyed(l: Layout, t: Table, c: Command): Table
  {
    match c
    case InsertAt(pc) => Inserted(l, t, pc)
    case RemoveAt(pc) => Removed(t, pc)
  }

  /** The table after the commands of a stop. */
  function AllObeyed(l: Layout, t: Table, commands: seq<Command>): Table
  {
    if commands == [] then t
    else Obeyed(l, AllObeyed(l, t, commands[..|commands| - 1]), commands[|commands| - 1])
  }

  /** The addresses that have a breakpoint. */
  ghost function Pcs(t: Table): set<u64>
  {
    set s <- t.slots | s.Some? :: s.value
  }

  /** A command changes the breakpoint of its own address only: an insertion sets it exactly if it
      was set or could be set, a removal always takes it away. */
  lemma ObeyedPcs(l: Layout, t: Table, c: Command)
    ensures c.InsertAt? ==>
              Pcs(Obeyed(l, t, c)) == if c.pc in Pcs(t) || CanInsert(l, t, c.pc) then Pcs(t) + {c.pc} else Pcs(t)
    ensures c.RemoveAt? ==> Pcs(Obeyed(l, t, c)) == Pcs(t) - {c.pc}
  {
    hide HasSlot, Trim;
    forall pc: u64 ensures pc in Pcs(t) <==> Some(pc) in t.slots { InPcs(t, pc); }
    forall pc: u64 ensures pc in Pcs(Obeyed(l, t, c)) <==> Some(pc) in Obeyed(l, t, c).slots { InPcs(Obeyed(l, t, c), pc); }
    if c.RemoveAt? && Some(c.pc) in t.slots {
      var f := Freed(t.slots, c.pc);
      forall pc: u64 ensures Some(pc) in f <==> pc != c.pc && Some(pc) in t.slots {
        if i :| 0 <= i < |t.slots| && t.slots[i] == Some(pc) && pc != c.pc { assert f[i] == Some(pc); }
      }
    }
  }

  lemma InPcs(t: Table, pc: u64)
    ensures pc in Pcs(t) <==> Some(pc) in t.slots
  {
    if Some(pc) in t.slots { var s :| s in t.slots && s == Some(pc); assert s.Some? && s.value == pc; }
  }

  // ---------------------------------------------------------------- when a breakpoint can be set

  /** Stubs have room behind the code, and everything lies within 2 GiB. */
  ghost predicate Roomy(l: Layout)
  {
    && l.room && l.base + 64 * 40 < TWO31 && l.epilogueOffset < TWO31
    && forall a | 0 <= a < |l.pcMap| :: l.pcMap[a] + 5 < TWO31
  }

  /** The address has code. */
  predicate HasCode(l: Layout, pc: u64)
  {
    l.textAddr <= pc < l.textAddr + |l.pcMap| && l.pcMap[pc - l.textAddr] != 0
  }

  /** After n stubs: each took 40 bytes, and no more than n entries are in the table. */
  ghost predicate Spent(t: Table, n: nat) { t.handedOut == 40 * n && |t.slots| <= n <= 64 }

  /** An insertion succeeds exactly if there is a breakpoint already, or the address has code and fewer
      than 64 stubs have been handed out; only then another one is. */
  lemma InsertIff(l: Layout, t: Table, pc: u64, n: nat)
    requires Roomy(l) && Spent(t, n)
    ensures pc in Pcs(Obeyed(l, t, InsertAt(pc))) <==> pc in Pcs(t) || (HasCode(l, pc) && n < 64)
    ensures Spent(Obeyed(l, t, InsertAt(pc)), if pc !in Pcs(t) && HasCode(l, pc) && n < 64 then n + 1 else n)
  {
    ObeyedPcs(l, t, InsertAt(pc));
    InPcs(t, pc);
  }

  /** What is trimmed off are free entries at the end, all of them. */
  lemma {:induction false} TrimEnds(slots: seq<Option<u64>>)
    ensures var r := Trim(slots); |r| <= |slots| && r == slots[..|r|] && (r == [] || r[|r| - 1].Some?)
    ensures forall i | |Trim(slots)| <= i < |slots| :: slots[i].None?
  {
    if slots != [] && slots[|slots| - 1].None? { TrimEnds(slots[..|slots| - 1]); }
  }

  /** Stubs are not given back. */
  lemma RemoveSpends(l: Layout, t: Table, pc: u64, n: nat)
    requires Spent(t, n)
    ensures Spent(Obeyed(l, t, RemoveAt(pc)), n)
  {
    TrimEnds(Freed(t.slots, pc));
  }

  /** The breakpoints that are asked for: those inserted, where there is code, and not removed since. */
  ghost function Asked(l: Layout, commands: seq<Command>): set<u64>
  {
    if commands == [] then {}
    else
      var rest := Asked(l, commands[..|commands| - 1]);
      match commands[|commands| - 1]
      case InsertAt(pc) => if HasCode(l, pc) then rest + {pc} else rest
      case RemoveAt(pc) => rest - {pc}
  }

  /** The first 64 commands of a session leave exactly the breakpoints that were asked for. */
  lemma {:induction false} FirstCommandsObeyed(l: Layout, commands: seq<Command>) returns (n: nat)
    requires Roomy(l) && |commands| <= 64
    ensures Pcs(AllObeyed(l, Table([], 0), commands)) == Asked(l, commands)
    ensures n <= |commands| && Spent(AllObeyed(l, Table([], 0), commands), n)
  {
    hide Roomy, Obeyed, HasCode;
    n := 0;
    if commands != [] {
      var init, c := commands[..|commands| - 1], commands[|commands| - 1];
      n := FirstCommandsObeyed(l, init);
      var t := AllObeyed(l, Table([], 0), init);
      ObeyedPcs(l, t, c);
      match c {
        case InsertAt(pc) =>
          InsertIff(l, t, pc, n);
          if pc !in Pcs(t) && HasCode(l, pc) { n := n + 1; }
        case RemoveAt(pc) =>
          RemoveSpends(l, t, pc, n);
      }
    }
  }

  /** After 64 stubs no breakpoint can be set any more, even if all are removed. */
  lemma StubsRunOut(l: Layout, t: Table, pc: u64)
    requires Roomy(l) && Spent(t, 64) && pc !in Pcs(t)
    ensures Obeyed(l, t, InsertAt(pc)) == t
  {
    InPcs(t, pc);
  }

  // ---------------------------------------------------------------- the patcher

  ghost function Armed(bps: seq<Breakpoint>, temp: int): set<nat>
  {
    set i: nat | i < |bps| && bps[i].used && i != temp
  }

  /** Translated addresses have their code at least one jump apart, inside the code. */
  ghost predicate MapApart(pcMap: seq<u32>, codeSize: nat)
  {
    && (forall a | 0 <= a < |pcMap| && pcMap[a] != 0 :: JumpFits(pcMap[a], codeSize))
    && (forall a, b | 0 <= a < b < |pcMap| && pcMap[a] != 0 && pcMap[b] != 0 ::
          JumpFits(pcMap[a], pcMap[b]) || JumpFits(pcMap[b], pcMap[a]))
  }

  predicate JumpFits(at: int, end: int) { at + 5 <= end }

  /** Slots are handed out in order and never twice. */
  ghost predicate SlotsOk(bps: seq<Breakpoint>, stubUsed: nat)
  {
    && (forall i | 0 <= i < |bps| :: bps[i].stubOff + STUB_SLOT <= stubUsed)
    && (forall i, j | 0 <= i < j < |bps| :: bps[i].stubOff + STUB_SLOT <= bps[j].stubOff)
  }

  /** A used entry knows its site and the compiled bytes there. */
  ghost predicate EntryOk(b: Breakpoint, textAddr: u64, pcMap: seq<u32>, code: seq<u8>)
  {
    b.used ==> b.hostOff == HostOffset(textAddr, pcMap, b.pc) != 0 && b.hostOff + 5 <= |code| &&
               b.saved == code[b.hostOff..b.hostOff + 5]
  }

  ghost predicate EntriesOk(bps: seq<Breakpoint>, textAddr: u64, pcMap: seq<u32>, code: seq<u8>)
  {
    && (forall i | 0 <= i < |bps| :: EntryOk(bps[i], textAddr, pcMap, code))
    && (forall i, j | 0 <= i < j < |bps| && bps[i].used && bps[j].used :: bps[i].pc != bps[j].pc)
  }

  lemma EntriesApart(bps: seq<Breakpoint>, textAddr: u64, pcMap: seq<u32>, code: seq<u8>)
    requires EntriesOk(bps, textAddr, pcMap, code) && MapApart(pcMap, |code|)
    ensures SitesApart(bps)
  {
    forall i, j | 0 <= i < j < |bps| && bps[i].used && bps[j].used
      ensures bps[i].hostOff + 5 <= bps[j].hostOff || bps[j].hostOff + 5 <= bps[i].hostOff {
      assert EntryOk(bps[i], textAddr, pcMap, code) && EntryOk(bps[j], textAddr, pcMap, code);
    }
  }

  function SlotsOf(bps: seq<Breakpoint>): (s: seq<Option<u64>>)
    ensures |s| == |bps|
  {
    seq(|bps|, i requires 0 <= i < |bps| => if bps[i].used then Some(bps[i].pc) else None)
  }

  lemma SlotUsed(bps: seq<Breakpoint>, pc: u64)
    ensures Some(pc) in SlotsOf(bps) <==> exists i | 0 <= i < |bps| :: bps[i].used && bps[i].pc == pc
  {
    if i :| 0 <= i < |bps| && bps[i].used && bps[i].pc == pc { assert SlotsOf(bps)[i] == Some(pc); }
  }

  class Patcher {
    const exec: array<u8>
    const codeSize: nat
    const epilogueOffset: nat
    const textAddr: u64
    const pcMap: seq<u32>
    /** The compiled code. */
    ghost const code: seq<u8>

    var bps: seq<Breakpoint>
    var stubOn: bool
    var stubUsed: nat
    /** The breakpoint whose bytes are back for one step, or -1. */
    var temp: int

    function Base(): nat { if exec.Length >= STUB_RESERVE then exec.Length - STUB_RESERVE else 0 }

    function StubRel(stubOff: nat): u32 { W32(epilogueOffset - (Base() + stubOff + STUB_BYTES)) }

    /** The stub area and the stubs of these entries are as they should be. */
    ghost predicate StubsFor(entries: seq<Breakpoint>)
      reads `stubOn, `stubUsed, exec
    {
      && stubUsed <= STUB_RESERVE && SlotsOk(entries, stubUsed)
      && (stubOn ==> codeSize + STUB_RESERVE <= exec.Length) && (|entries| > 0 || stubUsed > 0 ==> stubOn)
      && forall i | 0 <= i < |entries| && entries[i].used :: StubAt(exec[..], entries[i])
    }

    ghost predicate StubAt(mem: seq<u8>, b: Breakpoint)
    {
      var at := Base() + b.stubOff;
      && at + STUB_BYTES <= |mem| && mem[at..at + STUB_BYTES] == StubBytes(b.pc, StubRel(b.stubOff))
      && Near(epilogueOffset - (at + STUB_BYTES))
    }

    /** The table describes the stubs and the code, in which exactly these breakpoints are armed. */
    ghost predicate Sound(armed: set<nat>)
      reads `bps, `stubOn, `stubUsed, exec
    {
      && |bps| <= MAX_BREAKPOINTS && codeSize == |code| <= exec.Length && MapApart(pcMap, codeSize)
      && EntriesOk(bps, textAddr, pcMap, code)
      && StubsFor(bps)
      && Overlay(exec[..], code, bps, armed, Base())
    }

    /** The jump of every used entry reaches its stub. */
    ghost predicate InReach(entries: seq<Breakpoint>)
    {
      forall i | 0 <= i < |entries| && entries[i].used :: Near(Base() + entries[i].stubOff - (entries[i].hostOff + 5))
    }

    ghost predicate Valid()
      reads this, exec
    {
      Sound(Armed(bps, temp)) && InReach(bps) && (temp == -1 || (0 <= temp < |bps| && bps[temp].used))
    }

    ghost predicate Has(pc: u64)
      reads `bps
    {
      exists i | 0 <= i < |bps| :: bps[i].used && bps[i].pc == pc
    }

    function TheLayout(): Layout
    {
      Layout(textAddr, pcMap, epilogueOffset, Base(), codeSize + STUB_RESERVE <= exec.Length)
    }

    ghost function TheTable(): Table
      reads `bps, `stubUsed
    {
      Table(SlotsOf(bps), stubUsed)
    }

    /** The address whose breakpoint is lifted. */
    ghost function Lifted(): Option<u64>
      reads `bps, `temp
    {
      if 0 <= temp < |bps| then Some(bps[temp].pc) else None
    }

    /** Attaching a debugger to compiled code. */
    constructor (exec: array<u8>, codeSize: nat, epilogueOffset: nat, textAddr: u64, pcMap: seq<u32>)
      requires codeSize <= exec.Length && MapApart(pcMap, codeSize)
      ensures Valid() && this.exec == exec && code == exec[..codeSize] && bps == [] && temp == -1
      ensures this.codeSize == codeSize && stubUsed == 0
      ensures this.pcMap == pcMap && this.textAddr == textAddr && this.epilogueOffset == epilogueOffset
    {
      this.exec, this.codeSize, this.epilogueOffset := exec, codeSize, epilogueOffset;
      this.textAddr, this.pcMap, this.code := textAddr, pcMap, exec[..codeSize];
      bps, stubOn, stubUsed, temp := [], false, 0, -1;
    }

    method Put(at: nat, b: seq<u8>)
      requires at + |b| <= exec.Length
      modifies exec
      ensures exec[..] == Splice(old(exec[..]), at, b)
    {
      var i := 0;
      while i < |b|
        invariant i <= |b|
        invariant forall x | 0 <= x < exec.Length :: exec[x] == if at <= x < at + i then b[x - at] else old(exec[x])
      {
        exec[at + i] := b[i];
        i := i + 1;
      }
    }

    method Find(pc: u64) returns (i: int)
      ensures -1 <= i < |bps| && (i >= 0 ==> bps[i].used && bps[i].pc == pc)
      ensures i == -1 <==> !Has(pc)
    {
      i := 0;
      while i < |bps|
        invariant 0 <= i <= |bps| && forall j | 0 <= j < i :: !(bps[j].used && bps[j].pc == pc)
      {
        if bps[i].used && bps[i].pc == pc {
          return;
        }
        i := i + 1;
      }
      i := -1;
    }

    // ---------------------------------------------------------------- one site

    /** Puts the compiled bytes back at a site. */
    method Unpatch(i: int)
      requires Valid() && 0 <= i < |bps| && bps[i].used
      modifies exec
      ensures exec[..] == Splice(old(exec[..]), bps[i].hostOff, bps[i].saved)
      ensures Overlay(exec[..], code, bps, Armed(bps, temp) - {i}, Base()) && StubsFor(bps)
    {
      hide Overlay, SlotsOk, Splice, StubBytes;
      assert EntryOk(bps[i], textAddr, pcMap, code);
      EntriesApart(bps, textAddr, pcMap, code);
      Disarm(exec[..], code, bps, Armed(bps, temp), Base(), i);
      StubsApart(bps[i].hostOff, bps[i].saved);
      Put(bps[i].hostOff, bps[i].saved);
    }

    /** Writes the jump to the stub over a site. */
    method Repatch(i: int)
      requires Valid() && 0 <= i < |bps| && bps[i].used
      modifies exec
      ensures exec[..] == Splice(old(exec[..]), bps[i].hostOff, SiteJump(bps[i], Base()))
      ensures Overlay(exec[..], code, bps, Armed(bps, temp) + {i}, Base()) && StubsFor(bps)
    {
      hide Overlay, SlotsOk, Splice, StubBytes, Le;
      assert EntryOk(bps[i], textAddr, pcMap, code);
      EntriesApart(bps, textAddr, pcMap, code);
      Arm(exec[..], code, bps, Armed(bps, temp), Base(), i);
      StubsApart(bps[i].hostOff, SiteJump(bps[i], Base()));
      Put(bps[i].hostOff, [0xE9] + Le(W32(Base() + bps[i].stubOff - (bps[i].hostOff + 5)), 4));
    }

    /** Writing inside the code leaves the stubs alone. */
    lemma StubsApart(at: nat, b: seq<u8>)
      requires StubsFor(bps) && at + |b| <= codeSize <= exec.Length
      ensures forall i | 0 <= i < |bps| && bps[i].used :: StubAt(Splice(exec[..], at, b), bps[i])
    {
      hide SlotsOk, StubBytes, Splice;
      forall i | 0 <= i < |bps| && bps[i].used ensures StubAt(Splice(exec[..], at, b), bps[i]) {
        assert StubAt(exec[..], bps[i]);
        SpliceApart(exec[..], at, b, Base() + bps[i].stubOff, STUB_BYTES);
      }
    }

    // ---------------------------------------------------------------- stepping over a breakpoint

    /** The stopped-at breakpoint gives its bytes back so that its instruction can run. */
    method TempUnpatch(pc: u64) returns (found: bool)
      requires Valid() && temp == -1
      modifies exec, `temp
      ensures Valid() && found == Has(pc)
      ensures found ==> 0 <= temp < |bps| && bps[temp].used && bps[temp].pc == pc
      ensures !found ==> temp == -1 && exec[..] == old(exec[..])
    {
      hide Overlay, StubsFor, EntriesOk, MapApart;
      var i := Find(pc);
      if i < 0 {
        return false;
      }
      Unpatch(i);
      temp := i;
      assert Armed(bps, temp) == Armed(bps, -1) - {i};
      return true;
    }

    /** Arms the breakpoint at an address again. */
    method RepatchPc(pc: u64)
      requires Valid() && (temp == -1 || bps[temp].pc == pc)
      modifies exec, `temp
      ensures Valid() && temp == -1
    {
      hide Overlay, StubsFor, EntriesOk, MapApart;
      var i := Find(pc);
      if i < 0 {
        return;
      }
      if temp != -1 { OnlyOne(i); }
      Repatch(i);
      assert Armed(bps, -1) == Armed(bps, temp) + {i};
      temp := -1;
    }

    lemma OnlyOne(i: int)
      requires Valid() && 0 <= i < |bps| && bps[i].used && temp != -1 && bps[temp].pc == bps[i].pc
      ensures i == temp
    {
      hide Overlay, StubsFor, MapApart;
    }

    /** At every stop, before the debugger is heard, nothing is left unarmed. */
    method Rearm()
      requires Valid()
      modifies exec, `temp
      ensures Valid() && temp == -1
    {
      hide Overlay, StubsFor, EntriesOk, MapApart;
      if temp >= 0 {
        Repatch(temp);
        assert Armed(bps, -1) == Armed(bps, temp) + {temp};
        temp := -1;
      }
    }

    // ---------------------------------------------------------------- installing and removing

    function HostOffsetOf(pc: u64): nat { HostOffset(textAddr, pcMap, pc) }

    /** The stub area lies at the end of the mapping, if there is room behind the code. */
    method EnsureStubBuf() returns (ok: bool)
      requires Valid()
      modifies `stubOn, `stubUsed
      ensures Valid() && bps == old(bps) && temp == old(temp) && stubUsed == old(if stubOn then stubUsed else 0)
      ensures ok == stubOn == (old(stubOn) || codeSize + STUB_RESERVE <= exec.Length)
    {
      hide Overlay, EntriesOk, MapApart;
      if stubOn {
        return true;
      }
      if exec.Length < codeSize + STUB_RESERVE {
        return false;
      }
      stubOn, stubUsed := true, 0;
      return true;
    }

    /** The bytes at a site nobody has armed are the compiled ones. */
    lemma SiteClean(pc: u64)
      requires Valid() && temp == -1 && !Has(pc) && HostOffsetOf(pc) != 0
      ensures var at := HostOffsetOf(pc); at + 5 <= codeSize && exec[at..at + 5] == code[at..at + 5]
    {
      hide StubsFor, SiteJump;
      var at := HostOffsetOf(pc);
      forall x: nat | at <= x < at + 5 ensures x < codeSize && exec[..][x] == code[x] {
        forall i <- Armed(bps, temp) ensures !Covers(bps[i], x) { OtherSite(i, pc); }
        assert Untouched(bps, Armed(bps, temp), x);
      }
    }

    lemma OtherSite(i: nat, pc: u64)
      requires Valid() && i < |bps| && bps[i].used && bps[i].pc != pc && HostOffsetOf(pc) != 0
      ensures bps[i].hostOff + 5 <= HostOffsetOf(pc) || HostOffsetOf(pc) + 5 <= bps[i].hostOff
    {
      hide StubsFor, Overlay;
      assert EntryOk(bps[i], textAddr, pcMap, code);
    }

    /** Writes the next stub; the code and the other stubs stay. */
    method WriteStub(pc: u64)
      requires Valid() && temp == -1 && stubOn && stubUsed + STUB_SLOT <= STUB_RESERVE
      requires Near(epilogueOffset - (Base() + stubUsed + STUB_BYTES))
      modifies exec
      ensures Valid() && exec[..codeSize] == old(exec[..codeSize])
      ensures forall b: Breakpoint | b.pc == pc && b.stubOff == stubUsed :: StubAt(exec[..], b)
    {
      hide Overlay, EntriesOk, MapApart, StubBytes, Splice;
      var at, bytes := Base() + stubUsed, StubBytes(pc, StubRel(stubUsed));
      ghost var was := exec[..];
      SpliceAt(was, at, bytes, at);
      SpliceApart(was, at, bytes, 0, codeSize);
      forall i | 0 <= i < |bps| && bps[i].used ensures StubAt(Splice(was, at, bytes), bps[i]) {
        assert StubAt(was, bps[i]);
        SpliceApart(was, at, bytes, Base() + bps[i].stubOff, STUB_BYTES);
      }
      Put(at, bytes);
      assert was[..codeSize] == was[0..codeSize] && exec[..codeSize] == exec[..][0..codeSize];
      OverlayKept(was, exec[..], code, bps, bps, Armed(bps, temp), Base());
    }

    /** Enters a breakpoint in the table; its jump is not written yet. */
    method Record(pc: u64, hostOff: nat)
      requires Valid() && temp == -1 && stubOn && stubUsed + STUB_SLOT <= STUB_RESERVE && |bps| < MAX_BREAKPOINTS
      requires !Has(pc) && hostOff == HostOffsetOf(pc) != 0
      requires StubAt(exec[..], Breakpoint(pc, hostOff, stubUsed, [], true))
      modifies `bps, `stubUsed
      ensures hostOff + 5 <= codeSize == |code|
      ensures bps == old(bps) + [Breakpoint(pc, hostOff, old(stubUsed), code[hostOff..hostOff + 5], true)]
      ensures stubUsed == old(stubUsed) + STUB_SLOT && Sound(Armed(old(bps), -1))
    {
      hide Overlay, MapApart, StubBytes;
      SiteClean(pc);
      ghost var was := bps;
      NewEntry(was, Breakpoint(pc, hostOff, stubUsed, code[hostOff..hostOff + 5], true), stubUsed);
      bps := bps + [Breakpoint(pc, hostOff, stubUsed, exec[hostOff..hostOff + 5], true)];
      stubUsed := stubUsed + STUB_SLOT;
      OverlayKept(exec[..], exec[..], code, was, bps, Armed(was, -1), Base());
    }

    lemma NewEntry(was: seq<Breakpoint>, b: Breakpoint, slot: nat)
      requires EntriesOk(was, textAddr, pcMap, code) && SlotsOk(was, slot) && b.stubOff == slot
      requires EntryOk(b, textAddr, pcMap, code) && forall i | 0 <= i < |was| && was[i].used :: was[i].pc != b.pc
      ensures EntriesOk(was + [b], textAddr, pcMap, code) && SlotsOk(was + [b], slot + STUB_SLOT)
    {
      hide EntryOk;
    }

    /** Arms the last entry of the table. */
    method ArmLast(ghost was: seq<Breakpoint>)
      requires |bps| == |was| + 1 && bps[..|was|] == was && bps[|was|].used && temp == -1 && Sound(Armed(was, -1))
      requires InReach(bps)
      modifies exec
      ensures Valid()
    {
      hide Overlay, SlotsOk, Splice, StubBytes, Le;
      var n := |bps| - 1;
      assert EntryOk(bps[n], textAddr, pcMap, code);
      EntriesApart(bps, textAddr, pcMap, code);
      forall i <- Armed(was, -1) ensures i < |bps| && bps[i].used { assert bps[i] == bps[..|was|][i]; }
      Arm(exec[..], code, bps, Armed(was, -1), Base(), n);
      StubsApart(bps[n].hostOff, SiteJump(bps[n], Base()));
      ArmedGrows(was, bps);
      Put(bps[n].hostOff, [0xE9] + Le(W32(Base() + bps[n].stubOff - (bps[n].hostOff + 5)), 4));
    }

    /** Takes the last entry out again. */
    method Withdraw(ghost was: seq<Breakpoint>)
      requires |bps| == |was| + 1 && bps[..|was|] == was && temp == -1 && Sound(Armed(was, -1)) && InReach(was)
      modifies `bps
      ensures Valid() && bps == was
    {
      hide Overlay, StubBytes;
      ghost var all := bps;
      bps := bps[..|bps| - 1];
      assert bps == was;
      forall i <- Armed(was, -1) ensures i < |was| && was[i] == all[i] { }
      OverlayKept(exec[..], exec[..], code, all, was, Armed(was, -1), Base());
    }

    lemma ArmedGrows(was: seq<Breakpoint>, now: seq<Breakpoint>)
      requires |now| == |was| + 1 && now[..|was|] == was && now[|was|].used
      ensures Armed(now, -1) == Armed(was, -1) + {|was|}
    {
      forall i: nat | i < |was| ensures now[i] == was[i] { assert now[..|was|][i] == now[i]; }
    }

    /** gdb_bp_install. Setting a breakpoint twice changes nothing. */
    method Install(pc: u64) returns (ok: bool)
      requires Valid() && temp == -1
      modifies exec, `bps, `stubOn, `stubUsed
      ensures Valid() && TheTable() == Inserted(TheLayout(), old(TheTable()), pc) && ok == (Some(pc) in TheTable().slots)
      ensures old(Has(pc)) || !ok ==> bps == old(bps) && exec[..codeSize] == old(exec[..codeSize])
      ensures ok && !old(Has(pc)) ==> |bps| == |old(bps)| + 1 && bps[..|old(bps)|] == old(bps) &&
                                      bps[|old(bps)|].used && bps[|old(bps)|].pc == pc
    {
      hide Overlay, StubsFor, EntriesOk, MapApart, StubBytes, Splice, Le, SlotsOf;
      SlotUsed(bps, pc);
      StubsSpent();
      var i := Find(pc);
      if i >= 0 {
        return true;
      }
      if |bps| >= MAX_BREAKPOINTS {
        return false;
      }
      var host := HostOffsetOf(pc);
      if host == 0 {
        return false;
      }
      var room := EnsureStubBuf();
      if !room {
        return false;
      }
      if stubUsed + STUB_SLOT > STUB_RESERVE {
        return false;
      }
      var rel := epilogueOffset - (Base() + stubUsed + STUB_BYTES);
      if rel < -0x7FFF_FFFF || rel > 0x7FFF_FFFF {
        return false;
      }
      WriteStub(pc);
      ghost var was := bps;
      Record(pc, host);
      var siteRel := Base() + bps[|bps| - 1].stubOff - (host + 5);
      if siteRel < -0x7FFF_FFFF || siteRel > 0x7FFF_FFFF {
        Withdraw(was);
        return false;
      }
      forall j | 0 <= j < |was| ensures bps[j] == was[j] { }
      ArmLast(was);
      SlotsGrow(was, bps[|was|]);
      SlotUsed(bps, pc);
      assert bps[|was|].used && bps[|was|].pc == pc;
      return true;
    }

    /** The stub area is spoken for exactly if it has been taken. */
    lemma StubsSpent()
      requires Valid()
      ensures (stubOn ==> codeSize + STUB_RESERVE <= exec.Length) && (!stubOn ==> stubUsed == 0)
    {
      hide Overlay, EntriesOk, MapApart;
    }

    lemma SlotsGrow(was: seq<Breakpoint>, b: Breakpoint)
      requires b.used
      ensures SlotsOf(was + [b]) == SlotsOf(was) + [Some(b.pc)]
    {
    }

    /** Removing: the compiled bytes come back, and free entries at the end of the table go. */
    method Remove(pc: u64)
      requires Valid() && temp == -1
      modifies exec, `bps
      ensures Valid() && TheTable() == Removed(old(TheTable()), pc)
      ensures !Has(pc) && forall q: u64 | q != pc :: Has(q) == old(Has(q))
    {
      hide Overlay, StubsFor, EntriesOk, MapApart, SlotsOf, Trim, Freed;
      SlotUsed(bps, pc);
      var i := Find(pc);
      if i < 0 {
        return;
      }
      Unpatch(i);
      ghost var was := bps;
      bps := bps[i := bps[i].(used := false)];
      Dropped(was, i);
      SlotFreed(was, i);
      while |bps| > 0 && !bps[|bps| - 1].used
        invariant Valid()
        invariant forall q: u64 :: Has(q) == (q != pc && old(Has(q)))
        invariant Trim(SlotsOf(bps)) == Trim(Freed(SlotsOf(was), pc))
        decreases |bps|
      {
        ghost var now := bps;
        bps := bps[..|bps| - 1];
        Trimmed(now);
        TrimStep(now);
      }
      TrimDone(bps);
    }

    lemma SlotFreed(was: seq<Breakpoint>, i: nat)
      requires i < |was| && was[i].used && EntriesOk(was, textAddr, pcMap, code)
      ensures SlotsOf(was[i := was[i].(used := false)]) == Freed(SlotsOf(was), was[i].pc)
    {
      hide EntryOk;
    }

    lemma TrimStep(now: seq<Breakpoint>)
      requires |now| > 0 && !now[|now| - 1].used
      ensures Trim(SlotsOf(now[..|now| - 1])) == Trim(SlotsOf(now))
    {
      assert SlotsOf(now[..|now| - 1]) == SlotsOf(now)[..|now| - 1];
    }

    lemma TrimDone(now: seq<Breakpoint>)
      requires |now| > 0 ==> now[|now| - 1].used
      ensures Trim(SlotsOf(now)) == SlotsOf(now)
    {
    }

    /** An entry that is no longer used, and no longer armed. */
    lemma Dropped(was: seq<Breakpoint>, i: nat)
      requires i < |was| && was[i].used && bps == was[i := was[i].(used := false)] && |was| <= MAX_BREAKPOINTS && temp == -1
      requires codeSize == |code| <= exec.Length && MapApart(pcMap, codeSize) && EntriesOk(was, textAddr, pcMap, code)
      requires StubsFor(was) && InReach(was)
      requires Overlay(exec[..], code, was, Armed(was, -1) - {i}, Base())
      ensures Valid()
      ensures forall q: u64 :: Has(q) == (q != was[i].pc && exists j | 0 <= j < |was| :: was[j].used && was[j].pc == q)
    {
      hide Overlay, MapApart, StubBytes;
      assert Armed(bps, -1) == Armed(was, -1) - {i};
      OverlayKept(exec[..], exec[..], code, was, bps, Armed(bps, -1), Base());
      forall q: u64 ensures Has(q) == (q != was[i].pc && exists j | 0 <= j < |was| :: was[j].used && was[j].pc == q) {
        if j :| 0 <= j < |was| && was[j].used && was[j].pc == q && q != was[i].pc { assert bps[j].used; }
      }
    }

    lemma Trimmed(now: seq<Breakpoint>)
      requires |now| > 0 && !now[|now| - 1].used && bps == now[..|now| - 1] && temp == -1
      requires |now| <= MAX_BREAKPOINTS && codeSize == |code| <= exec.Length && MapApart(pcMap, codeSize)
      requires EntriesOk(now, textAddr, pcMap, code) && StubsFor(now) && InReach(now)
      requires Overlay(exec[..], code, now, Armed(now, -1), Base())
      ensures Valid()
      ensures forall q: u64 :: Has(q) == exists j | 0 <= j < |now| :: now[j].used && now[j].pc == q
    {
      hide Overlay, MapApart, StubBytes;
      assert Armed(bps, -1) == Armed(now, -1);
      OverlayKept(exec[..], exec[..], code, now, bps, Armed(bps, -1), Base());
      forall q: u64 ensures Has(q) == exists j | 0 <= j < |now| :: now[j].used && now[j].pc == q {
        if j :| 0 <= j < |now| && now[j].used && now[j].pc == q { assert bps[j].used; }
      }
    }

    // ---------------------------------------------------------------- stops and the end of a session

    /** A stop: everything is armed, then the debugger's commands run in order. */
    method OnStop(commands: seq<Command>)
      requires Valid()
      modifies exec, `bps, `stubOn, `stubUsed, `temp
      ensures Valid() && temp == -1 && TheTable() == AllObeyed(TheLayout(), old(TheTable()), commands)
    {
      hide Sound, SlotsOf, Inserted, Removed;
      Rearm();
      var i := 0;
      while i < |commands|
        invariant i <= |commands| && Valid() && temp == -1
        invariant TheTable() == AllObeyed(TheLayout(), old(TheTable()), commands[..i])
      {
        match commands[i] {
          case InsertAt(pc) =>
            var ok := Install(pc);
          case RemoveAt(pc) =>
            Remove(pc);
        }
        assert commands[..i + 1][..i] == commands[..i];
        i := i + 1;
      }
      assert commands[..i] == commands;
    }

    /** Closing the session: whatever happened, the compiled code is back, byte for byte. */
    method Close()
      requires Valid()
      modifies exec, `bps, `stubOn, `stubUsed
      ensures exec[..codeSize] == code && bps == []
    {
      hide Overlay, SlotsOk, Splice, StubBytes, StubsFor;
      EntriesApart(bps, textAddr, pcMap, code);
      stubOn, stubUsed := false, 0;
      ghost var armed, was := Armed(bps, temp), bps;
      var i := 0;
      while i < |bps|
        invariant i <= |bps| && bps == was && Overlay(exec[..], code, bps, armed, Base())
        invariant forall j <- armed :: i <= j < |bps| && bps[j].used
      {
        if bps[i].used {
          assert EntryOk(bps[i], textAddr, pcMap, code);
          Disarm(exec[..], code, bps, armed, Base(), i);
          Put(bps[i].hostOff, bps[i].saved);
          armed := armed - {i};
        }
        i := i + 1;
      }
      assert armed == {};
      NothingArmed(exec[..], code, bps, Base());
      bps := [];
    }

    ghost function Snapshot(): Shot
      reads this, exec
    {
      Shot(exec[..], bps, stubUsed, temp)
    }

    /** What a moment of a session shows: the table and the lifted breakpoint are as the events made
        them, and memory is the compiled code but for the jumps of all other breakpoints. */
    ghost predicate Shows(s: Shot, w: Watch)
    {
      && Table(SlotsOf(s.bps), s.stubUsed) == w.table
      && w.lifted == (if 0 <= s.temp < |s.bps| then Some(s.bps[s.temp].pc) else None)
      && Overlay(s.mem, code, s.bps, Armed(s.bps, s.temp), Base())
    }

    /** A whole session of stops, steps over a breakpoint and re-arming, and its end. The trace has
        a moment before the first event and one after each. */
    method Session(events: seq<Event>) returns (ghost trace: seq<Shot>)
      requires Valid()
      modifies this, exec
      ensures |trace| == |events| + 1 && trace[0] == old(Snapshot())
      ensures forall i | 0 <= i <= |events| ::
                Shows(trace[i], Watched(TheLayout(), Watch(old(TheTable()), old(Lifted())), events[..i]))
      ensures exec[..codeSize] == code && bps == []
    {
      hide Sound, SlotsOf, AllObeyed, Overlay;
      ghost var start := Watch(TheTable(), Lifted());
      trace := [Snapshot()];
      ShowsNow(start);
      var i := 0;
      while i < |events|
        invariant i <= |events| && Valid() && |trace| == i + 1 && trace[0] == old(Snapshot())
        invariant Watched(TheLayout(), start, events[..i]) == Watch(TheTable(), Lifted())
        invariant forall j | 0 <= j <= i :: Shows(trace[j], Watched(TheLayout(), start, events[..j]))
      {
        match events[i] {
          case Stop(commands) => OnStop(commands);
          case StepOver(pc) =>
            SlotUsed(bps, pc);
            if temp == -1 {
              var found := TempUnpatch(pc);
            }
          case Stepped =>
            if temp >= 0 {
              RepatchPc(bps[temp].pc);
            }
        }
        assert events[..i + 1][..i] == events[..i];
        i := i + 1;
        trace := trace + [Snapshot()];
        ShowsNow(Watch(TheTable(), Lifted()));
      }
      Close();
    }

    lemma ShowsNow(w: Watch)
      requires Valid() && w == Watch(TheTable(), Lifted())
      ensures Shows(Snapshot(), w)
    {
      hide EntriesOk, StubsFor, MapApart, Overlay;
    }
  }

  /** A moment of a session, and what is to be seen of it. */
  datatype Shot = Shot(mem: seq<u8>, bps: seq<Breakpoint>, stubUsed: nat, temp: int)
  datatype Watch = Watch(table: Table, lifted: Option<u64>)

  function Watched(l: Layout, w: Watch, events: seq<Event>): Watch
  {
    if events == [] then w
    else
      var v := Watched(l, w, events[..|events| - 1]);
      match events[|events| - 1]
      case Stop(commands) => Watch(AllObeyed(l, v.table, commands), None)
      case StepOver(pc) => if v.lifted.None? && Some(pc) in v.table.slots then v.(lifted := Some(pc)) else v
      case Stepped => v.(lifted := None)
  }

  /** A stop arms everything, a step over a breakpoint lifts that one, the end of the step arms it again;
      only stops change the table. */
  lemma WatchedLifts(l: Layout, w: Watch, events: seq<Event>, e: Event)
    ensures var v, v' := Watched(l, w, events), Watched(l, w, events + [e]);
            && (e.StepOver? && v.lifted.None? && e.pc in Pcs(v.table) ==> v'.lifted == Some(e.pc))
            && (e.StepOver? && !(v.lifted.None? && e.pc in Pcs(v.table)) ==> v'.lifted == v.lifted)
            && (!e.StepOver? ==> v'.lifted.None?)
            && v'.table == if e.Stop? then AllObeyed(l, v.table, e.commands) else v.table
  {
    hide AllObeyed;
    assert (events + [e])[..|events|] == events;
    if e.StepOver? { InPcs(Watched(l, w, events).table, e.pc); }
  }

  /** What happens to breakpoints during a session. */
  datatype Event = Stop(commands: seq<Command>) | StepOver(pc: u64) | Stepped
}
