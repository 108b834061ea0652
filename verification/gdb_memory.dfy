/** How the debugger resolves guest addresses, against how the generated code does. */
module GdbMemory {
  import opened Words
  import opened Ir

  /** A resolved range: which host memory, from which offset, and whether it may be written. */
  datatype Resolved = Nothing | Range(at: Place, writable: bool)

  /** gdb_translate_guest: the region of the first byte decides, text first, then the stack
      from address zero up, then the data region. None if the range does not stay inside. */
  method TranslateGuest(sp: Space, addr: u64, len: nat) returns (r: Option<Resolved>)
    requires SpaceOk(sp)
    ensures r == Translate(sp, addr, len) && (len == 0 ==> r == Some(Nothing))
  {
    if len == 0 {
      return Some(Nothing);
    }
    var textEnd := sp.textAddr + |sp.text|;
    if addr >= sp.textAddr && addr < textEnd {
      if len > textEnd - addr {
        return None;
      }
      return Some(Range(InText(addr - sp.textAddr), false));
    }
    if addr < sp.stackSize {
      if len > sp.stackSize - addr {
        return None;
      }
      return Some(Range(InStack(addr), true));
    }
    var dataEnd := sp.dataAddr + sp.dataSize;
    if sp.dataSize != 0 && addr >= sp.dataAddr && addr < dataEnd {
      if len > dataEnd - addr {
        return None;
      }
      return Some(Range(InData(addr - sp.dataAddr), true));
    }
    return None;
  }

  predicate Inside(a: int, n: int, base: int, size: int)
  {
    base <= a && a + n <= base + size
  }

  /** The same by whole ranges. */
  function Translate(sp: Space, a: u64, n: nat): Option<Resolved>
  {
    if n == 0 then Some(Nothing)
    else if Inside(a, 1, sp.textAddr, |sp.text|) then
      if Inside(a, n, sp.textAddr, |sp.text|) then Some(Range(InText(a - sp.textAddr), false)) else None
    else if Inside(a, 1, 0, sp.stackSize) then
      if Inside(a, n, 0, sp.stackSize) then Some(Range(InStack(a), true)) else None
    else if Inside(a, n, sp.dataAddr, sp.dataSize) then Some(Range(InData(a - sp.dataAddr), true))
    else None
  }

  /** What the debugger may read and write is what guest loads and stores may. */
  ghost predicate SameView(sp: Space, a: u64, n: nat)
  {
    var r := Translate(sp, a, n);
    var load, store := Find(sp, a, n, false), Find(sp, a, n, true);
    && (r.None? <==> load.Nowhere?)
    && (r.Some? ==> r.value == Range(load, !store.Nowhere?))
    && (!store.Nowhere? ==> store == load)
  }

  /** The two orders, text first or text last, and the guard at the bottom of the stack do not show:
      a range that starts in the text fits neither the unguarded stack nor the data region, and one
      that starts in the stack alone fits it above the guard, or does not fit it and no data either. */
  predicate OrderHidden(sp: Space, a: u64, n: nat)
  {
    var inStack, inData := Inside(a, n, 0, sp.stackSize), Inside(a, n, sp.dataAddr, sp.dataSize);
    if Inside(a, 1, sp.textAddr, |sp.text|) then !(inStack && a >= STACK_GUARD) && !inData
    else if Inside(a, 1, 0, sp.stackSize) then if inStack then a >= STACK_GUARD else !inData
    else true
  }

  /** For all regions, overlapping or not: the two views agree on exactly these accesses. */
  lemma SameViewIff(sp: Space, a: u64, n: nat)
    requires SpaceOk(sp) && n > 0
    ensures SameView(sp, a, n) <==> OrderHidden(sp, a, n)
  {
  }

  ghost predicate Disjoint(a: int, n: int, b: int, m: int) { a + n <= b || b + m <= a }

  /** The three guest regions do not overlap. */
  ghost predicate RegionsDisjoint(sp: Space)
  {
    && Disjoint(0, sp.stackSize, sp.textAddr, |sp.text|)
    && Disjoint(sp.dataAddr, sp.dataSize, sp.textAddr, |sp.text|)
    && Disjoint(0, sp.stackSize, sp.dataAddr, sp.dataSize)
  }

  /** With disjoint regions only the guard is left: the views agree on the accesses that start above
      it, or that do not fit the stack at all. */
  lemma DisjointViews(sp: Space, a: u64, n: nat)
    requires SpaceOk(sp) && RegionsDisjoint(sp) && n > 0
    ensures SameView(sp, a, n) <==> a >= STACK_GUARD || a + n > sp.stackSize
  {
  }

  /** Where text and stack overlap: the debugger sees read-only text, the guest its stack. */
  lemma OverlapDiffers(sp: Space, a: u64, n: nat)
    requires SpaceOk(sp) && n > 0 && a >= STACK_GUARD
    requires Inside(a, n, 0, sp.stackSize) && Inside(a, n, sp.textAddr, |sp.text|)
    ensures Translate(sp, a, n) == Some(Range(InText(a - sp.textAddr), false)) && Find(sp, a, n, true) == InStack(a)
    ensures !SameView(sp, a, n)
  {
  }
}
