/** The ranges of the text that hold data, from the mapping symbols of the symbol table. */
module TextMap {
  import opened Words
  import opened Translate

  datatype Symbol = Symbol(name: string, value: u64)

  /** A mapping symbol: from here on the text is data, or code. */
  datatype MapSym = MapSym(addr: u64, data: bool)

  predicate IsMapping(s: Symbol, lo: u64, hi: u64)
  {
    |s.name| >= 2 && s.name[0] == '$' && (s.name[1] == 'x' || s.name[1] == 'd') && lo <= s.value < hi
  }

  function MappingOf(s: Symbol): MapSym
    requires |s.name| >= 2
  {
    MapSym(s.value, s.name[1] == 'd')
  }

  /** The mapping symbols inside the text, in table order. */
  function Mappings(syms: seq<Symbol>, lo: u64, hi: u64): seq<MapSym>
  {
    if |syms| == 0 then []
    else
      var rest := Mappings(syms[..|syms| - 1], lo, hi);
      var s := syms[|syms| - 1];
      if IsMapping(s, lo, hi) then rest + [MappingOf(s)] else rest
  }

  method CollectMappings(syms: seq<Symbol>, lo: u64, hi: u64) returns (maps: seq<MapSym>)
    ensures maps == Mappings(syms, lo, hi)
  {
    maps := [];
    var i := 0;
    while i < |syms|
      invariant i <= |syms| && maps == Mappings(syms[..i], lo, hi)
    {
      assert syms[..i + 1][..i] == syms[..i];
      if IsMapping(syms[i], lo, hi) {
        maps := maps + [MappingOf(syms[i])];
      }
      i := i + 1;
    }
    assert syms[..i] == syms;
  }

  ghost predicate Sorted(maps: seq<MapSym>)
  {
    forall i, j | 0 <= i < j < |maps| :: maps[i].addr <= maps[j].addr
  }

  /** What the last mapping symbol at or before an address says. */
  function LastBefore(maps: seq<MapSym>, a: u64): Option<bool>
  {
    if |maps| == 0 then None
    else if maps[|maps| - 1].addr <= a then Some(maps[|maps| - 1].data)
    else LastBefore(maps[..|maps| - 1], a)
  }

  predicate InData(maps: seq<MapSym>, a: u64) { LastBefore(maps, a) == Some(true) }

  /** In a sorted table, a symbol rules from its address to the next symbol. */
  lemma {:induction false} RulesUntilNext(maps: seq<MapSym>, i: nat, a: u64)
    requires Sorted(maps) && i < |maps| && maps[i].addr <= a && (i + 1 < |maps| ==> a < maps[i + 1].addr)
    ensures LastBefore(maps, a) == Some(maps[i].data)
  {
    if i + 1 < |maps| {
      var n := |maps| - 1;
      assert a < maps[n].addr;
      RulesUntilNext(maps[..n], i, a);
    }
  }

  lemma {:induction false} NoneBefore(maps: seq<MapSym>, a: u64)
    requires Sorted(maps) && (|maps| > 0 ==> a < maps[0].addr)
    ensures LastBefore(maps, a) == None
  {
    if |maps| > 0 { NoneBefore(maps[..|maps| - 1], a); }
  }

  /** Byte a is data, and the first i symbols decide it. */
  predicate Decided(maps: seq<MapSym>, i: nat, a: u64)
    requires i <= |maps|
  {
    InData(maps, a) && (i < |maps| ==> a < maps[i].addr)
  }

  lemma DecidedStep(maps: seq<MapSym>, i: nat, a: u64, end: u64)
    requires Sorted(maps) && i < |maps| && (i + 1 < |maps| ==> end == maps[i + 1].addr) && (i + 1 == |maps| ==> a < end)
    ensures Decided(maps, i + 1, a) == (Decided(maps, i, a) || (maps[i].data && maps[i].addr <= a < end))
  {
    if maps[i].addr <= a < end { RulesUntilNext(maps, i, a); }
  }

  /** Painting every range from a data symbol to the next symbol or the end of the text. */
  method Paint(maps: seq<MapSym>, lo: u64, size: nat) returns (painted: array<bool>)
    requires lo + size < TWO64 && Sorted(maps) && forall m <- maps :: lo <= m.addr < lo + size
    ensures fresh(painted) && painted.Length == size
    ensures forall k | 0 <= k < size :: painted[k] == InData(maps, lo + k)
  {
    hide LastBefore, Decided;
    painted := new bool[size](_ => false);
    forall a: u64 ensures !Decided(maps, 0, a) { UndecidedAtFirst(maps, a); }
    var i := 0;
    while i < |maps|
      invariant i <= |maps|
      invariant forall k | 0 <= k < size :: painted[k] == Decided(maps, i, lo + k)
    {
      var end: u64 := if i + 1 < |maps| then maps[i + 1].addr else lo + size;
      ghost var was := painted[..];
      if maps[i].data {
        var a := maps[i].addr;
        while a < end
          invariant maps[i].addr <= a && (a <= end || a == maps[i].addr)
          invariant forall k | 0 <= k < size :: painted[k] == (was[k] || maps[i].addr <= lo + k < a)
        {
          painted[a - lo] := true;
          a := a + 1;
        }
      }
      forall a: u64 | a < lo + size
        ensures Decided(maps, i + 1, a) == (Decided(maps, i, a) || (maps[i].data && maps[i].addr <= a < end)) {
        DecidedStep(maps, i, a, end);
      }
      i := i + 1;
    }
    forall a: u64 ensures Decided(maps, |maps|, a) == InData(maps, a) { DecidedAll(maps, a); }
  }

  lemma UndecidedAtFirst(maps: seq<MapSym>, a: u64)
    requires Sorted(maps)
    ensures !Decided(maps, 0, a)
  {
    if |maps| == 0 || a < maps[0].addr { NoneBefore(maps, a); }
  }

  lemma DecidedAll(maps: seq<MapSym>, a: u64)
    ensures Decided(maps, |maps|, a) == InData(maps, a)
  {
  }

  /** The data map does not depend on how the symbols were sorted, as long as no two share an
      address: it asks for the nearest symbol at or before. */
  lemma {:induction false} NearestDecides(maps: seq<MapSym>, a: u64, m: MapSym)
    requires Sorted(maps) && m in maps && m.addr <= a
    requires forall o <- maps :: o.addr <= a && o != m ==> o.addr < m.addr
    ensures LastBefore(maps, a) == Some(m.data)
  {
    var n := |maps| - 1;
    assert maps[n] in maps;
    var i :| 0 <= i < |maps| && maps[i] == m;
    assert maps[i].addr <= maps[n].addr;
    if maps[n].addr > a {
      assert m == maps[..n][i];
      NearestDecides(maps[..n], a, m);
    }
  }

  // ---------------------------------------------------------------- the whole map

  lemma EmptySorted()
    ensures Sorted([])
  {
  }

  lemma Inserted(maps: seq<MapSym>, p: nat, m: MapSym)
    requires p <= |maps| && Sorted(maps) && (forall j | 0 <= j < p :: maps[j].addr < m.addr)
    requires p < |maps| ==> maps[p].addr >= m.addr
    ensures Sorted(maps[..p] + [m] + maps[p..])
    ensures multiset(maps[..p] + [m] + maps[p..]) == multiset(maps) + multiset{m}
  {
    assert maps == maps[..p] + maps[p..];
  }

  /** Sorting by address; the order of symbols that share one is left open. */
  method Sort(maps: seq<MapSym>) returns (sorted: seq<MapSym>)
    ensures Sorted(sorted) && multiset(sorted) == multiset(maps)
  {
    hide Sorted;
    sorted := [];
    assert Sorted(sorted) by { EmptySorted(); }
    for i := 0 to |maps|
      invariant Sorted(sorted) && multiset(sorted) == multiset(maps[..i])
    {
      var p := 0;
      while p < |sorted| && sorted[p].addr < maps[i].addr
        invariant p <= |sorted| && forall j | 0 <= j < p :: sorted[j].addr < maps[i].addr
      {
        p := p + 1;
      }
      Inserted(sorted, p, maps[i]);
      assert maps[..i + 1] == maps[..i] + [maps[i]];
      sorted := sorted[..p] + [maps[i]] + sorted[p..];
    }
    assert maps[..|maps|] == maps;
  }

  /** Among the symbols at or before the address, m is nearest. */
  ghost predicate Nearest(maps: seq<MapSym>, a: u64, m: MapSym)
  {
    m in maps && m.addr <= a && forall o <- maps | o.addr <= a :: o.addr <= m.addr
  }

  /** What the map may say of an address: a nearest symbol says so, or there is none and it is code. */
  ghost predicate Says(maps: seq<MapSym>, a: u64, data: bool)
  {
    (!data && forall o <- maps :: o.addr > a) || exists m :: Nearest(maps, a, m) && m.data == data
  }

  lemma {:induction false} SortedSays(maps: seq<MapSym>, a: u64)
    requires Sorted(maps)
    ensures Says(maps, a, InData(maps, a))
  {
    if maps != [] {
      var n := |maps| - 1;
      if maps[n].addr <= a {
        assert Nearest(maps, a, maps[n]);
      } else {
        SortedSays(maps[..n], a);
        assert maps == maps[..n] + [maps[n]];
        forall m | Nearest(maps[..n], a, m) ensures Nearest(maps, a, m) {
        }
      }
    }
  }

  lemma SameSymbolsSay(maps: seq<MapSym>, other: seq<MapSym>, a: u64, data: bool)
    requires multiset(maps) == multiset(other) && Says(maps, a, data)
    ensures Says(other, a, data)
  {
    forall m: MapSym ensures m in maps <==> m in other {
      assert m in multiset(maps) <==> m in multiset(other);
    }
    forall m | Nearest(maps, a, m) ensures Nearest(other, a, m) {
    }
  }

  lemma {:induction false} MappingsInside(syms: seq<Symbol>, lo: u64, hi: u64)
    ensures forall m <- Mappings(syms, lo, hi) :: lo <= m.addr < hi
  {
    if syms != [] { MappingsInside(syms[..|syms| - 1], lo, hi); }
  }

  // ---------------------------------------------------------------- in terms of the symbol table

  /** A symbol inside the text whose name starts with "$x" or "$d". */
  predicate Marks(s: Symbol, lo: u64, hi: u64)
  {
    ("$x" <= s.name || "$d" <= s.name) && lo <= s.value < hi
  }

  /** Among the marking symbols at or before the address, s is nearest. */
  ghost predicate NearestMark(syms: seq<Symbol>, lo: u64, hi: u64, a: u64, s: Symbol)
  {
    && s in syms && Marks(s, lo, hi) && s.value <= a
    && forall o <- syms | Marks(o, lo, hi) && o.value <= a :: o.value <= s.value
  }

  /** Data needs a nearest symbol that starts with "$d"; code one that starts with "$x", or none. */
  ghost predicate Marked(syms: seq<Symbol>, lo: u64, hi: u64, a: u64, data: bool)
  {
    if data then exists s :: NearestMark(syms, lo, hi, a, s) && "$d" <= s.name
    else (exists s :: NearestMark(syms, lo, hi, a, s) && "$x" <= s.name) || forall s <- syms | Marks(s, lo, hi) :: s.value > a
  }

  /** m comes from the symbol s. */
  predicate From(s: Symbol, lo: u64, hi: u64, m: MapSym)
  {
    Marks(s, lo, hi) && m.addr == s.value && (m.data <==> "$d" <= s.name) && (!m.data <==> "$x" <= s.name)
  }

  lemma FromMark(s: Symbol, lo: u64, hi: u64)
    ensures IsMapping(s, lo, hi) <==> Marks(s, lo, hi)
    ensures IsMapping(s, lo, hi) ==> From(s, lo, hi, MappingOf(s))
  {
    assert |s.name| >= 2 ==> s.name[..2] == [s.name[0], s.name[1]];
    assert "$x" == ['$', 'x'] && "$d" == ['$', 'd'];
    assert "$x" <= s.name <==> |s.name| >= 2 && s.name[0] == '$' && s.name[1] == 'x';
    assert "$d" <= s.name <==> |s.name| >= 2 && s.name[0] == '$' && s.name[1] == 'd';
  }

  /** Every marking symbol is collected, and nothing else. */
  lemma {:induction false} MappingsMark(syms: seq<Symbol>, lo: u64, hi: u64)
    ensures forall s <- syms | Marks(s, lo, hi) :: exists m <- Mappings(syms, lo, hi) :: From(s, lo, hi, m)
    ensures forall m <- Mappings(syms, lo, hi) :: exists s <- syms :: From(s, lo, hi, m)
  {
    hide Marks, IsMapping, MappingOf, From;
    if syms != [] {
      var n := |syms| - 1;
      var last, maps := syms[n], Mappings(syms, lo, hi);
      MappingsMark(syms[..n], lo, hi);
      FromMark(last, lo, hi);
      assert syms == syms[..n] + [last];
      forall s <- syms | Marks(s, lo, hi) ensures exists m <- maps :: From(s, lo, hi, m) {
        if s in syms[..n] {
          var m :| m in Mappings(syms[..n], lo, hi) && From(s, lo, hi, m);
          assert m in maps;
        } else {
          assert MappingOf(s) in maps;
        }
      }
    }
  }

  /** What the collected symbols say of an address, the symbols of the table say. */
  lemma TableSays(syms: seq<Symbol>, lo: u64, hi: u64, a: u64, data: bool)
    requires Says(Mappings(syms, lo, hi), a, data)
    ensures Marked(syms, lo, hi, a, data)
  {
    hide Mappings, Marks;
    var maps := Mappings(syms, lo, hi);
    MappingsMark(syms, lo, hi);
    if m :| Nearest(maps, a, m) && m.data == data {
      var s :| s in syms && From(s, lo, hi, m);
      forall o <- syms | Marks(o, lo, hi) && o.value <= a ensures o.value <= s.value {
        var m' :| m' in maps && From(o, lo, hi, m');
      }
      assert NearestMark(syms, lo, hi, a, s);
    } else {
      forall s <- syms | Marks(s, lo, hi) ensures s.value > a {
        var m' :| m' in maps && From(s, lo, hi, m');
      }
    }
  }

  /** The map of a text: none for an empty text or without marking symbols, else for every byte what a
      nearest marking symbol says. */
  method BuildTextDataMap(syms: seq<Symbol>, lo: u64, size: nat) returns (dm: DataMap)
    requires lo + size < TWO64
    ensures dm.None? <==> size == 0 || forall s <- syms :: !Marks(s, lo, lo + size)
    ensures dm.Some? ==> |dm.value| == size && forall k | 0 <= k < size :: Marked(syms, lo, lo + size, lo + k, dm.value[k])
  {
    hide Says, InData, Marks, Marked, From;
    if size == 0 {
      return None;
    }
    var found := CollectMappings(syms, lo, lo + size);
    MappingsMark(syms, lo, lo + size);
    if |found| == 0 {
      return None;
    }
    assert found[0] in found;
    MarkInside(syms, lo, lo + size);
    var maps := Sort(found);
    MappingsInside(syms, lo, lo + size);
    forall m <- maps ensures lo <= m.addr < lo + size {
      assert m in multiset(maps) && m in multiset(found);
    }
    var painted := Paint(maps, lo, size);
    forall k | 0 <= k < size ensures Marked(syms, lo, lo + size, lo + k, painted[k]) {
      SortedSays(maps, lo + k);
      SameSymbolsSay(maps, found, lo + k, painted[k]);
      TableSays(syms, lo, lo + size, lo + k, painted[k]);
    }
    dm := Some(painted[..]);
  }

  lemma MarkInside(syms: seq<Symbol>, lo: u64, hi: u64)
    ensures forall s: Symbol, m: MapSym | From(s, lo, hi, m) :: Marks(s, lo, hi)
  {
  }
}
