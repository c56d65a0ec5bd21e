/** The allocator (be_mem.c): lines of 16 and of 32 bytes from pools with a bitmap, in front of the
    system allocator, with a count of the bytes in use. */
module PoolAllocator {
  import opened Wrappers
  import opened Bits

  // A pool at its address; bits[k] is set when line k is free.
  datatype Pool = Pool(base: nat, bits: seq<bool>)

  // Bitmap and link come before the lines.
  const HEADER := 8

  // 16 or 32 bytes a line; 31 or 15 lines a pool.
  type Line = n: nat | n == 16 || n == 32 witness 16

  function Slots(line: Line): nat {
    if line == 16 then 31 else 15
  }

  function PoolSize(line: Line): nat {
    HEADER + line * Slots(line)
  }

  function LineAt(line: Line, base: nat, k: nat): nat {
    base + HEADER + line * k
  }

  // ----- address ranges -----

  predicate Apart(a: int, n: int, b: int, m: int) {
    a + n <= b || b + m <= a
  }

  // What the system allocator has handed out: address to size.
  type Regions = map<nat, nat>

  ghost predicate Separate(r: Regions) {
    forall a, b {:trigger r[a], r[b]} :: a in r && b in r && a != b ==> Apart(a, r[a], b, r[b])
  }

  predicate Fresh(r: Regions, a: nat, n: nat) {
    forall b {:trigger r[b]} :: b in r ==> Apart(a, n, b, r[b])
  }

  // The system's malloc and realloc: any functions that give out memory nobody else has. The second
  // argument of realloc is the block being resized, which is not among the regions any more.
  datatype System = System(malloc: (Regions, nat) -> Option<nat>, realloc: (Regions, nat, nat) -> Option<nat>)

  ghost predicate Sound(s: System) {
    && (forall r: Regions, n: nat :: s.malloc(r, n).Some? ==> Fresh(r, s.malloc(r, n).value, n) && s.malloc(r, n).value !in r)
    && (forall r: Regions, p: nat, n: nat :: s.realloc(r, p, n).Some? ==>
          Fresh(r, s.realloc(r, p, n).value, n) && s.realloc(r, p, n).value !in r)
  }

  // ----- pools as values -----

  // The addresses of the lines in use.
  ghost function LinesOf(line: Line, p: Pool): set<nat> {
    set k: nat | k < |p.bits| && !p.bits[k] :: LineAt(line, p.base, k)
  }

  ghost function Used(line: Line, pools: seq<Pool>): set<nat> {
    if pools == [] then {} else LinesOf(line, pools[0]) + Used(line, pools[1..])
  }

  ghost function Bases(pools: seq<Pool>): set<nat> {
    if pools == [] then {} else {pools[0].base} + Bases(pools[1..])
  }

  // Every pool is a region of its own.
  ghost predicate Housed(line: Line, pools: seq<Pool>, r: Regions) {
    pools == [] || (pools[0].base in r && r[pools[0].base] == PoolSize(line) && |pools[0].bits| == Slots(line)
                    && pools[0].base !in Bases(pools[1..]) && Housed(line, pools[1..], r))
  }

  lemma LineInPool(line: Line, p: Pool, k: nat)
    requires k < Slots(line)
    ensures p.base + HEADER <= LineAt(line, p.base, k) && LineAt(line, p.base, k) + line <= p.base + PoolSize(line)
  {}

  lemma LinesApart(line: Line, base: nat, j: nat, k: nat)
    requires j != k
    ensures Apart(LineAt(line, base, j), line, LineAt(line, base, k), line)
    ensures LineAt(line, base, j) != LineAt(line, base, k)
  {}

  // A used line lies inside some pool.
  lemma {:induction false} UsedIn(line: Line, pools: seq<Pool>, r: Regions, a: nat) returns (i: nat, k: nat)
    requires Housed(line, pools, r) && a in Used(line, pools)
    ensures i < |pools| && k < |pools[i].bits| == Slots(line) && !pools[i].bits[k]
    ensures a == LineAt(line, pools[i].base, k)
    ensures pools[i].base in r && r[pools[i].base] == PoolSize(line)
    decreases |pools|
  {
    if a in LinesOf(line, pools[0]) {
      i := 0;
      k :| k < |pools[0].bits| && !pools[0].bits[k] && LineAt(line, pools[0].base, k) == a;
    } else {
      i, k := UsedIn(line, pools[1..], r, a);
      i := i + 1;
    }
  }

  lemma {:induction false} PoolHoused(line: Line, pools: seq<Pool>, r: Regions, i: nat)
    requires Housed(line, pools, r) && i < |pools|
    ensures pools[i].base in r && r[pools[i].base] == PoolSize(line) && |pools[i].bits| == Slots(line)
    ensures pools[i].base in Bases(pools)
    decreases i
  {
    if i > 0 {
      PoolHoused(line, pools[1..], r, i - 1);
    }
  }

  lemma {:induction false} BasesIn(line: Line, pools: seq<Pool>, r: Regions, a: nat)
    requires Housed(line, pools, r) && a in Bases(pools)
    ensures a in r && r[a] == PoolSize(line)
    decreases |pools|
  {
    if a != pools[0].base {
      BasesIn(line, pools[1..], r, a);
    }
  }

  // A line of pool i, in use or not, is not a used line of another pool.
  lemma {:induction false} LineElsewhere(line: Line, pools: seq<Pool>, r: Regions, base: nat, k: nat)
    requires Housed(line, pools, r) && Separate(r) && base in r && r[base] == PoolSize(line) && base !in Bases(pools)
    requires k < Slots(line)
    ensures LineAt(line, base, k) !in Used(line, pools)
    decreases |pools|
  {
    if pools != [] {
      LineElsewhere(line, pools[1..], r, base, k);
      var p := pools[0];
      assert Apart(base, r[base], p.base, r[p.base]);
      forall j: nat | j < |p.bits| ensures LineAt(line, base, k) != LineAt(line, p.base, j) {
        LineInPool(line, Pool(base, []), k);
        LineInPool(line, p, j);
      }
    }
  }

  function WithBit(pools: seq<Pool>, i: nat, k: nat, free: bool): seq<Pool>
    requires i < |pools| && k < |pools[i].bits|
  {
    pools[i := pools[i].(bits := pools[i].bits[k := free])]
  }

  lemma LinesOfBit(line: Line, p: Pool, k: nat, free: bool)
    requires k < |p.bits|
    ensures var p' := p.(bits := p.bits[k := free]); var a := LineAt(line, p.base, k);
            LinesOf(line, p') == if free then LinesOf(line, p) - {a} else LinesOf(line, p) + {a}
    ensures LineAt(line, p.base, k) in LinesOf(line, p) <==> !p.bits[k]
  {
    var p' := p.(bits := p.bits[k := free]);
    var a := LineAt(line, p.base, k);
    forall j: nat | j < |p.bits| && j != k ensures LineAt(line, p.base, j) != a && p'.bits[j] == p.bits[j] {
      LinesApart(line, p.base, j, k);
    }
    forall x ensures x in LinesOf(line, p') <==> if free then x in LinesOf(line, p) && x != a else x in LinesOf(line, p) || x == a {
      if x in LinesOf(line, p) && x != a {
        var j: nat :| j < |p.bits| && !p.bits[j] && LineAt(line, p.base, j) == x;
        assert !p'.bits[j] && LineAt(line, p'.base, j) == x;
      }
      if x in LinesOf(line, p') && x != a {
        var j: nat :| j < |p'.bits| && !p'.bits[j] && LineAt(line, p'.base, j) == x;
        assert !p.bits[j] && LineAt(line, p.base, j) == x;
      }
      if x == a && !free {
        assert !p'.bits[k];
      }
    }
  }

  // Setting or clearing one bit adds or removes exactly that line.
  lemma {:induction false} BitSet(line: Line, pools: seq<Pool>, r: Regions, i: nat, k: nat, free: bool)
    requires Housed(line, pools, r) && Separate(r) && i < |pools| && k < |pools[i].bits|
    ensures var pools' := WithBit(pools, i, k, free); var a := LineAt(line, pools[i].base, k);
            Housed(line, pools', r) && Bases(pools') == Bases(pools)
            && Used(line, pools') == (if free then Used(line, pools) - {a} else Used(line, pools) + {a})
    ensures LineAt(line, pools[i].base, k) in Used(line, pools) <==> !pools[i].bits[k]
    decreases i
  {
    var pools', a := WithBit(pools, i, k, free), LineAt(line, pools[i].base, k);
    if i == 0 {
      LinesOfBit(line, pools[0], k, free);
      LineElsewhere(line, pools[1..], r, pools[0].base, k);
      assert pools'[1..] == pools[1..];
    } else {
      BitSet(line, pools[1..], r, i - 1, k, free);
      assert pools'[1..] == WithBit(pools[1..], i - 1, k, free) && pools'[0] == pools[0];
      PoolHoused(line, pools, r, i);
      PoolHoused(line, pools[1..], r, i - 1);
      LineElsewhere(line, [pools[0]], r, pools[i].base, k);
      assert Used(line, [pools[0]]) == LinesOf(line, pools[0]) + Used(line, []);
    }
  }

  // ----- live blocks -----

  // 16: from a pool of 16 byte lines; 32: from one of 32 byte lines; 0: from the system.
  function Class(n: nat): nat {
    if n <= 16 then 16 else if n <= 32 then 32 else 0
  }

  // The live blocks of a class. Live maps the address of each block to the size it was asked for.
  ghost function OfClass(live: map<nat, nat>, c: nat): set<nat> {
    set a | a in live && Class(live[a]) == c
  }

  ghost function SmallBlocks(live: map<nat, nat>): set<nat> {
    set a | a in live && live[a] <= 32
  }

  // Each live block is one used line or one region, and nothing else is used.
  ghost predicate Accounts(live: map<nat, nat>, p16: seq<Pool>, p32: seq<Pool>, r: Regions) {
    && (forall a :: a in live ==> live[a] > 0)
    && OfClass(live, 16) == Used(16, p16) && OfClass(live, 32) == Used(32, p32)
    && OfClass(live, 0) == r.Keys - Bases(p16) - Bases(p32)
    && (forall a {:trigger live[a]} :: a in OfClass(live, 0) ==> r[a] == live[a])
  }

  // The region a live block lies in.
  lemma BlockRegion(live: map<nat, nat>, p16: seq<Pool>, p32: seq<Pool>, r: Regions, a: nat) returns (b: nat)
    requires Housed(16, p16, r) && Housed(32, p32, r) && Accounts(live, p16, p32, r) && a in live
    ensures b in r && b <= a && a + live[a] <= b + r[b]
    ensures match Class(live[a])
            case 16 => r[b] == PoolSize(16) && exists k: nat :: k < 31 && a == LineAt(16, b, k)
            case 32 => r[b] == PoolSize(32) && exists k: nat :: k < 15 && a == LineAt(32, b, k)
            case _ => a == b && b !in Bases(p16) && b !in Bases(p32)
  {
    if Class(live[a]) == 16 {
      assert a in OfClass(live, 16);
      var i, k := UsedIn(16, p16, r, a);
      b := p16[i].base;
      LineInPool(16, p16[i], k);
    } else if Class(live[a]) == 32 {
      assert a in OfClass(live, 32);
      var i, k := UsedIn(32, p32, r, a);
      b := p32[i].base;
      LineInPool(32, p32[i], k);
    } else {
      assert a in OfClass(live, 0);
      b := a;
    }
  }

  // No two live blocks overlap.
  lemma LiveApart(live: map<nat, nat>, p16: seq<Pool>, p32: seq<Pool>, r: Regions, a: nat, b: nat)
    requires Separate(r) && Housed(16, p16, r) && Housed(32, p32, r) && Accounts(live, p16, p32, r)
    requires a in live && b in live && a != b
    ensures Apart(a, live[a], b, live[b])
  {
    var x := BlockRegion(live, p16, p32, r, a);
    var y := BlockRegion(live, p16, p32, r, b);
    if x != y {
      assert Apart(x, r[x], y, r[y]);
    } else if Class(live[a]) != 0 && Class(live[b]) != 0 {
      var line: Line := Class(live[a]);
      var j: nat :| j < Slots(line) && a == LineAt(line, x, j);
      var k: nat :| k < Slots(line) && b == LineAt(line, x, k);
      LinesApart(line, x, j, k);
    } else {
      RegionOfOne(live, p16, p32, r, a, b, x);
    }
  }

  lemma InsideIsSame(r: Regions, a: nat, x: nat)
    requires Separate(r) && a in r && x in r && r[a] > 0 && x <= a && a + r[a] <= x + r[x]
    ensures a == x
  {}

  // A block with a region to itself shares it with no line.
  lemma RegionOfOne(live: map<nat, nat>, p16: seq<Pool>, p32: seq<Pool>, r: Regions, a: nat, b: nat, x: nat)
    requires Separate(r) && Housed(16, p16, r) && Housed(32, p32, r) && Accounts(live, p16, p32, r)
    requires a in live && b in live && a != b && (Class(live[a]) == 0 || Class(live[b]) == 0)
    requires x in r && x <= a && a + live[a] <= x + r[x] && x <= b && b + live[b] <= x + r[x]
    ensures Apart(a, live[a], b, live[b])
  {
    var big, small := if Class(live[a]) == 0 then a else b, if Class(live[a]) == 0 then b else a;
    assert big in OfClass(live, 0) && r[big] == live[big];
    InsideIsSame(r, big, x);
    if Class(live[small]) == 0 {
      assert small in OfClass(live, 0) && r[small] == live[small];
      assert Apart(big, r[big], small, r[small]);
    } else {
      LineNotInBlock(live, p16, p32, r, small, big);
    }
  }

  lemma LineNotInBlock(live: map<nat, nat>, p16: seq<Pool>, p32: seq<Pool>, r: Regions, a: nat, big: nat)
    requires Separate(r) && Housed(16, p16, r) && Housed(32, p32, r) && Accounts(live, p16, p32, r)
    requires a in live && big in OfClass(live, 0) && Class(live[a]) != 0
    ensures Apart(a, live[a], big, live[big])
  {
    assert r[big] == live[big];
    if Class(live[a]) == 16 {
      assert a in OfClass(live, 16);
      var i, k := UsedIn(16, p16, r, a);
      PoolHoused(16, p16, r, i);
      LineInPool(16, p16[i], k);
      assert Apart(p16[i].base, r[p16[i].base], big, r[big]);
    } else {
      assert a in OfClass(live, 32);
      var i, k := UsedIn(32, p32, r, a);
      PoolHoused(32, p32, r, i);
      LineInPool(32, p32[i], k);
      assert Apart(p32[i].base, r[p32[i].base], big, r[big]);
    }
  }

  // ----- the sum of the sizes -----

  ghost function Sum(m: map<nat, nat>): nat
    decreases |m|
  {
    if m == map[] then 0
    else
      var k :| k in m;
      assert |m - {k}| < |m| by { assert m == (m - {k})[k := m[k]]; }
      m[k] + Sum(m - {k})
  }

  lemma {:induction false} SumWithout(m: map<nat, nat>, a: nat)
    requires a in m
    ensures Sum(m) == m[a] + Sum(m - {a})
    decreases |m|
  {
    var k :| k in m && Sum(m) == m[k] + Sum(m - {k});
    if k != a {
      assert |m - {k}| < |m| by { assert m == (m - {k})[k := m[k]]; }
      SumWithout(m - {k}, a);
      SumWithout(m - {a}, k);
      assert m - {k} - {a} == m - {a} - {k};
    }
  }

  lemma SumWith(m: map<nat, nat>, a: nat, n: nat)
    requires a !in m
    ensures Sum(m[a := n]) == Sum(m) + n
  {
    SumWithout(m[a := n], a);
    assert m[a := n] - {a} == m;
  }

  // ----- transitions of the bookkeeping -----

  ghost predicate Laid(p16: seq<Pool>, p32: seq<Pool>, r: Regions) {
    Separate(r) && Housed(16, p16, r) && Housed(32, p32, r)
  }

  function Chosen(line: Line, p16: seq<Pool>, p32: seq<Pool>): seq<Pool> {
    if line == 16 then p16 else p32
  }

  // A live block at the address of a line is that line, in use.
  lemma LineOwned(live: map<nat, nat>, p16: seq<Pool>, p32: seq<Pool>, r: Regions, line: Line, base: nat, k: nat)
    requires Laid(p16, p32, r) && Accounts(live, p16, p32, r) && base in Bases(Chosen(line, p16, p32))
    requires k < Slots(line)
    requires LineAt(line, base, k) in live
    ensures LineAt(line, base, k) in Used(line, Chosen(line, p16, p32))
  {
    var a := LineAt(line, base, k);
    BasesIn(line, Chosen(line, p16, p32), r, base);
    LineInPool(line, Pool(base, []), k);
    var b := BlockRegion(live, p16, p32, r, a);
    assert a in OfClass(live, line);
  }

  // Memory that nobody else has holds no live block.
  lemma NothingInside(live: map<nat, nat>, p16: seq<Pool>, p32: seq<Pool>, r: Regions, base: nat, n: nat, a: nat)
    requires Laid(p16, p32, r) && Accounts(live, p16, p32, r) && Fresh(r, base, n) && base <= a < base + n
    ensures a !in live
  {
    if a in live {
      var b := BlockRegion(live, p16, p32, r, a);
    }
  }

  lemma LineTaken(live: map<nat, nat>, p16: seq<Pool>, p32: seq<Pool>, r: Regions, line: Line, i: nat, k: nat, n: nat)
    requires Laid(p16, p32, r) && Accounts(live, p16, p32, r) && Class(n) == line && n > 0
    requires var pools := Chosen(line, p16, p32); i < |pools| && k < |pools[i].bits| && pools[i].bits[k]
    ensures var pools := Chosen(line, p16, p32); var pools', a := WithBit(pools, i, k, false), LineAt(line, pools[i].base, k);
            a !in live && var q16, q32 := if line == 16 then pools' else p16, if line == 32 then pools' else p32;
            Laid(q16, q32, r) && Accounts(live[a := n], q16, q32, r)
  {
    hide Separate, LinesOf, LineAt;
    var pools := Chosen(line, p16, p32);
    var pools', a := WithBit(pools, i, k, false), LineAt(line, pools[i].base, k);
    BitSet(line, pools, r, i, k, false);
    PoolHoused(line, pools, r, i);
    if a in live {
      LineOwned(live, p16, p32, r, line, pools[i].base, k);
    }
    OfClassAdd(live, a, n);
  }

  lemma OfClassAdd(live: map<nat, nat>, a: nat, n: nat)
    requires a !in live
    ensures forall c :: OfClass(live[a := n], c) == OfClass(live, c) + if Class(n) == c then {a} else {}
  {}

  lemma OfClassDrop(live: map<nat, nat>, a: nat)
    requires a in live
    ensures forall c :: OfClass(live - {a}, c) == OfClass(live, c) - {a}
    ensures forall c :: a in OfClass(live, c) <==> c == Class(live[a])
  {}

  lemma LineReturned(live: map<nat, nat>, p16: seq<Pool>, p32: seq<Pool>, r: Regions, line: Line, i: nat, k: nat)
    requires Laid(p16, p32, r) && Accounts(live, p16, p32, r)
    requires i < |Chosen(line, p16, p32)| && k < |Chosen(line, p16, p32)[i].bits|
    requires var a := LineAt(line, Chosen(line, p16, p32)[i].base, k); a in live && Class(live[a]) == line
    ensures var pools := Chosen(line, p16, p32); var pools', a := WithBit(pools, i, k, true), LineAt(line, pools[i].base, k);
            var q16, q32 := if line == 16 then pools' else p16, if line == 32 then pools' else p32;
            Laid(q16, q32, r) && Accounts(live - {a}, q16, q32, r)
  {
    var pools := Chosen(line, p16, p32);
    var a := LineAt(line, pools[i].base, k);
    BitSet(line, pools, r, i, k, true);
    OfClassDrop(live, a);
  }

  function NewPool(line: Line, base: nat): Pool {
    Pool(base, [false] + seq(Slots(line) - 1, i => true))
  }

  lemma NewPoolLines(line: Line, base: nat)
    ensures LinesOf(line, NewPool(line, base)) == {LineAt(line, base, 0)} && |NewPool(line, base).bits| == Slots(line)
  {
    assert NewPool(line, base).bits[0] == false;
    forall k: nat | 0 < k < Slots(line) ensures NewPool(line, base).bits[k] {}
  }

  lemma {:induction false} HousedMore(line: Line, pools: seq<Pool>, r: Regions, a: nat, n: nat)
    requires Housed(line, pools, r) && a !in r
    ensures Housed(line, pools, r[a := n]) && a !in Bases(pools)
    decreases |pools|
  {
    if pools != [] {
      HousedMore(line, pools[1..], r, a, n);
    }
  }

  lemma SeparateMore(r: Regions, a: nat, n: nat)
    requires Separate(r) && a !in r && Fresh(r, a, n)
    ensures Separate(r[a := n])
  {}

  lemma PoolLaid(p16: seq<Pool>, p32: seq<Pool>, r: Regions, line: Line, base: nat)
    requires Laid(p16, p32, r) && base !in r && Fresh(r, base, PoolSize(line))
    ensures var pools', r' := [NewPool(line, base)] + Chosen(line, p16, p32), r[base := PoolSize(line)];
            Laid(if line == 16 then pools' else p16, if line == 32 then pools' else p32, r')
  {
    var pools := Chosen(line, p16, p32);
    SeparateMore(r, base, PoolSize(line));
    hide Separate, Fresh;
    HousedMore(16, p16, r, base, PoolSize(line));
    HousedMore(32, p32, r, base, PoolSize(line));
    NewPoolLines(line, base);
    hide LinesOf;
    assert ([NewPool(line, base)] + pools)[1..] == pools;
  }

  lemma PoolAdded(live: map<nat, nat>, p16: seq<Pool>, p32: seq<Pool>, r: Regions, line: Line, base: nat, n: nat)
    requires Laid(p16, p32, r) && Accounts(live, p16, p32, r) && Class(n) == line && n > 0
    requires base !in r && Fresh(r, base, PoolSize(line))
    ensures var pools', a, r' := [NewPool(line, base)] + Chosen(line, p16, p32), LineAt(line, base, 0), r[base := PoolSize(line)];
            a !in live && var q16, q32 := if line == 16 then pools' else p16, if line == 32 then pools' else p32;
            Laid(q16, q32, r') && Accounts(live[a := n], q16, q32, r')
  {
    var pools, a, r' := Chosen(line, p16, p32), LineAt(line, base, 0), r[base := PoolSize(line)];
    NothingInside(live, p16, p32, r, base, PoolSize(line), a);
    PoolLaid(p16, p32, r, line, base);
    hide Laid, Fresh;
    NewPoolLines(line, base);
    assert ([NewPool(line, base)] + pools)[1..] == pools;
    OfClassAdd(live, a, n);
    hide LinesOf, OfClass;
    assert base !in OfClass(live, 0);
  }

  lemma RegionAdded(live: map<nat, nat>, p16: seq<Pool>, p32: seq<Pool>, r: Regions, a: nat, n: nat)
    requires Laid(p16, p32, r) && Accounts(live, p16, p32, r) && Class(n) == 0
    requires a !in r && Fresh(r, a, n)
    ensures a !in live && Laid(p16, p32, r[a := n]) && Accounts(live[a := n], p16, p32, r[a := n])
  {
    HousedMore(16, p16, r, a, n);
    HousedMore(32, p32, r, a, n);
    NothingInside(live, p16, p32, r, a, n, a);
    OfClassAdd(live, a, n);
  }

  lemma {:induction false} HousedLess(line: Line, pools: seq<Pool>, r: Regions, a: nat)
    requires Housed(line, pools, r) && a !in Bases(pools)
    ensures Housed(line, pools, r - {a})
    decreases |pools|
  {
    if pools != [] {
      HousedLess(line, pools[1..], r, a);
    }
  }

  lemma RegionReturned(live: map<nat, nat>, p16: seq<Pool>, p32: seq<Pool>, r: Regions, a: nat)
    requires Laid(p16, p32, r) && Accounts(live, p16, p32, r) && a in live && Class(live[a]) == 0
    ensures a in r && Laid(p16, p32, r - {a}) && Accounts(live - {a}, p16, p32, r - {a})
  {
    OfClassDrop(live, a);
    HousedLess(16, p16, r, a);
    HousedLess(32, p32, r, a);
  }

  // ----- searching the pools -----

  // The first free line of a pool (the lowest bit that is set).
  function FirstFree(bits: seq<bool>): Option<nat> {
    if bits == [] then None
    else if bits[0] then Some(0)
    else
      var k := FirstFree(bits[1..]);
      if k.Some? then Some(k.value + 1) else None
  }

  lemma {:induction false} FirstFreeIs(bits: seq<bool>)
    ensures var k := FirstFree(bits);
            if k.Some? then k.value < |bits| && bits[k.value] && forall j :: 0 <= j < k.value ==> !bits[j]
            else forall j :: 0 <= j < |bits| ==> !bits[j]
  {
    if bits != [] {
      FirstFreeIs(bits[1..]);
      forall j | 0 < j < |bits| ensures bits[j] == bits[1..][j - 1] {}
    }
  }

  // No line of these pools is free.
  ghost predicate Full(pools: seq<Pool>) {
    forall i, k :: 0 <= i < |pools| && 0 <= k < |pools[i].bits| ==> !pools[i].bits[k]
  }

  // Line k of pool i is free, and no earlier one is.
  ghost predicate FirstLine(pools: seq<Pool>, i: nat, k: nat) {
    && i < |pools| && k < |pools[i].bits| && pools[i].bits[k]
    && (forall l :: 0 <= l < k ==> !pools[i].bits[l])
    && (forall j, l :: 0 <= j < i && 0 <= l < |pools[j].bits| ==> !pools[j].bits[l])
  }

  // The first loop of malloc_from_pool for a line size.
  method TakeLine(pools: seq<Pool>) returns (at: Option<(nat, nat)>)
    ensures at.Some? ==> FirstLine(pools, at.value.0, at.value.1)
    ensures at == None ==> Full(pools)
  {
    for i := 0 to |pools|
      invariant forall j, l :: 0 <= j < i && 0 <= l < |pools[j].bits| ==> !pools[j].bits[l]
    {
      var k := FirstFree(pools[i].bits);
      FirstFreeIs(pools[i].bits);
      if k.Some? {
        return Some((i, k.value));
      }
    }
    return None;
  }

  // The check free_from_pool makes on the distance to a pool's first line. It allows 496 bytes for
  // either kind of pool.
  predicate Offset(line: Line, p: Pool, ptr: nat) {
    var offset := ptr - (p.base + HEADER);
    0 <= offset < 31 * 16 && offset % line == 0
  }

  // Only the pool that owns the line passes it.
  lemma OffsetFinds(line: Line, pools: seq<Pool>, r: Regions, i: nat, k: nat, j: nat)
    requires Separate(r) && Housed(line, pools, r) && i < |pools| && k < Slots(line) && j < |pools|
    ensures Offset(line, pools[j], LineAt(line, pools[i].base, k)) <==> pools[j].base == pools[i].base
    ensures var offset := LineAt(line, pools[i].base, k) - (pools[i].base + HEADER); offset / line == k && offset % line == 0
  {
    PoolHoused(line, pools, r, i);
    PoolHoused(line, pools, r, j);
    var a: nat, b: nat := pools[i].base, pools[j].base;
    assert a != b ==> Apart(a, r[a], b, r[b]);
    if line == 16 {
      assert LineAt(16, a, k) - (a + HEADER) == 16 * k;
    } else {
      assert LineAt(32, a, k) - (a + HEADER) == 32 * k;
    }
  }

  lemma {:induction false} BasesDiffer(line: Line, pools: seq<Pool>, r: Regions, i: nat, j: nat)
    requires Housed(line, pools, r) && i < j < |pools|
    ensures pools[i].base != pools[j].base
    decreases i
  {
    PoolHoused(line, pools[1..], r, j - 1);
    if i > 0 {
      BasesDiffer(line, pools[1..], r, i - 1, j - 1);
    }
  }

  // The loop of free_from_pool for a line size: it stops at the owner, at the bit of the line.
  method FindLine(line: Line, pools: seq<Pool>, ghost r: Regions, ptr: nat) returns (i: nat, k: nat)
    requires Separate(r) && Housed(line, pools, r) && ptr in Used(line, pools)
    ensures i < |pools| && k < |pools[i].bits| && !pools[i].bits[k] && ptr == LineAt(line, pools[i].base, k)
  {
    ghost var i0, k0 := UsedIn(line, pools, r, ptr);
    i := 0;
    OffsetFinds(line, pools, r, i0, k0, 0);
    while !Offset(line, pools[i], ptr)
      invariant i <= i0 && (Offset(line, pools[i], ptr) <==> pools[i].base == pools[i0].base)
      decreases |pools| - i
    {
      i := i + 1;
      OffsetFinds(line, pools, r, i0, k0, i);
    }
    if i < i0 {
      BasesDiffer(line, pools, r, i, i0);
    }
    k := (ptr - (pools[i].base + HEADER)) / line;
  }

  // ----- pools without a line in use -----

  // bitmap == FULL
  predicate AllFree(bits: seq<bool>) {
    forall k :: 0 <= k < |bits| ==> bits[k]
  }

  function Without(pools: seq<Pool>, i: nat): seq<Pool>
    requires i < |pools|
  {
    pools[..i] + pools[i + 1..]
  }

  // The pools with a line in use, in order.
  function InUse(pools: seq<Pool>): seq<Pool> {
    if pools == [] then [] else (if AllFree(pools[0].bits) then [] else [pools[0]]) + InUse(pools[1..])
  }

  // They are the pools with a bit that is not set.
  lemma {:induction false} InUseIff(pools: seq<Pool>, p: Pool)
    ensures p in InUse(pools) <==> p in pools && false in p.bits
    decreases pools
  {
    if pools != [] {
      InUseIff(pools[1..], p);
      assert AllFree(p.bits) <==> false !in p.bits;
    }
  }

  lemma WithoutTail(pools: seq<Pool>, i: nat)
    requires 0 < i < |pools|
    ensures Without(pools, i) != [] && Without(pools, i)[0] == pools[0]
    ensures Without(pools, i)[1..] == Without(pools[1..], i - 1)
  {}

  lemma {:induction false} DropPool(line: Line, pools: seq<Pool>, r: Regions, i: nat)
    requires Housed(line, pools, r) && i < |pools| && AllFree(pools[i].bits)
    ensures var a := pools[i].base;
            a in r && Housed(line, Without(pools, i), r - {a}) && Used(line, Without(pools, i)) == Used(line, pools)
            && Bases(Without(pools, i)) == Bases(pools) - {a} && a in Bases(pools)
    decreases i
  {
    var a := pools[i].base;
    if i == 0 {
      assert Without(pools, 0) == pools[1..];
      HousedLess(line, pools[1..], r, a);
      assert LinesOf(line, pools[0]) == {};
    } else {
      hide LinesOf, AllFree, Without;
      DropPool(line, pools[1..], r, i - 1);
      WithoutTail(pools, i);
    }
  }

  lemma PoolDropped(live: map<nat, nat>, p16: seq<Pool>, p32: seq<Pool>, r: Regions, line: Line, i: nat)
    requires Laid(p16, p32, r) && Accounts(live, p16, p32, r)
    requires i < |Chosen(line, p16, p32)| && AllFree(Chosen(line, p16, p32)[i].bits)
    ensures var pools := Chosen(line, p16, p32); var pools', r' := Without(pools, i), r - {pools[i].base};
            var q16, q32 := if line == 16 then pools' else p16, if line == 32 then pools' else p32;
            Laid(q16, q32, r') && Accounts(live, q16, q32, r')
  {
    var pools := Chosen(line, p16, p32);
    var a := pools[i].base;
    DropPool(line, pools, r, i);
    PoolHoused(line, pools, r, i);
    var other: Line := if line == 16 then 32 else 16;
    if a in Bases(Chosen(other, p16, p32)) {
      BasesIn(other, Chosen(other, p16, p32), r, a);
    }
    HousedLess(other, Chosen(other, p16, p32), r, a);
  }

  lemma {:induction false} InUseStep(pools: seq<Pool>, i: nat)
    requires i < |pools|
    ensures AllFree(pools[i].bits) ==>
              Without(pools, i)[..i] == pools[..i] && InUse(pools[i..]) == InUse(Without(pools, i)[i..])
    ensures !AllFree(pools[i].bits) ==> pools[..i] + InUse(pools[i..]) == pools[..i + 1] + InUse(pools[i + 1..])
  {
    assert pools[i..][0] == pools[i] && pools[i..][1..] == pools[i + 1..];
    if AllFree(pools[i].bits) {
      assert Without(pools, i)[i..] == pools[i + 1..];
    } else {
      assert pools[..i + 1] == pools[..i] + [pools[i]];
    }
  }

  // ----- counting lines -----

  // The lines a pool has in use (the clear bits).
  function CountUsed(bits: seq<bool>): nat {
    if bits == [] then 0 else CountUsed(bits[..|bits| - 1]) + if bits[|bits| - 1] then 0 else 1
  }

  function SlotsUsed(pools: seq<Pool>): nat {
    if pools == [] then 0 else CountUsed(pools[0].bits) + SlotsUsed(pools[1..])
  }

  // The last line of a pool counts when it is in use.
  lemma LastLine(line: Line, p: Pool)
    requires p.bits != []
    ensures var n := |p.bits| - 1; var q, a := p.(bits := p.bits[..n]), LineAt(line, p.base, n);
            a !in LinesOf(line, q) && LinesOf(line, p) == LinesOf(line, q) + if p.bits[n] then {} else {a}
  {
    var n := |p.bits| - 1;
    var q, a := p.(bits := p.bits[..n]), LineAt(line, p.base, n);
    forall j: nat | j < n ensures LineAt(line, p.base, j) != a && q.bits[j] == p.bits[j] {
      LinesApart(line, p.base, j, n);
    }
    hide LineAt;
    forall x ensures x in LinesOf(line, p) <==> x in LinesOf(line, q) || (x == a && !p.bits[n]) {
      if x in LinesOf(line, q) {
        var j: nat :| j < n && !q.bits[j] && LineAt(line, p.base, j) == x;
        assert !p.bits[j];
      }
      if x in LinesOf(line, p) && x != a {
        var j: nat :| j < |p.bits| && !p.bits[j] && LineAt(line, p.base, j) == x;
        assert !q.bits[j] && LineAt(line, q.base, j) == x;
      }
    }
  }

  lemma {:induction false} LinesCount(line: Line, p: Pool)
    ensures |LinesOf(line, p)| == CountUsed(p.bits)
    decreases |p.bits|
  {
    if p.bits == [] {
      assert LinesOf(line, p) == {};
    } else {
      LinesCount(line, p.(bits := p.bits[..|p.bits| - 1]));
      LastLine(line, p);
      hide LinesOf, LineAt;
    }
  }

  // Every used line is a line of its own.
  lemma {:induction false} UsedCount(line: Line, pools: seq<Pool>, r: Regions)
    requires Separate(r) && Housed(line, pools, r)
    ensures |Used(line, pools)| == SlotsUsed(pools)
    decreases |pools|
  {
    if pools != [] {
      var p := pools[0];
      UsedCount(line, pools[1..], r);
      LinesCount(line, p);
      forall a | a in LinesOf(line, p) ensures a !in Used(line, pools[1..]) {
        var k: nat :| k < |p.bits| && !p.bits[k] && LineAt(line, p.base, k) == a;
        LineElsewhere(line, pools[1..], r, p.base, k);
      }
    }
  }

  // ----- the allocator -----

  type Memory = nat -> Byte

  // The blocks of live other than those excepted have the same contents in both memories.
  ghost predicate SameContents(live: map<nat, nat>, except: set<nat>, m: Memory, m': Memory) {
    forall a, i {:trigger m'(a + i), live[a]} :: a in live && a !in except && 0 <= i < live[a] ==> m'(a + i) == m(a + i)
  }

  // memmove(to, from, n)
  function Moved(m: Memory, to: nat, from: nat, n: nat): Memory {
    (a: nat) => if to <= a < to + n then m(from + (a - to)) else m(a)
  }

  // n bytes from `from` in the one memory are those at `to` in the other.
  ghost predicate Copied(m: Memory, from: nat, m': Memory, to: nat, n: nat) {
    forall i {:trigger m'(to + i)} :: 0 <= i < n ==> m'(to + i) == m(from + i)
  }

  function Min(a: nat, b: nat): nat {
    if a < b then a else b
  }

  datatype Result = Block(ptr: Option<nat>) | MallocFail

  class Allocator {
    const sys: System
    const start: int
    var pool16: seq<Pool>
    var pool32: seq<Pool>
    var regions: Regions
    var mem: Memory
    var usage: int
    ghost var live: map<nat, nat>

    ghost predicate Shape()
      reads this
    {
      Sound(sys) && Laid(pool16, pool32, regions) && Accounts(live, pool16, pool32, regions)
    }

    // The bytes in use are those at the start and the sizes of all live blocks.
    ghost predicate Valid()
      reads this
    {
      Shape() && usage == start + Sum(live)
    }

    constructor (sys: System, mem: Memory, start: int)
      requires Sound(sys)
      ensures Valid() && live == map[] && usage == start
    {
      this.sys, this.mem, this.start := sys, mem, start;
      pool16, pool32, regions, usage, live := [], [], map[], start, map[];
    }

    // The system has no memory for a block of this size, and no pool has a line for it.
    ghost predicate Refused(size: nat)
      reads this`pool16, this`pool32, this`regions
    {
      if size <= 16 then Full(pool16) && sys.malloc(regions, 504) == None
      else if size <= 32 then Full(pool32) && sys.malloc(regions, 488) == None
      else sys.malloc(regions, size) == None
    }

    // The same for a block that is being resized. Freeing it, or another size for the same line, needs no memory.
    ghost predicate Starved(ptr: Option<nat>, oldSize: nat, newSize: nat)
      reads this`pool16, this`pool32, this`regions
    {
      if ptr == None || oldSize == 0 then Refused(newSize)
      else if newSize == 0 || (oldSize <= 16 && newSize <= 16) || (16 < oldSize <= 32 && 16 < newSize <= 32) then false
      else if oldSize > 32 && newSize > 32 then sys.realloc(regions - {ptr.value}, ptr.value, newSize) == None
      else Refused(newSize)
    }

    lemma StarvedMeans(ptr: Option<nat>, oldSize: nat, newSize: nat)
      requires Starved(ptr, oldSize, newSize) && oldSize != newSize && (oldSize > 0 ==> ptr.Some?)
      ensures ptr.Some? ==> newSize > 0
      ensures !(0 < oldSize <= 16 && newSize <= 16) && !(16 < oldSize <= 32 && 16 < newSize <= 32)
      ensures newSize <= 16 ==> sys.malloc(regions, 504) == None
      ensures newSize <= 16 ==> forall i, k :: 0 <= i < |pool16| && 0 <= k < |pool16[i].bits| ==> !pool16[i].bits[k]
      ensures 16 < newSize <= 32 ==> sys.malloc(regions, 488) == None
      ensures 16 < newSize <= 32 ==> forall i, k :: 0 <= i < |pool32| && 0 <= k < |pool32[i].bits| ==> !pool32[i].bits[k]
      ensures newSize > 32 && oldSize <= 32 ==> sys.malloc(regions, newSize) == None
      ensures newSize > 32 && oldSize > 32 ==> sys.realloc(regions - {ptr.value}, ptr.value, newSize) == None
    {}

    // Nothing has been taken.
    twostate predicate Untouched()
      reads this`pool16, this`pool32, this`regions
    {
      pool16 == old(pool16) && pool32 == old(pool32) && regions == old(regions)
    }

    // The pool part of malloc_from_pool: the first free line, or else the first line of a new pool at the
    // head of the list.
    method MallocLine(line: Line, size: nat) returns (block: Option<nat>)
      requires Shape() && Class(size) == line && size > 0
      modifies this`pool16, this`pool32, this`regions, this`live
      ensures Shape() && (block == None ==> live == old(live) && Untouched())
      ensures block.Some? ==> block.value !in old(live) && live == old(live)[block.value := size]
      ensures var pools := old(if line == 16 then pool16 else pool32);
            var base := sys.malloc(old(regions), if line == 16 then 504 else 488);
            && (Full(pools) ==> block == if base.Some? then Some(base.value + 8) else None)
            && (!Full(pools) ==> block.Some?)
            && (forall i: nat, k: nat :: FirstLine(pools, i, k) ==>
                  block == Some(pools[i].base + 8 + line * k) && regions == old(regions))
    {
      var pools := Chosen(line, pool16, pool32);
      var at := TakeLine(pools);
      var a: nat;
      if at.Some? {
        var (i, k) := at.value;
        LineTaken(live, pool16, pool32, regions, line, i, k, size);
        a := LineAt(line, pools[i].base, k);
        pools := WithBit(pools, i, k, false);
      } else {
        assert PoolSize(line) == if line == 16 then 504 else 488;
        var base := sys.malloc(regions, PoolSize(line));
        if base == None {
          return None;
        }
        PoolAdded(live, pool16, pool32, regions, line, base.value, size);
        a := LineAt(line, base.value, 0);
        pools := [NewPool(line, base.value)] + pools;
        regions := regions[base.value := PoolSize(line)];
      }
      if line == 16 {
        pool16 := pools;
      } else {
        pool32 := pools;
      }
      live := live[a := size];
      return Some(a);
    }

    method MallocFromPool(size: nat) returns (block: Option<nat>)
      requires Shape()
      modifies this`pool16, this`pool32, this`regions, this`live
      ensures Shape() && (block == None ==> live == old(live) && Untouched())
      ensures block == None <==> size == 0 || old(Refused(size))
      ensures block.Some? ==> block.value !in old(live) && live == old(live)[block.value := size]
    {
      if size == 0 {
        return None;
      }
      if size <= 16 {
        block := MallocLine(16, size);
        return;
      }
      if size <= 32 {
        block := MallocLine(32, size);
        return;
      }
      block := sys.malloc(regions, size);
      if block.Some? {
        RegionAdded(live, pool16, pool32, regions, block.value, size);
        regions := regions[block.value := size];
        live := live[block.value := size];
      }
    }

    method FreeLine(line: Line, ptr: nat)
      requires Shape() && ptr in live && Class(live[ptr]) == line
      modifies this`pool16, this`pool32, this`live
      ensures Shape() && live == old(live) - {ptr}
    {
      assert ptr in OfClass(live, line);
      var pools := Chosen(line, pool16, pool32);
      var i, k := FindLine(line, pools, regions, ptr);
      LineReturned(live, pool16, pool32, regions, line, i, k);
      pools := WithBit(pools, i, k, true);
      if line == 16 {
        pool16 := pools;
      } else {
        pool32 := pools;
      }
      live := live - {ptr};
    }

    method FreeFromPool(ptr: nat, oldSize: nat)
      requires Shape() && ptr in live && live[ptr] == oldSize
      modifies this`pool16, this`pool32, this`regions, this`live
      ensures Shape() && live == old(live) - {ptr}
    {
      if oldSize <= 16 {
        FreeLine(16, ptr);
      } else if oldSize <= 32 {
        FreeLine(32, ptr);
      } else {
        RegionReturned(live, pool16, pool32, regions, ptr);
        regions := regions - {ptr};
        live := live - {ptr};
      }
    }
  
    // The block is resized without leaving its line.
    ghost method Relabel(ptr: nat, size: nat)
      requires Shape() && ptr in live && size > 0 && Class(live[ptr]) == Class(size) != 0
      modifies this`live
      ensures Shape() && live == (old(live) - {ptr})[ptr := size]
    {
      OfClassDrop(live, ptr);
      OfClassAdd(live - {ptr}, ptr, size);
      live := (live - {ptr})[ptr := size];
    }

    // The system's realloc moves the common prefix along.
    method SystemRealloc(ptr: nat, oldSize: nat, newSize: nat) returns (block: Option<nat>)
      requires Shape() && ptr in live && live[ptr] == oldSize && Class(oldSize) == 0 == Class(newSize)
      modifies this`regions, this`live, this`mem
      ensures Shape() && (block == None ==> live == old(live) && mem == old(mem) && regions == old(regions))
      ensures block == None <==> sys.realloc(old(regions) - {ptr}, ptr, newSize) == None
      ensures block.Some? ==> block.value !in old(live) - {ptr} && live == (old(live) - {ptr})[block.value := newSize]
      ensures block.Some? ==> mem == Moved(old(mem), block.value, ptr, Min(oldSize, newSize))
    {
      RegionReturned(live, pool16, pool32, regions, ptr);
      block := sys.realloc(regions - {ptr}, ptr, newSize);
      if block.Some? {
        RegionAdded(live - {ptr}, pool16, pool32, regions - {ptr}, block.value, newSize);
        regions := (regions - {ptr})[block.value := newSize];
        live := (live - {ptr})[block.value := newSize];
        mem := Moved(mem, block.value, ptr, Min(oldSize, newSize));
      }
    }

    // The block moves between a pool and the system, or between the pools.
    method MoveBlock(ptr: nat, oldSize: nat, newSize: nat) returns (block: Option<nat>)
      requires Shape() && ptr in live && live[ptr] == oldSize && newSize > 0
      modifies this`pool16, this`pool32, this`regions, this`live, this`mem
      ensures Shape() && (block == None ==> live == old(live) && mem == old(mem) && Untouched())
      ensures block == None <==> old(Refused(newSize))
      ensures block.Some? ==> block.value !in old(live) && live == (old(live) - {ptr})[block.value := newSize]
      ensures block.Some? ==> mem == Moved(old(mem), block.value, ptr, Min(oldSize, newSize))
    {
      hide Laid, Accounts, Sound;
      block := MallocFromPool(newSize);
      if block.Some? {
        mem := Moved(mem, block.value, ptr, Min(oldSize, newSize));
        FreeFromPool(ptr, oldSize);
        assert live == (old(live) - {ptr})[block.value := newSize];
      }
    }

    // What is left of the live blocks when ptr is being resized or freed.
    ghost function Rest(ptr: Option<nat>, oldSize: nat): map<nat, nat>
      reads this
    {
      if ptr.Some? && oldSize > 0 then live - {ptr.value} else live
    }

    // A caller states the size of the block it passes.
    ghost predicate Owned(ptr: Option<nat>, oldSize: nat)
      reads this
    {
      if oldSize == 0 then true else ptr.Some? && ptr.value in live && live[ptr.value] == oldSize
    }

    // Case 3 of be_realloc: another size.
    method Resize(ptr: nat, oldSize: nat, newSize: nat) returns (block: Option<nat>)
      requires Shape() && ptr in live && live[ptr] == oldSize > 0 && newSize > 0
      modifies this`pool16, this`pool32, this`regions, this`live, this`mem
      ensures Shape() && (block == None ==> live == old(live) && mem == old(mem) && Untouched())
      ensures block == None <==> old(Starved(Some(ptr), oldSize, newSize))
      ensures block.Some? ==> block.value !in old(live) - {ptr} && live == (old(live) - {ptr})[block.value := newSize]
      ensures block.Some? ==> SameContents(old(live) - {ptr}, {}, old(mem), mem)
      ensures block.Some? ==> Copied(old(mem), ptr, mem, block.value, Min(oldSize, newSize))
    {
      hide Laid, Accounts, Sound, SameContents;
      ghost var rest, mem0 := live - {ptr}, mem;
      if newSize <= 32 || oldSize <= 32 {
        if (newSize <= 16 && oldSize <= 16) || (newSize > 16 && oldSize > 16 && newSize <= 32 && oldSize <= 32) {
          Relabel(ptr, newSize);
          Unmoved(rest, mem);
          return Some(ptr);
        }
        block := MoveBlock(ptr, oldSize, newSize);
      } else {
        block := SystemRealloc(ptr, oldSize, newSize);
      }
      if block.Some? {
        MoveKeeps(live, pool16, pool32, regions, rest, block.value, ptr, newSize, Min(oldSize, newSize), mem0);
      }
    }

    // One round of the loop in be_realloc.
    method Attempt(ptr: Option<nat>, oldSize: nat, newSize: nat) returns (done: bool, block: Option<nat>)
      requires Shape() && Owned(ptr, oldSize) && oldSize != newSize
      modifies this`pool16, this`pool32, this`regions, this`live, this`mem
      ensures Shape() && (!done ==> live == old(live) && mem == old(mem) && Untouched())
      ensures !done <==> old(Starved(ptr, oldSize, newSize))
      ensures done && newSize == 0 ==> live == old(Rest(ptr, oldSize)) && mem == old(mem) && block == None
      ensures done && newSize > 0 ==>
                block.Some? && block.value !in old(Rest(ptr, oldSize)) && live == old(Rest(ptr, oldSize))[block.value := newSize]
      ensures done && newSize > 0 ==> SameContents(old(Rest(ptr, oldSize)), {}, old(mem), mem)
      ensures done && newSize > 0 && oldSize > 0 ==>
                Copied(old(mem), ptr.value, mem, block.value, Min(oldSize, newSize))
    {
      hide Laid, Accounts, Sound, SameContents, Copied;
      Unmoved(live, mem);
      if ptr == None || oldSize == 0 {
        block := MallocFromPool(newSize);
        done := block.Some?;
      } else if newSize == 0 {
        FreeFromPool(ptr.value, oldSize);
        done, block := true, None;
      } else {
        block := Resize(ptr.value, oldSize, newSize);
        done := block.Some?;
      }
    }

    // be_realloc with a new size of zero.
    method Free(a: nat, size: nat)
      requires Valid() && a in live && live[a] == size
      modifies this`pool16, this`pool32, this`regions, this`live, this`usage
      ensures Valid() && live == old(live) - {a}
    {
      hide Laid, Accounts, Sound;
      SumWithout(live, a);
      FreeFromPool(a, size);
      usage := usage - size;
    }

    // What a collection does here: it frees blocks, each with its size, and then the empty pools.
    method Collect(garbage: map<nat, nat>)
      requires Valid() && forall a :: a in garbage ==> a in live && live[a] == garbage[a]
      modifies this`pool16, this`pool32, this`regions, this`live, this`usage
      ensures Valid() && live == old(live) - garbage.Keys
    {
      hide Laid, Accounts, Sound;
      var rest := garbage;
      while rest != map[]
        invariant Valid() && rest.Keys <= garbage.Keys && live == old(live) - (garbage.Keys - rest.Keys)
        invariant forall a :: a in rest ==> a in live && live[a] == rest[a]
        decreases |rest.Keys|
      {
        var a :| a in rest;
        ghost var next := rest - {a};
        FreedStep(old(live), garbage.Keys, rest.Keys, a);
        Free(a, rest[a]);
        rest := rest - {a};
        assert rest.Keys == next.Keys;
      }
      MemoryPools();
    }

    // The loop of be_gc_memory_pools over the pools of one kind.
    method DropEmpty(line: Line)
      requires Valid()
      modifies this`pool16, this`pool32, this`regions
      ensures Valid() && Chosen(line, pool16, pool32) == InUse(old(Chosen(line, pool16, pool32)))
      ensures line != 16 ==> pool16 == old(pool16)
      ensures line != 32 ==> pool32 == old(pool32)
    {
      hide Laid, Accounts, Sound;
      var pools, i := Chosen(line, pool16, pool32), 0;
      ghost var p := pools;
      assert [] + InUse(p) == InUse(p) && p[..0] == [] && p[0..] == p;
      while i < |pools|
        invariant Valid() && pools == Chosen(line, pool16, pool32) && i <= |pools|
        invariant (line != 16 ==> pool16 == old(pool16)) && (line != 32 ==> pool32 == old(pool32))
        invariant pools[..i] + InUse(pools[i..]) == InUse(p)
        decreases |pools| - i
      {
        InUseStep(pools, i);
        if AllFree(pools[i].bits) {
          PoolDropped(live, pool16, pool32, regions, line, i);
          regions := regions - {pools[i].base};
          pools := Without(pools, i);
          if line == 16 {
            pool16 := pools;
          } else {
            pool32 := pools;
          }
        } else {
          i := i + 1;
        }
      }
      assert pools[..i] == pools && pools[i..] == [] && pools + [] == pools;
    }

    // be_gc_memory_pools: pools without a line in use go back to the system, the others stay.
    method MemoryPools()
      requires Valid()
      modifies this`pool16, this`pool32, this`regions
      ensures Valid() && pool16 == InUse(old(pool16)) && pool32 == InUse(old(pool32))
    {
      DropEmpty(16);
      DropEmpty(32);
    }

    // be_realloc: allocate, free or resize a block, with one retry after a collection.
    method Realloc(ptr: Option<nat>, oldSize: nat, newSize: nat, garbage: map<nat, nat>) returns (r: Result, ghost freed: set<nat>)
      requires Valid() && Owned(ptr, oldSize)
      requires forall a :: a in garbage ==> a in live && live[a] == garbage[a]
      requires ptr.Some? ==> ptr.value !in garbage
      modifies this`pool16, this`pool32, this`regions, this`live, this`mem, this`usage
      ensures Valid() && freed <= garbage.Keys
      ensures oldSize == newSize ==> r == Block(ptr) && freed == {} && live == old(live) && mem == old(mem)
      ensures freed == if oldSize != newSize && old(Starved(ptr, oldSize, newSize)) then garbage.Keys else {}
      ensures r == MallocFail ==> oldSize != newSize && old(Starved(ptr, oldSize, newSize))
      ensures r == MallocFail ==>
                && newSize > 0
                && !(0 < oldSize <= 16 && newSize <= 16) && !(16 < oldSize <= 32 && 16 < newSize <= 32)
                && (newSize <= 16 ==> sys.malloc(regions, 504) == None)
                && (newSize <= 16 ==> forall i, k :: 0 <= i < |pool16| && 0 <= k < |pool16[i].bits| ==> !pool16[i].bits[k])
                && (16 < newSize <= 32 ==> sys.malloc(regions, 488) == None)
                && (16 < newSize <= 32 ==> forall i, k :: 0 <= i < |pool32| && 0 <= k < |pool32[i].bits| ==> !pool32[i].bits[k])
                && (newSize > 32 && oldSize <= 32 ==> sys.malloc(regions, newSize) == None)
                && (newSize > 32 && oldSize > 32 ==> sys.realloc(regions - {ptr.value}, ptr.value, newSize) == None)
      ensures r == MallocFail ==> live == old(live) - freed && mem == old(mem)
      ensures r.Block? && oldSize != newSize && newSize == 0 ==>
                live == old(Rest(ptr, oldSize)) - freed && mem == old(mem)
      ensures r.Block? && oldSize != newSize && newSize > 0 ==>
                r.ptr.Some? && r.ptr.value !in old(Rest(ptr, oldSize)) - freed
      ensures r.Block? && oldSize != newSize && newSize > 0 ==>
                live == (old(Rest(ptr, oldSize)) - freed)[r.ptr.value := newSize]
      ensures r.Block? && oldSize != newSize && newSize > 0 ==>
                SameContents(old(Rest(ptr, oldSize)) - freed, {}, old(mem), mem)
      ensures r.Block? && oldSize != newSize && 0 < oldSize && 0 < newSize ==>
                Copied(old(mem), ptr.value, mem, r.ptr.value, Min(oldSize, newSize))
    {
      hide Laid, Accounts, Sound, SameContents, Copied, Starved, Sum;
      freed := {};
      if oldSize == newSize {
        return Block(ptr), {};
      }
      ghost var rest := Rest(ptr, oldSize);
      assert rest - {} == rest && live - {} == live;
      var done, block := Attempt(ptr, oldSize, newSize);
      if !done {
        Collect(garbage);
        freed := garbage.Keys;
        assert Rest(ptr, oldSize) == rest - freed;
        done, block := Attempt(ptr, oldSize, newSize);
        if !done {
          StarvedMeans(ptr, oldSize, newSize);
          return MallocFail, freed;
        }
      }
      Resized(old(live) - freed, ptr, oldSize, newSize, block);
      usage := usage + newSize - oldSize;
      return Block(block), freed;
    }

    // be_gc_memory_pools_info: the used slots are as many as there are live small blocks.
    method PoolsInfo() returns (used: nat, total: nat)
      requires Valid()
      ensures used == |SmallBlocks(live)|
      ensures total == 31 * |pool16| + 15 * |pool32|
    {
      used, total := 0, 0;
      for i := 0 to |pool16|
        invariant used + SlotsUsed(pool16[i..]) == SlotsUsed(pool16) && total == 31 * i
      {
        assert pool16[i..][0] == pool16[i] && pool16[i..][1..] == pool16[i + 1..];
        used, total := used + CountUsed(pool16[i].bits), total + 31;
      }
      for i := 0 to |pool32|
        invariant used + SlotsUsed(pool32[i..]) == SlotsUsed(pool16) + SlotsUsed(pool32)
        invariant total == 31 * |pool16| + 15 * i
      {
        assert pool32[i..][0] == pool32[i] && pool32[i..][1..] == pool32[i + 1..];
        used, total := used + CountUsed(pool32[i].bits), total + 15;
      }
      UsedCount(16, pool16, regions);
      UsedCount(32, pool32, regions);
      assert SmallBlocks(live) == OfClass(live, 16) + OfClass(live, 32);
      assert OfClass(live, 16) !! OfClass(live, 32);
    }
  }

  // The sum of the sizes after a block was total, freed or resized.
  lemma Resized(live: map<nat, nat>, ptr: Option<nat>, oldSize: nat, newSize: nat, block: Option<nat>)
    requires oldSize > 0 ==> ptr.Some? && ptr.value in live && live[ptr.value] == oldSize
    requires newSize > 0 ==> block.Some?
    ensures var rest := if ptr.Some? && oldSize > 0 then live - {ptr.value} else live;
            Sum(rest) == Sum(live) - oldSize
            && (newSize > 0 && block.value !in rest ==> Sum(rest[block.value := newSize]) == Sum(live) + newSize - oldSize)
  {
    var rest := if ptr.Some? && oldSize > 0 then live - {ptr.value} else live;
    if oldSize > 0 {
      SumWithout(live, ptr.value);
    }
    if newSize > 0 && block.value !in rest {
      SumWith(rest, block.value, newSize);
    }
  }

  lemma FreedStep(live: map<nat, nat>, garbage: set<nat>, rest: set<nat>, a: nat)
    requires a in rest && rest <= garbage
    ensures live - (garbage - rest) - {a} == live - (garbage - (rest - {a})) && |rest - {a}| < |rest|
  {
    assert rest == (rest - {a}) + {a};
  }

  lemma Unmoved(live: map<nat, nat>, m: Memory)
    ensures SameContents(live, {}, m, m)
  {}

  // Writing to a live block changes no other one.
  lemma MoveKeeps(live: map<nat, nat>, p16: seq<Pool>, p32: seq<Pool>, r: Regions, rest: map<nat, nat>, block: nat, from: nat,
                  size: nat, n: nat, m: Memory)
    requires Laid(p16, p32, r) && Accounts(live, p16, p32, r) && block !in rest && live == rest[block := size]
    requires n <= size
    ensures SameContents(rest, {}, m, Moved(m, block, from, n)) && Copied(m, from, Moved(m, block, from, n), block, n)
  {
    var m' := Moved(m, block, from, n);
    forall a, i {:trigger m'(a + i), rest[a]} | a in rest && 0 <= i < rest[a] ensures m'(a + i) == m(a + i) {
      LiveApart(live, p16, p32, r, a, block);
    }
  }
}
