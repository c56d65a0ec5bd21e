/** The table of interned short strings (be_string.c): a power-of-two array of buckets, each an
    intrusive list, that doubles and halves in place. */
module StringTable {
  import opened Bits
  import opened ShortStrings

  datatype Mark = White | Gray | Dark

  class Str {
    const chars: seq<Byte>
    var next: Str?
    var mark: Mark
    var fixed: bool

    constructor (chars: seq<Byte>)
      ensures this.chars == chars && mark == White && !fixed && next == null
    {
      this.chars := chars;
      next, mark, fixed := null, White, false;
    }
  }

  // ----- bucket lists as values -----

  // The list at head, along the given next links, is c.
  ghost predicate Linked(head: Str?, next: map<Str, Str?>, c: seq<Str>)
    decreases c
  {
    if c == [] then head == null
    else head == c[0] && c[0] in next && Linked(next[c[0]], next, c[1..])
  }

  lemma {:induction false} LinkedFrame(head: Str?, next: map<Str, Str?>, next': map<Str, Str?>, c: seq<Str>)
    requires Linked(head, next, c)
    requires forall s :: s in c && s in next ==> s in next' && next'[s] == next[s]
    ensures Linked(head, next', c)
    decreases c
  {
    if c != [] {
      assert c[0] in c;
      forall s | s in c[1..] ensures s in c {}
      LinkedFrame(next[c[0]], next, next', c[1..]);
    }
  }

  // Every string in some bucket, with its multiplicity.
  ghost function Total(cs: seq<seq<Str>>): multiset<Str> {
    if cs == [] then multiset{} else multiset(cs[0]) + Total(cs[1..])
  }

  lemma {:induction false} TotalUpdate(cs: seq<seq<Str>>, b: int, c: seq<Str>)
    requires 0 <= b < |cs|
    ensures Total(cs[b := c]) + multiset(cs[b]) == Total(cs) + multiset(c)
    decreases cs
  {
    var rest := Total(cs[1..]);
    if b > 0 {
      TotalUpdate(cs[1..], b - 1, c);
      assert cs[b := c][1..] == cs[1..][b - 1 := c] && cs[b := c][0] == cs[0];
      var rest' := Total(cs[1..][b - 1 := c]);
      assert rest' + multiset(cs[b]) == rest + multiset(c);
      calc {
        Total(cs[b := c]) + multiset(cs[b]);
        multiset(cs[0]) + rest' + multiset(cs[b]);
        multiset(cs[0]) + (rest' + multiset(cs[b]));
        multiset(cs[0]) + (rest + multiset(c));
      }
    } else {
      assert cs[b := c][1..] == cs[1..] && cs[b := c][0] == c;
    }
  }

  lemma TotalHead(cs: seq<seq<Str>>)
    requires cs != []
    ensures Total(cs) == multiset(cs[0]) + Total(cs[1..])
  {}

  lemma Regroup(a: multiset<Str>, b: multiset<Str>, c: multiset<Str>)
    ensures a + (b + c) == (a + b) + c
  {}

  lemma {:induction false} TotalAppend(cs: seq<seq<Str>>, ds: seq<seq<Str>>)
    ensures Total(cs + ds) == Total(cs) + Total(ds)
    decreases cs
  {
    if cs == [] {
      assert cs + ds == ds;
    } else {
      assert (cs + ds)[1..] == cs[1..] + ds && (cs + ds)[0] == cs[0];
      TotalHead(cs + ds);
      TotalHead(cs);
      hide Total;
      TotalAppend(cs[1..], ds);
      Regroup(multiset(cs[0]), Total(cs[1..]), Total(ds));
    }
  }

  lemma {:induction false} TotalEmpty(ds: seq<seq<Str>>)
    requires forall b :: 0 <= b < |ds| ==> ds[b] == []
    ensures Total(ds) == multiset{}
    decreases ds
  {
    if ds != [] {
      TotalEmpty(ds[1..]);
    }
  }

  lemma {:induction false} InTotal(cs: seq<seq<Str>>, b: int)
    requires 0 <= b < |cs|
    ensures multiset(cs[b]) <= Total(cs)
    decreases cs
  {
    if b > 0 {
      InTotal(cs[1..], b - 1);
    }
  }

  // Each string is in the table at most once.
  ghost predicate Once(m: multiset<Str>) {
    forall s :: s in m ==> m[s] == 1
  }

  lemma OneBucket(cs: seq<seq<Str>>, b: int, b': int, s: Str)
    requires 0 <= b < |cs| && 0 <= b' < |cs| && b != b' && Once(Total(cs)) && s in cs[b]
    ensures s !in cs[b']
  {
    TotalUpdate(cs, b, []);
    InTotal(cs[b := []], b');
    assert multiset(cs[b])[s] >= 1 && cs[b := []][b'] == cs[b'];
    assert (Total(cs[b := []]) + multiset(cs[b]))[s] == (Total(cs) + multiset([]))[s] == Total(cs)[s];
    assert Total(cs[b := []])[s] == 0;
    assert multiset(cs[b'])[s] == 0;
  }

  // Every bucket is linked, and every string sits in the bucket bucketOf gives it.
  ghost predicate Buckets(heads: seq<Str?>, next: map<Str, Str?>, cs: seq<seq<Str>>) {
    |cs| == |heads| && forall b {:trigger cs[b]} {:trigger heads[b]} :: 0 <= b < |cs| ==> Linked(heads[b], next, cs[b])
  }

  ghost predicate Placed(cs: seq<seq<Str>>, lo: int, hi: int, bucketOf: Str -> int) {
    forall b, s {:trigger s in cs[b]} :: lo <= b < hi && 0 <= b < |cs| && s in cs[b] ==> bucketOf(s) == b
  }

  // Pushing a string that is in no bucket onto the front of bucket b.
  lemma Pushed(heads: seq<Str?>, next: map<Str, Str?>, cs: seq<seq<Str>>, b: int, p: Str)
    requires Buckets(heads, next, cs) && 0 <= b < |cs| && p !in Total(cs)
    ensures Buckets(heads[b := p], next[p := heads[b]], cs[b := [p] + cs[b]])
    ensures Total(cs[b := [p] + cs[b]]) == Total(cs) + multiset{p}
  {
    var next' := next[p := heads[b]];
    forall x | 0 <= x < |cs| ensures Linked(heads[x], next', cs[x]) {
      InTotal(cs, x);
      assert multiset(cs[x])[p] == 0;
      LinkedFrame(heads[x], next, next', cs[x]);
    }
    assert ([p] + cs[b])[1..] == cs[b];
    TotalUpdate(cs, b, [p] + cs[b]);
    assert multiset([p] + cs[b]) == multiset{p} + multiset(cs[b]);
    Cancel(Total(cs[b := [p] + cs[b]]), Total(cs) + multiset{p}, multiset(cs[b]));
  }

  lemma Cancel(a: multiset<Str>, b: multiset<Str>, c: multiset<Str>)
    requires a + c == b + c
    ensures a == b
  {
    assert a == (a + c) - c && b == (b + c) - c;
  }

  // Taking bucket b out of the table.
  lemma Taken(heads: seq<Str?>, next: map<Str, Str?>, cs: seq<seq<Str>>, b: int)
    requires Buckets(heads, next, cs) && 0 <= b < |cs|
    ensures Buckets(heads[b := null], next, cs[b := []])
    ensures Total(cs[b := []]) + multiset(cs[b]) == Total(cs)
  {
    TotalUpdate(cs, b, []);
  }

  // One step of rehashing: the first string of the list being moved goes to bucket h.
  lemma Moved(heads: seq<Str?>, next: map<Str, Str?>, cs: seq<seq<Str>>, rest: seq<Str>, all: multiset<Str>, h: int)
    returns (next': map<Str, Str?>, cs': seq<seq<Str>>)
    requires Buckets(heads, next, cs) && 0 <= h < |cs| && rest != [] && Linked(rest[0], next, rest)
    requires Once(all) && Total(cs) + multiset(rest) == all
    ensures next' == next[rest[0] := heads[h]] && next'.Keys == next.Keys && cs' == cs[h := [rest[0]] + cs[h]]
    ensures Buckets(heads[h := rest[0]], next', cs') && Linked(next[rest[0]], next', rest[1..])
    ensures Total(cs') + multiset(rest[1..]) == all
  {
    var p := rest[0];
    next', cs' := next[p := heads[h]], cs[h := [p] + cs[h]];
    assert rest == [p] + rest[1..];
    assert multiset(rest) == multiset{p} + multiset(rest[1..]);
    assert all[p] >= multiset(rest)[p] >= 1;
    assert p !in Total(cs) && p !in multiset(rest[1..]);
    Pushed(heads, next, cs, h, p);
    LinkedFrame(next[p], next, next', rest[1..]);
  }

  lemma PlacedMore(cs: seq<seq<Str>>, lo: int, hi: int, home: Str -> int, h: int, p: Str)
    requires Placed(cs, lo, hi, home) && 0 <= h < |cs| && home(p) == h
    ensures Placed(cs[h := [p] + cs[h]], lo, hi, home)
  {
    var cs' := cs[h := [p] + cs[h]];
    forall b, s {:trigger s in cs'[b]} | lo <= b < hi && 0 <= b < |cs| && s in cs'[b] ensures home(s) == b {
      if b == h && s != p {
        assert s in cs[h];
      }
    }
  }

  // ----- hashing to buckets -----

  ghost predicate PowerOfTwo(size: nat) {
    exists k: nat {:trigger Pow2(k)} :: size == Pow2(k)
  }

  // hash & (size - 1)
  function BucketOf(hash: seq<Byte> -> nat, size: nat): Str -> int
    requires size > 0
  {
    (s: Str) => And(hash(s.chars), size - 1)
  }

  lemma BucketInRange(hash: seq<Byte> -> nat, size: nat, s: Str)
    requires PowerOfTwo(size) && size > 0
    ensures 0 <= BucketOf(hash, size)(s) < size
  {
    var k: nat :| size == Pow2(k);
    AndOnes(hash(s.chars), k);
  }

  lemma BucketIs(hash: seq<Byte> -> nat, size: nat, s: Str)
    requires PowerOfTwo(size) && size > 0
    ensures BucketOf(hash, size)(s) == hash(s.chars) % size
  {
    var k: nat :| size == Pow2(k);
    AndOnes(hash(s.chars), k);
  }

  // Where a string of old bucket i may go when the table doubles or halves: not to a bucket
  // of the old table that is still to be rehashed.
  lemma {:induction false} BucketMoves(h: nat, k: nat)
    ensures And(h, Ones(k + 1)) == And(h, Ones(k)) || And(h, Ones(k + 1)) == And(h, Ones(k)) + Pow2(k)
    decreases k
  {
    if k > 0 {
      BucketMoves(h / 2, k - 1);
      assert Ones(k) / 2 == Ones(k - 1) && Ones(k + 1) / 2 == Ones(k);
    }
  }

  // A string found in bucket i of the old table may move to i or to a bucket that is not, or
  // no longer, part of the old table's unvisited rest.
  lemma MoveAllowed(hash: seq<Byte> -> nat, oldSize: nat, size: nat, i: int, s: Str)
    requires 0 < oldSize && 0 < size && PowerOfTwo(oldSize) && PowerOfTwo(size)
    requires size == 2 * oldSize || oldSize == 2 * size
    requires BucketOf(hash, oldSize)(s) == i
    ensures !(i < BucketOf(hash, size)(s) < oldSize)
  {
    var k: nat :| oldSize == Pow2(k);
    if size == 2 * oldSize {
      BucketMoves(hash(s.chars), k);
    } else {
      assert k > 0;
      BucketMoves(hash(s.chars), k - 1);
    }
  }

  lemma Lengthened(heads: seq<Str?>, next: map<Str, Str?>, cs: seq<seq<Str>>, heads': seq<Str?>)
    returns (cs': seq<seq<Str>>)
    requires Buckets(heads, next, cs) && heads <= heads'
    requires forall b :: |heads| <= b < |heads'| ==> heads'[b] == null
    ensures Buckets(heads', next, cs') && cs <= cs' && Total(cs') == Total(cs)
    ensures forall b :: |cs| <= b < |cs'| ==> cs'[b] == []
  {
    var empty: seq<seq<Str>> := seq(|heads'| - |heads|, i => []);
    cs' := cs + empty;
    TotalEmpty(empty);
    TotalAppend(cs, empty);
    forall b | 0 <= b < |cs'| ensures Linked(heads'[b], next, cs'[b]) {
      if b < |cs| {
        assert heads'[b] == heads[b];
      }
    }
  }

  lemma FirstBelongs(cs: seq<seq<Str>>, b: int, home: Str -> int)
    requires 0 <= b < |cs| && Placed(cs, 0, |cs|, home) && cs[b] != []
    ensures cs[b][0] in Total(cs) && home(cs[b][0]) == b
  {
    InTotal(cs, b);
    assert cs[b][0] in cs[b] && cs[b][0] in multiset(cs[b]);
  }

  // A bucket that no string of the table belongs to is empty.
  lemma NoneBelong(cs: seq<seq<Str>>, b: int, home: Str -> int)
    requires 0 <= b < |cs| && Placed(cs, 0, |cs|, home)
    requires forall s :: s in Total(cs) ==> home(s) != b
    ensures cs[b] == []
  {
    if cs[b] != [] {
      FirstBelongs(cs, b, home);
    }
  }

  lemma Shortened(heads: seq<Str?>, next: map<Str, Str?>, cs: seq<seq<Str>>, size: nat, home: Str -> int)
    requires Buckets(heads, next, cs) && size <= |cs| && Placed(cs, 0, |cs|, home)
    requires forall s :: s in Total(cs) ==> 0 <= home(s) < size
    ensures Buckets(heads[..size], next, cs[..size]) && Placed(cs[..size], 0, size, home)
    ensures Total(cs[..size]) == Total(cs)
    ensures forall b :: size <= b < |cs| ==> heads[b] == null
  {
    forall b | size <= b < |cs| ensures cs[b] == [] && heads[b] == null {
      NoneBelong(cs, b, home);
      assert Linked(heads[b], next, cs[b]);
    }
    TotalEmpty(cs[size..]);
    TotalAppend(cs[..size], cs[size..]);
    assert cs == cs[..size] + cs[size..];
  }

  lemma PowerDoubles(size: nat)
    requires PowerOfTwo(size)
    ensures PowerOfTwo(2 * size)
    ensures size > 1 ==> size % 2 == 0 && PowerOfTwo(size / 2)
  {
    var k: nat :| size == Pow2(k);
    assert Pow2(k + 1) == 2 * size;
    if k > 0 {
      assert Pow2(k - 1) == size / 2;
    }
  }

  // ----- where a string sits -----

  lemma {:induction false} SomeBucket(cs: seq<seq<Str>>, s: Str) returns (b: int)
    requires s in Total(cs)
    ensures 0 <= b < |cs| && s in cs[b]
    decreases cs
  {
    if s in cs[0] {
      b := 0;
    } else {
      b := SomeBucket(cs[1..], s);
      b := b + 1;
    }
  }

  lemma InOwnBucket(cs: seq<seq<Str>>, home: Str -> int, s: Str)
    requires s in Total(cs) && Placed(cs, 0, |cs|, home)
    ensures 0 <= home(s) < |cs| && s in cs[home(s)]
  {
    var b := SomeBucket(cs, s);
  }

  // ----- sweeping one bucket -----

  // The strings of c that are in live, in order.
  ghost function Kept(c: seq<Str>, live: set<Str>): seq<Str> {
    if c == [] then [] else (if c[0] in live then [c[0]] else []) + Kept(c[1..], live)
  }

  lemma {:induction false} KeptMembers(c: seq<Str>, live: set<Str>, s: Str)
    ensures multiset(Kept(c, live))[s] == if s in live then multiset(c)[s] else 0
    decreases c
  {
    if c != [] {
      KeptMembers(c[1..], live, s);
      assert c == [c[0]] + c[1..];
    }
  }

  lemma {:induction false} KeptSnoc(c: seq<Str>, k: nat, live: set<Str>)
    requires k < |c|
    ensures Kept(c[..k + 1], live) == Kept(c[..k], live) + (if c[k] in live then [c[k]] else [])
    decreases k
  {
    if k == 0 {
      assert c[..1] == [c[0]] && c[..1][1..] == [];
    } else {
      KeptSnoc(c[1..], k - 1, live);
      assert c[..k + 1][1..] == c[1..][..k] && c[..k][1..] == c[1..][..k - 1];
    }
  }

  lemma Shift<T>(done: seq<T>, c: seq<T>, k: nat)
    requires k < |c|
    ensures c[k..] != [] && c[k..][0] == c[k] && c[k..][1..] == c[k + 1..]
    ensures done + c[k..] == (done + [c[k]]) + c[k + 1..]
  {}

  lemma KeptIn(c: seq<Str>, live: set<Str>, s: Str)
    requires s in Kept(c, live)
    ensures s in c && s in live
  {
    KeptMembers(c, live, s);
    assert s in multiset(Kept(c, live));
    assert s in multiset(c);
  }

  // Linking the string in front of x to the one behind it takes x out of the list.
  lemma OnceTail(c: seq<Str>)
    requires c != [] && Once(multiset(c))
    ensures Once(multiset(c[1..])) && c[0] !in c[1..]
  {
    assert c == [c[0]] + c[1..];
    assert multiset(c) == multiset{c[0]} + multiset(c[1..]);
    forall s | s in multiset(c[1..]) ensures multiset(c[1..])[s] == 1 {
      assert s in multiset(c);
    }
    assert multiset(c)[c[0]] == 1;
  }

  lemma LinkedCons(p: Str, next: map<Str, Str?>, c: seq<Str>)
    requires p in next && Linked(next[p], next, c)
    ensures Linked(p, next, [p] + c)
  {
    assert ([p] + c)[1..] == c;
  }

  lemma {:induction false} CutOut(head: Str?, next: map<Str, Str?>, before: seq<Str>, x: Str, after: seq<Str>)
    requires Linked(head, next, before + [x] + after) && x in next
    requires Once(multiset(before + [x] + after))
    ensures before == [] ==> Linked(next[x], next - {x}, after)
    ensures before != [] ==> before[|before| - 1] in next
                             && Linked(head, next[before[|before| - 1] := next[x]] - {x}, before + after)
    decreases before
  {
    hide Once;
    var c := before + [x] + after;
    OnceTail(c);
    if before == [] {
      assert c[1..] == after;
      LinkedFrame(next[x], next, next - {x}, after);
    } else {
      var p, rest := before[0], before[1..];
      assert c[1..] == rest + [x] + after;
      assert (rest + [x] + after)[|rest|] == x;
      CutOut(next[p], next, rest, x, after);
      assert before + after == [p] + (rest + after);
      assert p in next && p != x;
      hide Linked;
      var next' := next[before[|before| - 1] := next[x]] - {x};
      if rest == [] {
        assert rest + after == after;
        LinkedFrame(next[x], next - {x}, next', after);
      } else {
        assert before[|before| - 1] == rest[|rest| - 1] == c[1..][|rest| - 1];
      }
      LinkedCons(p, next', rest + after);
    }
  }

  // Taking string x = rest[0] out of bucket i, where the strings of `done` are in front of it.
  lemma SweptOut(heads: seq<Str?>, next: map<Str, Str?>, cs: seq<seq<Str>>, i: int, done: seq<Str>, rest: seq<Str>)
    returns (heads': seq<Str?>, next': map<Str, Str?>)
    requires Buckets(heads, next, cs) && 0 <= i < |cs| && cs[i] == done + rest && rest != []
    requires Once(Total(cs)) && Linked(rest[0], next, rest)
    ensures rest[0] in next
    ensures heads' == if done == [] then heads[i := next[rest[0]]] else heads
    ensures next' == (if done == [] then next else next[done[|done| - 1] := next[rest[0]]]) - {rest[0]}
    ensures done != [] ==> done[|done| - 1] in next
    ensures Buckets(heads', next', cs[i := done + rest[1..]])
    ensures Linked(next[rest[0]], next', rest[1..])
    ensures Once(Total(cs[i := done + rest[1..]])) && |Total(cs[i := done + rest[1..]])| == |Total(cs)| - 1
  {
    hide Total;
    var x, after := rest[0], rest[1..];
    assert cs[i] == done + [x] + after;
    InTotal(cs, i);
    assert Once(multiset(cs[i])) by {
      forall s | s in multiset(cs[i]) ensures multiset(cs[i])[s] == 1 {
        assert s in Total(cs);
      }
    }
    CutOut(heads[i], next, done, x, after);
    heads' := if done == [] then heads[i := next[x]] else heads;
    next' := (if done == [] then next else next[done[|done| - 1] := next[x]]) - {x};
    var cs' := cs[i := done + after];
    assert done == [] ==> done + after == after;
    forall b | 0 <= b < |cs'| ensures Linked(heads'[b], next', cs'[b]) {
      if b != i {
        OneBucket(cs, i, b, x);
        if done != [] {
          OneBucket(cs, i, b, done[|done| - 1]);
        }
        LinkedFrame(heads[b], next, next', cs[b]);
      }
    }
    assert multiset(cs[i]) == multiset(done) + multiset{x} + multiset(after);
    assert done != [] ==> done[|done| - 1] in multiset(done);
    assert x !in multiset(after) && (done != [] ==> done[|done| - 1] !in multiset(after)) by {
      assert multiset(cs[i])[x] == 1;
      assert done != [] ==> multiset(cs[i])[done[|done| - 1]] == 1;
    }
    LinkedFrame(next[x], next, next', after);
    CountedOut(cs, i, done, x, after);
  }

  lemma CountedOut(cs: seq<seq<Str>>, i: int, done: seq<Str>, x: Str, after: seq<Str>)
    requires 0 <= i < |cs| && cs[i] == done + [x] + after && Once(Total(cs))
    ensures var t := Total(cs[i := done + after]); Once(t) && |t| == |Total(cs)| - 1
  {
    var t := Total(cs[i := done + after]);
    TotalUpdate(cs, i, done + after);
    hide Total;
    assert multiset(cs[i]) == multiset(done) + multiset{x} + multiset(after);
    assert multiset(done + after) == multiset(done) + multiset(after);
    assert t + multiset{x} + multiset(done + after) == Total(cs) + multiset(done + after);
    Cancel(t + multiset{x}, Total(cs), multiset(done + after));
    forall s | s in t ensures t[s] == 1 {
      assert s in Total(cs);
    }
  }

  ghost function Strings(c: seq<Str>): set<Str> {
    if c == [] then {} else {c[0]} + Strings(c[1..])
  }

  lemma {:induction false} StringsIn(c: seq<Str>, s: Str)
    ensures s in Strings(c) <==> s in c
    decreases c
  {
    if c != [] {
      StringsIn(c[1..], s);
    }
  }

  lemma {:induction false} StringsAppend(c: seq<Str>, x: Str)
    ensures Strings(c + [x]) == Strings(c) + {x}
    decreases c
  {
    if c == [] {
      assert c + [x] == [x];
    } else {
      StringsAppend(c[1..], x);
      assert (c + [x])[1..] == c[1..] + [x];
    }
  }

  // The string at place k of a bucket is not among those before it.
  lemma StringsSnoc(cs: seq<seq<Str>>, i: int, k: int)
    requires 0 <= i < |cs| && Once(Total(cs)) && 0 <= k < |cs[i]|
    ensures cs[i][k] !in Strings(cs[i][..k]) && Strings(cs[i][..k + 1]) == Strings(cs[i][..k]) + {cs[i][k]}
  {
    var c := cs[i];
    InTotal(cs, i);
    assert c == c[..k] + [c[k]] + c[k + 1..];
    assert multiset(c) == multiset(c[..k]) + multiset{c[k]} + multiset(c[k + 1..]);
    assert c[k] in multiset(c) && c[k] in Total(cs);
    assert c[k] !in multiset(c[..k]);
    StringsIn(c[..k], c[k]);
    assert c[..k + 1] == c[..k] + [c[k]];
    StringsAppend(c[..k], c[k]);
  }

  lemma SweepStep(cs: seq<seq<Str>>, i: int, k: int, live: set<Str>, dark: set<Str>)
    requires 0 <= i < |cs| && Once(Total(cs)) && 0 <= k < |cs[i]|
    ensures var c := cs[i];
            (c[k] in dark - Strings(c[..k]) <==> c[k] in dark)
            && dark - Strings(c[..k + 1]) == dark - Strings(c[..k]) - {c[k]}
            && Kept(c[..k + 1], live) == if c[k] in live then Kept(c[..k], live) + [c[k]] else Kept(c[..k], live)
  {
    StringsSnoc(cs, i, k);
    KeptSnoc(cs[i], k, live);
  }

  lemma SweepEnds(cs: seq<seq<Str>>, i: int, live: set<Str>)
    requires 0 <= i < |cs|
    ensures var c := cs[i];
            c[..0] == [] && c[0..] == c && c[..|c|] == c && c[|c|..] == []
            && cs[i := Kept(c[..0], live) + c[0..]] == cs
            && cs[i := Kept(c[..|c|], live) + c[|c|..]] == cs[i := Kept(c, live)]
  {
    assert [] + cs[i] == cs[i] && Kept(cs[i], live) + [] == Kept(cs[i], live);
  }

  ghost function KeptAll(cs: seq<seq<Str>>, live: set<Str>): seq<seq<Str>> {
    seq(|cs|, b requires 0 <= b < |cs| => Kept(cs[b], live))
  }

  // The table after the first n buckets have been swept.
  ghost function Swept(cs: seq<seq<Str>>, n: int, live: set<Str>): seq<seq<Str>> {
    seq(|cs|, b requires 0 <= b < |cs| => if b < n then Kept(cs[b], live) else cs[b])
  }

  lemma SweptMore(cs: seq<seq<Str>>, n: int, live: set<Str>)
    requires 0 <= n < |cs|
    ensures Swept(cs, n, live)[n] == cs[n]
    ensures Swept(cs, n, live)[n := Kept(cs[n], live)] == Swept(cs, n + 1, live)
  {}

  lemma SweptEnds(cs: seq<seq<Str>>, live: set<Str>)
    ensures Swept(cs, 0, live) == cs && Swept(cs, |cs|, live) == KeptAll(cs, live)
  {}

  // Sweeping the first n buckets only whitens strings of those buckets.
  lemma StillLive(cs: seq<seq<Str>>, n: int, live: set<Str>, fixed: set<Str>, dark: set<Str>)
    requires 0 <= n < |cs| && Once(Total(cs)) && live == fixed + dark
    ensures forall j :: 0 <= j < |cs[n]| ==> (cs[n][j] in live <==> cs[n][j] in fixed + (dark - StringsUpTo(cs, n)))
  {
    forall j | 0 <= j < |cs[n]| ensures cs[n][j] !in StringsUpTo(cs, n) {
      NotEarlier(cs, n, n, cs[n][j]);
    }
  }

  lemma {:induction false} TotalKept(cs: seq<seq<Str>>, live: set<Str>, s: Str)
    ensures Total(KeptAll(cs, live))[s] == if s in live then Total(cs)[s] else 0
    decreases cs
  {
    if cs != [] {
      TotalKept(cs[1..], live, s);
      KeptMembers(cs[0], live, s);
      assert KeptAll(cs, live)[1..] == KeptAll(cs[1..], live);
    }
  }

  ghost function StringsUpTo(cs: seq<seq<Str>>, n: nat): set<Str>
    requires n <= |cs|
  {
    if n == 0 then {} else StringsUpTo(cs, n - 1) + Strings(cs[n - 1])
  }

  lemma {:induction false} NotEarlier(cs: seq<seq<Str>>, n: nat, b: int, s: Str)
    requires n <= b < |cs| && Once(Total(cs)) && s in cs[b]
    ensures s !in StringsUpTo(cs, n)
    decreases n
  {
    if n > 0 {
      NotEarlier(cs, n - 1, b, s);
      OneBucket(cs, b, n - 1, s);
      StringsIn(cs[n - 1], s);
    }
  }

  lemma {:induction false} AllStrings(cs: seq<seq<Str>>, n: nat, b: int, s: Str)
    requires b < n <= |cs| && 0 <= b && s in cs[b]
    ensures s in StringsUpTo(cs, n)
    decreases n
  {
    if b == n - 1 {
      StringsIn(cs[b], s);
    } else {
      AllStrings(cs, n - 1, b, s);
    }
  }

  lemma {:induction false} LinkedIn(head: Str?, next: map<Str, Str?>, c: seq<Str>, s: Str)
    requires Linked(head, next, c) && s in c
    ensures s in next
    decreases c
  {
    if s != c[0] {
      LinkedIn(next[c[0]], next, c[1..], s);
    }
  }

  // What is in the buckets after keeping only the live strings.
  lemma KeptTable(cs: seq<seq<Str>>, live: set<Str>, home: Str -> int)
    requires Placed(cs, 0, |cs|, home)
    ensures Placed(KeptAll(cs, live), 0, |cs|, home)
    ensures forall s :: s in Total(KeptAll(cs, live)) <==> s in Total(cs) && s in live
  {
    var cs' := KeptAll(cs, live);
    forall b, s {:trigger s in cs'[b]} | 0 <= b < |cs| && s in cs'[b] ensures home(s) == b {
      KeptIn(cs[b], live, s);
    }
    forall s ensures s in Total(cs') <==> s in Total(cs) && s in live {
      TotalKept(cs, live, s);
    }
  }

  // The characters identify a string among those in the table.
  ghost predicate Interned(index: map<seq<Byte>, Str>, m: multiset<Str>) {
    && (forall s :: s in m ==> s.chars in index && index[s.chars] == s)
    && (forall c :: c in index ==> index[c] in m && index[c].chars == c)
  }

  ghost function Known(index: map<seq<Byte>, Str>, live: set<Str>): map<seq<Byte>, Str> {
    map c | c in index && index[c] in live :: index[c]
  }

  lemma InternedKept(index: map<seq<Byte>, Str>, m: multiset<Str>, m': multiset<Str>, live: set<Str>)
    requires Interned(index, m) && forall s :: s in m' <==> s in m && s in live
    ensures Interned(Known(index, live), m')
  {
    var index' := Known(index, live);
    forall s | s in m' ensures s.chars in index' && index'[s.chars] == s {
      assert s in m && s in live;
    }
  }

  lemma NoStrings(cs: seq<seq<Str>>, hash: seq<Byte> -> nat)
    requires forall b :: 0 <= b < |cs| ==> cs[b] == []
    ensures Total(cs) == multiset{} && (|cs| > 0 ==> Placed(cs, 0, |cs|, BucketOf(hash, |cs|)))
  {
    TotalEmpty(cs);
  }

  // ----- the table -----

  datatype View = View(next: map<Str, Str?>, cs: seq<seq<Str>>, index: map<seq<Byte>, Str>)

  class Table {
    const hash: seq<Byte> -> nat
    var table: array<Str?>
    var count: int
    ghost var view: View

    ghost predicate Shape()
      reads this, table, view.next.Keys
    {
      && Buckets(table[..], view.next, view.cs)
      && forall s :: s in view.next ==> s.next == view.next[s]
    }

    ghost predicate Valid()
      reads this, table, view.next.Keys
    {
      && Shape()
      && table.Length > 0 && PowerOfTwo(table.Length)
      && Placed(view.cs, 0, table.Length, BucketOf(hash, table.Length))
      && Once(Total(view.cs)) && count == |Total(view.cs)| && Interned(view.index, Total(view.cs))
    }

    // be_string_init: eight empty buckets.
    constructor (hash: seq<Byte> -> nat)
      ensures Valid() && fresh(table) && table.Length == 8 && count == 0 && view.index == map[]
      ensures Total(view.cs) == multiset{}
      ensures this.hash == hash
    {
      this.hash := hash;
      table := new Str?[8](i => null);
      count := 0;
      view := View(map[], seq(8, i => []), map[]);
      new;
      NoStrings(view.cs, hash);
      assert Pow2(3) == 8;
    }

    // The chain of bucket i is rehashed into a table whose strings belong where `home` says.
    method RehashBucket(i: nat, oldSize: nat, size: nat)
      requires Shape() && i < oldSize <= table.Length && 0 < size <= table.Length && Once(Total(view.cs))
      requires Placed(view.cs, 0, i, BucketOf(hash, size)) && Placed(view.cs, oldSize, |view.cs|, BucketOf(hash, size))
      requires forall s :: s in view.cs[i] ==> !(i < BucketOf(hash, size)(s) < oldSize)
      modifies this`view, table, view.next.Keys`next
      ensures Shape() && view.next.Keys == old(view.next.Keys) && view.index == old(view.index)
      ensures Total(view.cs) == old(Total(view.cs))
      ensures Placed(view.cs, 0, i + 1, BucketOf(hash, size))
      ensures Placed(view.cs, oldSize, |view.cs|, BucketOf(hash, size))
      ensures forall b :: i < b < oldSize ==> view.cs[b] == old(view.cs[b])
    {
      hide Total;
      ghost var home := BucketOf(hash, size);
      ghost var all, cs0 := Total(view.cs), view.cs;
      ghost var rest := view.cs[i];
      Taken(table[..], view.next, view.cs, i);
      var p := table[i];
      table[i] := null;
      view := view.(cs := view.cs[i := []]);
      while p != null
        invariant Shape() && view.next.Keys == old(view.next.Keys) && view.index == old(view.index)
        invariant Linked(p, view.next, rest) && Total(view.cs) + multiset(rest) == all
        invariant forall s :: s in rest ==> !(i < home(s) < oldSize)
        invariant Placed(view.cs, 0, i + 1, home) && Placed(view.cs, oldSize, |view.cs|, home)
        invariant forall b :: i < b < oldSize ==> view.cs[b] == cs0[b]
        decreases |rest|
      {
        p, rest := RehashOne(p, i, oldSize, size, rest, all);
      }
      assert multiset(rest) == multiset{};
    }

    // One node of the rehash loop.
    method RehashOne(p: Str, i: nat, oldSize: nat, size: nat, ghost rest: seq<Str>, ghost all: multiset<Str>)
      returns (hnext: Str?, ghost rest': seq<Str>)
      requires Shape() && i < oldSize <= table.Length && 0 < size <= table.Length && Once(all)
      requires Linked(p, view.next, rest) && Total(view.cs) + multiset(rest) == all
      requires forall s :: s in rest ==> !(i < BucketOf(hash, size)(s) < oldSize)
      requires Placed(view.cs, 0, i + 1, BucketOf(hash, size))
      requires Placed(view.cs, oldSize, |view.cs|, BucketOf(hash, size))
      modifies this`view, table, view.next.Keys`next
      ensures Shape() && view.next.Keys == old(view.next.Keys) && view.index == old(view.index)
      ensures rest != [] && rest' == rest[1..]
      ensures Linked(hnext, view.next, rest') && Total(view.cs) + multiset(rest') == all
      ensures Placed(view.cs, 0, i + 1, BucketOf(hash, size))
      ensures Placed(view.cs, oldSize, |view.cs|, BucketOf(hash, size))
      ensures |view.cs| == |old(view.cs)| && forall b :: i < b < oldSize ==> view.cs[b] == old(view.cs[b])
    {
      hide Total;
      hnext, rest' := p.next, rest[1..];
      var h := And(hash(p.chars), size - 1);
      ghost var next', cs' := Moved(table[..], view.next, view.cs, rest, all, h);
      PlacedMore(view.cs, 0, i + 1, BucketOf(hash, size), h, p);
      PlacedMore(view.cs, oldSize, |view.cs|, BucketOf(hash, size), h, p);
      p.next := table[h];
      table[h] := p;
      view := view.(next := next', cs := cs');
    }

    // The buckets above the new size are empty and are cut off.
    method Shorten(size: nat)
      requires Shape() && 0 < size < table.Length && PowerOfTwo(size)
      requires Placed(view.cs, 0, table.Length, BucketOf(hash, size))
      modifies this`table, this`view
      ensures Shape() && fresh(table) && table.Length == size && view.next == old(view.next)
      ensures view.index == old(view.index)
      ensures Placed(view.cs, 0, size, BucketOf(hash, size)) && Total(view.cs) == old(Total(view.cs))
    {
      hide Linked, Total, Placed;
      ghost var home := BucketOf(hash, size);
      forall s | s in Total(view.cs) ensures 0 <= home(s) < size {
        BucketInRange(hash, size, s);
      }
      Shortened(table[..], view.next, view.cs, size, home);
      var newTable := new Str?[size](i requires 0 <= i < table.Length reads this, table => table[i]);
      assert newTable[..] == table[..size];
      table := newTable;
      view := view.(cs := view.cs[..size]);
    }

    // The growth step of resize: a longer array whose new buckets are empty.
    method Lengthen(size: nat)
      requires Shape() && table.Length < size
      modifies this`table, this`view
      ensures Shape() && fresh(table) && table.Length == size && view.next == old(view.next)
      ensures view.index == old(view.index)
      ensures old(view.cs) <= view.cs && Total(view.cs) == old(Total(view.cs))
      ensures forall b :: |old(view.cs)| <= b < |view.cs| ==> view.cs[b] == []
    {
      var oldTable := table;
      var newTable := new Str?[size](i requires 0 <= i reads oldTable => if i < oldTable.Length then oldTable[i] else null);
      ghost var cs' := Lengthened(oldTable[..], view.next, view.cs, newTable[..]);
      table := newTable;
      view := view.(cs := cs');
    }

    method Resize(size: nat)
      requires Valid() && 0 < size && PowerOfTwo(size)
      requires size == 2 * table.Length || table.Length == 2 * size
      modifies this`table, this`view, table, view.next.Keys`next
      ensures Valid() && table.Length == size && (table == old(table) || fresh(table))
      ensures Total(view.cs) == old(Total(view.cs)) && view.next.Keys == old(view.next.Keys)
    {
      hide Once, Interned, Linked, Total;
      ghost var home, cs0 := BucketOf(hash, size), view.cs;
      var oldSize := table.Length;
      if size > oldSize {
        Lengthen(size);
      }
      var i := 0;
      while i < oldSize
        invariant 0 <= i <= oldSize
        invariant Shape() && view.next.Keys == old(view.next.Keys) && view.index == old(view.index)
        invariant table.Length == (if size > oldSize then size else oldSize) && (table == old(table) || fresh(table))
        invariant Total(view.cs) == old(Total(view.cs))
        invariant Placed(view.cs, 0, i, home) && Placed(view.cs, oldSize, |view.cs|, home)
        invariant forall b :: i <= b < oldSize ==> view.cs[b] == cs0[b]
      {
        forall s | s in view.cs[i] ensures !(i < home(s) < oldSize) {
          assert s in cs0[i];
          MoveAllowed(hash, oldSize, size, i, s);
        }
        RehashBucket(i, oldSize, size);
        i := i + 1;
      }
      if size < oldSize {
        Shorten(size);
      }
    }

    // The search in bucket h.
    method Lookup(str: seq<Byte>, h: nat) returns (s: Str?)
      requires Valid() && h == And(hash(str), table.Length - 1)
      ensures s != null ==> s in Total(view.cs) && |s.chars| == |str| && StrnEq(str, s.chars)
      ensures s == null ==> str !in view.index
    {
      ghost var c := view.cs[h];
      ghost var k := 0;
      InTotal(view.cs, h);
      assert c == c[0..];
      s := table[h];
      while s != null
        invariant 0 <= k <= |c| && Linked(s, view.next, c[k..])
        invariant forall j :: 0 <= j < k ==> c[j].chars != str
        decreases |c| - k
      {
        assert s == c[k] && s in multiset(c);
        if |s.chars| == |str| && StrnEq(str, s.chars) {
          return s;
        }
        StrnEqRefl(str);
        assert c[k..][1..] == c[k + 1..];
        s, k := s.next, k + 1;
      }
      if str in view.index {
        InOwnBucket(view.cs, BucketOf(hash, table.Length), view.index[str]);
        assert false;
      }
    }

    // A new string goes to the front of its bucket.
    method Link(s: Str, h: nat)
      requires Valid() && s !in view.next && s !in Total(view.cs)
      requires h == And(hash(s.chars), table.Length - 1) && s.chars !in view.index
      modifies this`count, this`view, table, s`next
      ensures Valid() && view.next.Keys == old(view.next.Keys) + {s}
      ensures Total(view.cs) == old(Total(view.cs)) + multiset{s} && count == old(count) + 1
      ensures view.index == old(view.index)[s.chars := s]
    {
      hide Linked, Total, Placed;
      Pushed(table[..], view.next, view.cs, h, s);
      PlacedMore(view.cs, 0, table.Length, BucketOf(hash, table.Length), h, s);
      ghost var v' := View(view.next[s := table[h]], view.cs[h := [s] + view.cs[h]], view.index[s.chars := s]);
      s.next := table[h];
      table[h] := s;
      count := count + 1;
      view := v';
    }

    // A string sits in the bucket that its hash selects.
    lemma InItsBucket(b: nat, s: Str)
      requires Valid() && b < |view.cs| && s in view.cs[b]
      ensures |view.cs| == table.Length > 0 && b == hash(s.chars) % table.Length
    {
      BucketIs(hash, table.Length, s);
      hide BucketOf, Total, Once, Interned, Linked;
    }

    // newshortstr: the string in the table with these characters, made if there is none.
    method Intern(str: seq<Byte>) returns (s: Str)
      requires Valid()
      modifies this, table, view.next.Keys`next
      ensures Valid() && (table == old(table) || fresh(table))
      ensures s in Total(view.cs) && |s.chars| == |str| && StrnEq(str, s.chars)
      ensures NoInnerNul(str) ==> s.chars == str
      ensures s in old(Total(view.cs)) ==> Total(view.cs) == old(Total(view.cs))
      ensures s !in old(Total(view.cs)) ==> fresh(s) && Total(view.cs) == old(Total(view.cs)) + multiset{s}
      ensures NoInnerNul(str) ==> (s in old(Total(view.cs)) <==> str in old(view.index))
      ensures NoInnerNul(str) && str in old(view.index) ==> s == old(view.index)[str]
      ensures NoInnerNul(str) ==> str in view.index && view.index[str] == s
      ensures table.Length == if s !in old(Total(view.cs)) && old(count) + 1 > 4 * old(table.Length)
                              then 2 * old(table.Length) else old(table.Length)
    {
      hide Linked, Total, Placed, Buckets;
      var size := table.Length;
      var h := And(hash(str), size - 1);
      var found := Lookup(str, h);
      if found != null {
        s := found;
        if NoInnerNul(str) {
          StrnEqIsEqual(str, s.chars);
        }
        return;
      }
      s := new Str(str);
      StrnEqRefl(str);
      Link(s, h);
      if count > 4 * size {
        PowerDoubles(size);
        Resize(2 * size);
      }
    }

    ghost predicate Marked(s: Str)
      reads s
    {
      s.fixed || s.mark != White
    }

    // Unlinking and freeing node, behind the last string kept so far.
    method DropNode(i: int, prev: Str?, node: Str, next: Str?, ghost done: seq<Str>, ghost rest: seq<Str>)
      requires Shape() && 0 <= i < table.Length && Once(Total(view.cs)) && count == |Total(view.cs)|
      requires view.cs[i] == done + rest && Linked(node, view.next, rest) && node.next == next
      requires if done == [] then prev == null else prev == done[|done| - 1]
      modifies this`count, this`view, table, view.next.Keys`next
      ensures Shape() && view.next.Keys <= old(view.next.Keys) && view.index == old(view.index)
      ensures Once(Total(view.cs)) && count == |Total(view.cs)|
      ensures rest != [] && view.cs == old(view.cs)[i := done + rest[1..]] && Linked(next, view.next, rest[1..])
    {
      hide Total, Kept;
      ghost var heads', next' := SweptOut(table[..], view.next, view.cs, i, done, rest);
      count := count - 1;
      if prev != null {
        prev.next := next;
      } else {
        table[i] := next;
      }
      view := view.(next := next', cs := view.cs[i := done + rest[1..]]);
    }

    // Which of the strings are fixed and which are not white.
    ghost predicate Flags(fixed: set<Str>, dark: set<Str>)
      reads this, view.next.Keys
    {
      forall s :: s in view.next ==> (s.mark != White <==> s in dark) && (s.fixed <==> s in fixed)
    }

    ghost predicate Counted()
      reads this
    {
      Once(Total(view.cs)) && count == |Total(view.cs)|
    }

    // One node of the inner loop: freed if unmarked, otherwise kept and white again.
    method SweepNode(i: int, prev: Str?, node: Str, next: Str?, ghost done: seq<Str>, ghost c: seq<Str>, ghost k: nat,
                     ghost fixed: set<Str>, ghost dark: set<Str>)
      returns (prev': Str?, ghost done': seq<Str>)
      requires Shape() && 0 <= i < table.Length && Counted() && Flags(fixed, dark)
      requires k < |c| && view.cs[i] == done + c[k..] && Linked(node, view.next, c[k..]) && node.next == next
      requires if done == [] then prev == null else prev == done[|done| - 1]
      modifies this`count, this`view, table, view.next.Keys`next, node`mark
      ensures Shape() && view.next.Keys <= old(view.next.Keys) && view.index == old(view.index)
      ensures Counted() && Flags(fixed, dark - {c[k]})
      ensures done' == if c[k] in fixed + dark then done + [c[k]] else done
      ensures view.cs == old(view.cs)[i := done' + c[k + 1..]] && Linked(next, view.next, c[k + 1..])
      ensures if done' == [] then prev' == null else prev' == done'[|done'| - 1]
    {
      hide Total;
      Shift(done, c, k);
      assert node == c[k] && node in view.next;
      if !node.fixed && node.mark == White {
        DropNode(i, prev, node, next, done, c[k..]);
        return prev, done;
      } else {
        node.mark := White;
        return node, done + [c[k]];
      }
    }

    // The inner loop at node: the first k strings of what was bucket i of cs0 have been visited.
    ghost predicate Visited(cs0: seq<seq<Str>>, i: int, k: int, live: set<Str>, fixed: set<Str>, dark: set<Str>,
                            prev: Str?, node: Str?)
      reads this, table, view.next.Keys
    {
      && Shape() && Counted() && 0 <= i < |cs0| == table.Length && 0 <= k <= |cs0[i]|
      && Flags(fixed, dark - Strings(cs0[i][..k])) && Linked(node, view.next, cs0[i][k..])
      && var done := Kept(cs0[i][..k], live);
         && view.cs == cs0[i := done + cs0[i][k..]]
         && if done == [] then prev == null else prev == done[|done| - 1]
    }

    method SweepNext(prev: Str?, node: Str, ghost cs0: seq<seq<Str>>, i: int, ghost k: nat, ghost live: set<Str>,
                     ghost fixed: set<Str>, ghost dark: set<Str>)
      returns (prev': Str?, next: Str?)
      requires Visited(cs0, i, k, live, fixed, dark, prev, node) && k < |cs0[i]| && Once(Total(cs0))
      requires cs0[i][k] in live <==> cs0[i][k] in fixed + dark
      modifies this`count, this`view, table, view.next.Keys`next, node`mark
      ensures Visited(cs0, i, k + 1, live, fixed, dark, prev', next)
      ensures view.next.Keys <= old(view.next.Keys) && view.index == old(view.index)
    {
      hide Linked, Total, Buckets, Strings;
      ghost var c, d := cs0[i], dark - Strings(cs0[i][..k]);
      ghost var done', done := [], Kept(c[..k], live);
      next := node.next;
      assert c[k..] != [] && c[k..][0] == c[k] && c[k..][1..] == c[k + 1..];
      SweepStep(cs0, i, k, live, dark);
      prev', done' := SweepNode(i, prev, node, next, done, c, k, fixed, d);
      assert d - {c[k]} == dark - Strings(c[..k + 1]);
      assert done' == Kept(c[..k + 1], live);
    }

    // The inner loop of be_gcstrtab: bucket i keeps its live strings, in order and white again.
    method SweepBucket(i: int, ghost live: set<Str>, ghost fixed: set<Str>, ghost dark: set<Str>)
      requires Shape() && 0 <= i < table.Length && Counted() && Flags(fixed, dark)
      requires forall j :: 0 <= j < |view.cs[i]| ==> (view.cs[i][j] in live <==> view.cs[i][j] in fixed + dark)
      modifies this`count, this`view, table, view.next.Keys`next, view.next.Keys`mark
      ensures Shape() && view.next.Keys <= old(view.next.Keys) && view.index == old(view.index)
      ensures view.cs == old(view.cs)[i := Kept(old(view.cs)[i], live)]
      ensures Counted() && Flags(fixed, dark - Strings(old(view.cs)[i]))
    {
      ghost var cs0, k := view.cs, 0;
      var prev: Str?, node := null, table[i];
      SweepEnds(cs0, i, live);
      while node != null
        invariant Visited(cs0, i, k, live, fixed, dark, prev, node)
        invariant view.next.Keys <= old(view.next.Keys) && view.index == old(view.index)
        decreases |cs0[i]| - k
      {
        LinkedIn(node, view.next, cs0[i][k..], cs0[i][k..][0]);
        prev, node := SweepNext(prev, node, cs0, i, k, live, fixed, dark);
        k := k + 1;
      }
    }

    // The loop of be_gcstrtab over the buckets.
    method SweepBuckets(ghost live: set<Str>, ghost fixed: set<Str>, ghost dark: set<Str>)
      requires Shape() && Counted() && Flags(fixed, dark) && live == fixed + dark
      modifies this`count, this`view, table, view.next.Keys`next, view.next.Keys`mark
      ensures Shape() && view.next.Keys <= old(view.next.Keys) && view.index == old(view.index)
      ensures view.cs == KeptAll(old(view.cs), live)
      ensures Counted() && Flags(fixed, dark - StringsUpTo(old(view.cs), |old(view.cs)|))
    {
      hide Linked, Total, Strings, Kept;
      ghost var cs0 := view.cs;
      SweptEnds(cs0, live);
      for i := 0 to table.Length
        invariant Shape() && view.next.Keys <= old(view.next.Keys) && view.index == old(view.index)
        invariant Counted() && Flags(fixed, dark - StringsUpTo(cs0, i))
        invariant view.cs == Swept(cs0, i, live)
      {
        SweptMore(cs0, i, live);
        StillLive(cs0, i, live, fixed, dark);
        ghost var d := dark - StringsUpTo(cs0, i);
        SweepBucket(i, live, fixed, d);
        assert d - Strings(cs0[i]) == dark - StringsUpTo(cs0, i + 1);
      }
    }

    // The characters of the strings that were freed are no longer known.
    ghost method Forget(cs0: seq<seq<Str>>, live: set<Str>)
      requires Shape() && table.Length > 0 && PowerOfTwo(table.Length)
      requires |cs0| == table.Length && Placed(cs0, 0, table.Length, BucketOf(hash, table.Length))
      requires view.cs == KeptAll(cs0, live) && Interned(view.index, Total(cs0))
      requires Counted()
      modifies this`view
      ensures Valid() && view.cs == old(view.cs) && view.next == old(view.next)
      ensures forall s :: s in Total(view.cs) <==> s in Total(cs0) && s in live
    {
      KeptTable(cs0, live, BucketOf(hash, table.Length));
      InternedKept(view.index, Total(cs0), Total(view.cs), live);
      view := view.(index := Known(view.index, live));
    }

    lemma AllWhite(cs0: seq<seq<Str>>, live: set<Str>, fixed: set<Str>, dark: set<Str>)
      requires Shape() && view.cs == KeptAll(cs0, live) && Flags(fixed, dark - StringsUpTo(cs0, |cs0|))
      ensures forall s :: s in Total(view.cs) ==> s in view.next && s.mark == White
    {
      forall s | s in Total(view.cs) ensures s in view.next && s.mark == White {
        var b := SomeBucket(view.cs, s);
        LinkedIn(table[b], view.next, view.cs[b], s);
        KeptIn(cs0[b], live, s);
        AllStrings(cs0, |cs0|, b, s);
      }
    }

    // The sweep itself, before the table is shrunk.
    method SweepAll()
      requires Valid()
      modifies this`count, this`view, table, view.next.Keys`next, view.next.Keys`mark
      ensures Valid() && view.next.Keys <= old(view.next.Keys) && table == old(table)
      ensures forall s :: s in Total(view.cs) <==> s in old(Total(view.cs)) && s in old(view.next.Keys) && old(Marked(s))
      ensures forall s :: s in Total(view.cs) ==> s.mark == White
    {
      ghost var fixed := set s | s in view.next.Keys && s.fixed;
      ghost var dark := set s | s in view.next.Keys && s.mark != White;
      ghost var cs0 := view.cs;
      SweepBuckets(fixed + dark, fixed, dark);
      Forget(cs0, fixed + dark);
      AllWhite(cs0, fixed + dark, fixed, dark);
    }

    // be_gcstrtab: exactly the marked and the fixed strings stay, all white again.
    method Sweep()
      requires Valid()
      modifies this, table, view.next.Keys`next, view.next.Keys`mark
      ensures Valid() && (table == old(table) || fresh(table))
      ensures forall s :: s in Total(view.cs) <==>
                s in old(Total(view.cs)) && s in old(view.next.Keys) && old(s.fixed || s.mark != White)
      ensures forall s :: s in Total(view.cs) ==> s.mark == White
      ensures table.Length == if 4 * count < old(table.Length) && old(table.Length) > 8 then old(table.Length) / 2
                              else old(table.Length)
    {
      hide Linked, Total, Buckets, Placed;
      SweepAll();
      if 4 * count < table.Length && table.Length > 8 {
        PowerDoubles(table.Length);
        Resize(table.Length / 2);
      }
    }
  }
}
