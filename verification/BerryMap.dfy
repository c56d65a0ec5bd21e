/** The Berry home map (be_map.c): a chained scatter table kept in one slot array.
    A colliding entry lives in a free slot of the same array and is linked from its
    chain by a 24-bit `next` field; removal leaves that field behind. */
module BerryMap {
  import opened Wrappers

  // The value of `next` that ends a chain; slot positions lie below it.
  const LASTNODE: int := 0xFF_FFFF

  datatype Node<K, V> = Node(key: Option<K>, next: int, value: V)

  // ----- the slot array as a value -----

  predicate Occ<K, V>(s: seq<Node<K, V>>, i: int) {
    0 <= i < |s| && s[i].key.Some?
  }

  function Main<K, V>(s: seq<Node<K, V>>, home: K -> int, i: int): int
    requires Occ(s, i)
  {
    home(s[i].key.value)
  }

  // c lists, in link order, the slots of the chain whose main slot is m.
  ghost predicate ChainOk<K, V>(s: seq<Node<K, V>>, home: K -> int, m: int, c: seq<int>) {
    && (c != [] ==> c[0] == m)
    && (forall a :: 0 <= a < |c| ==> Occ(s, c[a]) && Main(s, home, c[a]) == m)
    && (forall a, b :: 0 <= a && b == a + 1 && b < |c| ==> s[c[a]].next == c[b])
    && (c != [] ==> s[c[|c| - 1]].next == LASTNODE)
    && (forall a, b :: 0 <= a < b < |c| ==> c[a] != c[b])
  }

  ghost predicate OnChain<K, V>(s: seq<Node<K, V>>, home: K -> int, chains: seq<seq<int>>, i: int)
    requires Occ(s, i)
  {
    0 <= Main(s, home, i) < |chains| && i in chains[Main(s, home, i)]
  }

  // Every occupied slot sits on the acyclic chain that starts at its main slot.
  ghost predicate Chained<K, V>(s: seq<Node<K, V>>, home: K -> int, chains: seq<seq<int>>) {
    && |chains| == |s| <= LASTNODE
    && (forall m :: 0 <= m < |s| ==> ChainOk(s, home, m, chains[m]))
    && (forall i {:trigger OnChain(s, home, chains, i)} :: Occ(s, i) ==> OnChain(s, home, chains, i))
  }

  ghost predicate LeadsOn<K, V>(s: seq<Node<K, V>>, vacated: seq<nat>, i: int)
    requires |vacated| == |s| && 0 <= i < |s|
  {
    var n := s[i].next;
    n == LASTNODE || (0 <= n < |s| && (Occ(s, n) || vacated[i] < vacated[n]))
  }

  // A vacant slot's left-over link leads to a live slot or to one vacated later.
  ghost predicate StaleOk<K, V>(s: seq<Node<K, V>>, vacated: seq<nat>, clock: nat) {
    && |vacated| == |s|
    && (forall i :: 0 <= i < |s| ==> vacated[i] <= clock)
    && (forall i {:trigger LeadsOn(s, vacated, i)} :: 0 <= i < |s| && !Occ(s, i) ==> LeadsOn(s, vacated, i))
  }

  // The occupied slots hold exactly the entries of the mathematical map M, each once:
  // place says in which slot a key sits.
  ghost predicate Represents<K, V>(s: seq<Node<K, V>>, place: map<K, int>, M: map<K, V>) {
    && (forall i {:trigger Occ(s, i)} :: Occ(s, i) ==> s[i].key.value in place && place[s[i].key.value] == i)
    && (forall k :: k in place ==> Occ(s, place[k]) && s[place[k]].key == Some(k))
    && M.Keys == place.Keys
    && (forall k :: k in place ==> M[k] == s[place[k]].value)
  }

  ghost predicate CursorOk<K, V>(s: seq<Node<K, V>>, lastfree: int) {
    -1 <= lastfree < |s| && forall i :: lastfree < i < |s| ==> Occ(s, i)
  }

  // ----- consequences -----

  lemma SubsetCard<T>(a: set<T>, b: set<T>)
    requires a <= b
    ensures |a| <= |b|
  {
    assert b == a + (b - a);
  }

  lemma {:induction false} OccupiedCard<K, V>(s: seq<Node<K, V>>, place: map<K, int>, n: nat)
    requires n <= |s| && forall i :: 0 <= i < n ==> Occ(s, i)
    requires forall i :: 0 <= i < n ==> s[i].key.Some? && s[i].key.value in place && place[s[i].key.value] == i
    ensures |place| >= n
    decreases n
  {
    if n > 0 {
      assert Occ(s, n - 1);
      var k := s[n - 1].key.value;
      var rest := place - {k};
      forall i | 0 <= i < n - 1
        ensures s[i].key.Some? && s[i].key.value in rest && rest[s[i].key.value] == i
      {
        assert Occ(s, i);
      }
      OccupiedCard(s, rest, n - 1);
      assert rest.Keys == place.Keys - {k};
      assert |rest.Keys| == |place.Keys| - 1;
    }
  }

  // An injective map into [0, n) has at most n keys.
  lemma {:induction false} PlaceCard<K>(place: map<K, int>, n: nat)
    requires forall k :: k in place ==> 0 <= place[k] < n
    requires forall k, x :: k in place && x in place && place[k] == place[x] ==> k == x
    ensures |place| <= n
  {
    if n == 0 {
      assert place == map[];
    } else if k :| k in place && place[k] == n - 1 {
      assert (place - {k}).Keys == place.Keys - {k};
      PlaceCard(place - {k}, n - 1);
    } else {
      PlaceCard(place, n - 1);
    }
  }

  lemma CountFits<K, V>(s: seq<Node<K, V>>, place: map<K, int>, M: map<K, V>)
    requires Represents(s, place, M)
    ensures |M| <= |s|
  {
    PlaceCard(place, |s|);
    assert |place.Keys| == |M.Keys|;
  }

  lemma DropCard<K, V>(m: map<K, V>, k: K)
    ensures k in m ==> |m - {k}| == |m| - 1
  {
    assert (m - {k}).Keys == m.Keys - {k};
  }

  lemma KeyIsThere<K, V>(s: seq<Node<K, V>>, place: map<K, int>, M: map<K, V>, i: int)
    requires Represents(s, place, M) && Occ(s, i)
    ensures s[i].key.value in M
  {}

  lemma LastWriteWins<K, V>(m: map<K, V>, k: K, a: V, b: V)
    ensures m[k := a][k := b] == m[k := b]
  {}

  // A table that represents fewer entries than it has slots has a vacant slot.
  lemma SomeVacant<K, V>(s: seq<Node<K, V>>, place: map<K, int>, M: map<K, V>)
    requires Represents(s, place, M) && |M| < |s|
    ensures exists i :: 0 <= i < |s| && !Occ(s, i)
  {
    assert |place.Keys| == |M.Keys|;
    if forall i :: 0 <= i < |s| ==> Occ(s, i) {
      forall i | 0 <= i < |s| ensures s[i].key.Some? && s[i].key.value in place && place[s[i].key.value] == i {
        assert Occ(s, i);
      }
      OccupiedCard(s, place, |s|);
      assert false;
    }
  }

  // An absent main entry means an absent group: what lets a lookup stop early.
  lemma GroupEmpty<K, V>(s: seq<Node<K, V>>, home: K -> int, chains: seq<seq<int>>, m: int)
    requires Chained(s, home, chains) && 0 <= m < |s|
    requires !Occ(s, m) || Main(s, home, m) != m
    ensures chains[m] == []
    ensures forall i :: Occ(s, i) ==> Main(s, home, i) != m
  {
    assert ChainOk(s, home, m, chains[m]);
    forall i | Occ(s, i) ensures Main(s, home, i) != m {
      assert OnChain(s, home, chains, i);
    }
  }

  // A chain is judged by its own slots alone.
  lemma ChainFrame<K, V>(s: seq<Node<K, V>>, s': seq<Node<K, V>>, home: K -> int, m: int, c: seq<int>)
    requires ChainOk(s, home, m, c) && |s| == |s'|
    requires forall a :: 0 <= a < |c| ==> s'[c[a]] == s[c[a]]
    ensures ChainOk(s', home, m, c)
  {}

  lemma LinkOf<K, V>(s: seq<Node<K, V>>, home: K -> int, m: int, c: seq<int>, a: int)
    requires ChainOk(s, home, m, c) && |s| <= LASTNODE && 0 <= a < |c|
    ensures Occ(s, c[a])
    ensures s[c[a]].next == LASTNODE <==> a + 1 == |c|
    ensures a + 1 < |c| ==> s[c[a]].next == c[a + 1] && Occ(s, c[a + 1]) && c[a + 1] != c[a]
  {
    if a + 1 < |c| {
      assert Occ(s, c[a + 1]);
    }
  }

  ghost predicate KeyAmong<K, V>(s: seq<Node<K, V>>, c: seq<int>, key: K)
    requires forall a :: 0 <= a < |c| ==> 0 <= c[a] < |s|
  {
    exists b :: 0 <= b < |c| && s[c[b]].key == Some(key)
  }

  // A represented key is found on the chain of its own main slot.
  lemma KeyOnChain<K, V>(s: seq<Node<K, V>>, home: K -> int, chains: seq<seq<int>>, place: map<K, int>,
                         M: map<K, V>, key: K)
    requires Chained(s, home, chains) && Represents(s, place, M) && 0 <= home(key) < |s|
    ensures forall a :: 0 <= a < |chains[home(key)]| ==> 0 <= chains[home(key)][a] < |s|
    ensures key in M ==> KeyAmong(s, chains[home(key)], key)
  {
    var c := chains[home(key)];
    assert ChainOk(s, home, home(key), c);
    forall a | 0 <= a < |c| ensures 0 <= c[a] < |s| {
      assert Occ(s, c[a]);
    }
    if key in place {
      assert OnChain(s, home, chains, place[key]);
    }
  }

  ghost predicate OnChainAt<K, V>(s: seq<Node<K, V>>, home: K -> int, chains: seq<seq<int>>, g: int, a: int, i: int) {
    0 <= g < |chains| && ChainOk(s, home, g, chains[g]) && 0 <= a < |chains[g]| && chains[g][a] == i
  }

  lemma Locate<K, V>(s: seq<Node<K, V>>, home: K -> int, chains: seq<seq<int>>, i: int) returns (g: int, a: int)
    requires Chained(s, home, chains) && Occ(s, i)
    ensures g == Main(s, home, i) && OnChainAt(s, home, chains, g, a, i)
    ensures g == i ==> a == 0
  {
    assert OnChain(s, home, chains, i);
    g := Main(s, home, i);
    assert ChainOk(s, home, g, chains[g]);
    a :| 0 <= a < |chains[g]| && chains[g][a] == i;
  }

  // ----- one lemma per way `insert` changes the array -----

  lemma FillVacant<K, V>(s: seq<Node<K, V>>, home: K -> int, chains: seq<seq<int>>, m: int, k: K)
    requires Chained(s, home, chains) && 0 <= m < |s| && !Occ(s, m) && home(k) == m
    ensures Chained(s[m := Node(Some(k), LASTNODE, s[m].value)], home, chains[m := [m]])
  {
    var s' := s[m := Node(Some(k), LASTNODE, s[m].value)];
    var chains' := chains[m := [m]];
    forall g | 0 <= g < |s'| ensures ChainOk(s', home, g, chains'[g]) {
      assert ChainOk(s, home, g, chains[g]);
    }
    forall i | Occ(s', i) ensures OnChain(s', home, chains', i) {
      if i != m {
        GroupEmpty(s, home, chains, m);
        assert Occ(s, i) && OnChain(s, home, chains, i);
      } else {
        assert chains'[m][0] == m;
      }
    }
  }

  lemma LinkSecond<K, V>(s: seq<Node<K, V>>, home: K -> int, chains: seq<seq<int>>, m: int, free: int, k: K)
    requires Chained(s, home, chains) && Occ(s, m) && Main(s, home, m) == m && home(k) == m
    requires 0 <= free < |s| && !Occ(s, free)
    requires chains[m] != []
    ensures Chained(s[free := Node(Some(k), s[m].next, s[free].value)][m := s[m].(next := free)], home,
                    chains[m := [m, free] + chains[m][1..]])
  {
    var s' := s[free := Node(Some(k), s[m].next, s[free].value)][m := s[m].(next := free)];
    var c := chains[m];
    var c' := [m, free] + c[1..];
    var chains' := chains[m := c'];
    assert ChainOk(s, home, m, c);
    assert ChainOk(s', home, m, c') by {
      forall a | 0 <= a < |c'|
        ensures Occ(s', c'[a]) && Main(s', home, c'[a]) == m
        ensures s'[c'[a]].next == if a + 1 < |c'| then c'[a + 1] else LASTNODE
      {
        if a >= 1 {
          assert s[c[a - 1]].next == if a < |c| then c[a] else LASTNODE;
          assert a + 1 < |c'| ==> c'[a + 1] == c[a];
          assert a >= 2 ==> c'[a] == c[a - 1] && c[0] != c[a - 1] && Occ(s, c[a - 1]);
        }
      }
    }
    forall g | 0 <= g < |s'| && g != m ensures ChainOk(s', home, g, chains'[g]) {
      assert ChainOk(s, home, g, chains[g]);
    }
    forall i | Occ(s', i) ensures OnChain(s', home, chains', i) {
      if i == free {
        assert c'[1] == free;
      } else {
        assert Occ(s, i) && OnChain(s, home, chains, i) && Main(s', home, i) == Main(s, home, i);
        if Main(s, home, i) == m {
          var a :| 0 <= a < |c| && c[a] == i;
          if a == 0 { assert c'[0] == i; } else { assert c'[a + 1] == i; }
        }
      }
    }
  }

  // The chain in which the entry at index a has moved to another slot.
  lemma MovedChain<K, V>(s: seq<Node<K, V>>, home: K -> int, g: int, c: seq<int>, a: int, free: int, n: Node<K, V>)
    requires ChainOk(s, home, g, c) && 0 < a < |c| && 0 <= free < |s| && !Occ(s, free)
    ensures var slot, prev := c[a], c[a - 1];
            Occ(s, slot) && Occ(s, prev) && free !in c
            && ChainOk(s[prev := s[prev].(next := free)][free := s[slot]][slot := n], home, g, c[a := free])
  {
    assert Occ(s, c[a]) && Occ(s, c[a - 1]);
    assert free !in c;
  }

  lemma Relocate<K, V>(s: seq<Node<K, V>>, home: K -> int, chains: seq<seq<int>>,
                       slot: int, g: int, a: int, free: int, k: K)
    requires Chained(s, home, chains) && Occ(s, slot) && home(k) == slot
    requires 0 <= free < |s| && !Occ(s, free)
    requires 0 <= g < |s| && g != slot && 0 < a < |chains[g]| && chains[g][a] == slot
    ensures var prev := chains[g][a - 1];
            Chained(s[prev := s[prev].(next := free)][free := s[slot]][slot := Node(Some(k), LASTNODE, s[slot].value)],
                    home, chains[g := chains[g][a := free]][slot := [slot]])
  {
    var c := chains[g];
    assert ChainOk(s, home, g, c);
    var prev := c[a - 1];
    var s' := s[prev := s[prev].(next := free)][free := s[slot]][slot := Node(Some(k), LASTNODE, s[slot].value)];
    var c' := c[a := free];
    var chains' := chains[g := c'][slot := [slot]];
    MovedChain(s, home, g, c, a, free, s'[slot]);
    assert Main(s, home, slot) == g;
    GroupEmpty(s, home, chains, slot);
    forall x | 0 <= x < |s'| && x != g && x != slot ensures ChainOk(s', home, x, chains'[x]) {
      assert ChainOk(s, home, x, chains[x]);
    }
    hide ChainOk;
    forall i | Occ(s', i) ensures OnChain(s', home, chains', i) {
      if i == free {
        assert c'[a] == free;
      } else if i == slot {
        assert chains'[slot][0] == slot;
      } else {
        assert Occ(s, i) && OnChain(s, home, chains, i);
        if Main(s, home, i) == g {
          var b :| 0 <= b < |c| && c[b] == i;
          assert c'[b] == i;
        }
      }
    }
  }

  // ----- and one per way `be_map_remove` changes it -----

  lemma UnlinkOnly<K, V>(s: seq<Node<K, V>>, home: K -> int, chains: seq<seq<int>>, m: int)
    requires Chained(s, home, chains) && 0 <= m < |s| && chains[m] == [m]
    ensures Chained(s[m := s[m].(key := None)], home, chains[m := []])
  {
    var s' := s[m := s[m].(key := None)];
    assert ChainOk(s, home, m, chains[m]);
    assert Occ(s, chains[m][0]);
    forall g | 0 <= g < |s'| && g != m ensures ChainOk(s', home, g, chains[g]) {
      assert ChainOk(s, home, g, chains[g]);
    }
    forall i | Occ(s', i) ensures OnChain(s', home, chains[m := []], i) {
      assert Occ(s, i) && OnChain(s, home, chains, i);
    }
  }

  lemma UnlinkFirst<K, V>(s: seq<Node<K, V>>, home: K -> int, chains: seq<seq<int>>, m: int)
    requires Chained(s, home, chains) && 0 <= m < |s| && |chains[m]| >= 2
    ensures var n := chains[m][1];
            0 <= n < |s| && Chained(s[m := s[n]][n := s[n].(key := None)], home, chains[m := [m] + chains[m][2..]])
  {
    var c := chains[m];
    assert ChainOk(s, home, m, c);
    var n := c[1];
    assert Occ(s, c[0]) && Occ(s, c[1]) && c[0] != c[1];
    var s' := s[m := s[n]][n := s[n].(key := None)];
    var c' := [m] + c[2..];
    var chains' := chains[m := c'];
    assert ChainOk(s', home, m, c') by {
      forall a | 0 <= a < |c'|
        ensures Occ(s', c'[a]) && Main(s', home, c'[a]) == m
        ensures s'[c'[a]].next == if a + 1 < |c'| then c'[a + 1] else LASTNODE
      {
        assert s[c[a + 1]].next == if a + 2 < |c| then c[a + 2] else LASTNODE;
        assert a + 1 < |c'| ==> c'[a + 1] == c[a + 2];
        if a >= 1 { assert c'[a] == c[a + 1] && c[1] != c[a + 1] && c[0] != c[a + 1] && Occ(s, c[a + 1]); }
      }
    }
    forall g | 0 <= g < |s'| && g != m ensures ChainOk(s', home, g, chains'[g]) {
      assert ChainOk(s, home, g, chains[g]);
    }
    forall i | Occ(s', i) ensures OnChain(s', home, chains', i) {
      assert Occ(s, i) && OnChain(s, home, chains, i);
      assert i != n && (i != m ==> Main(s', home, i) == Main(s, home, i));
      if Main(s, home, i) == m {
        var a :| 0 <= a < |c| && c[a] == i;
        if a == 0 { assert c'[0] == i; } else { assert c'[a - 1] == i; }
      }
    }
  }

  // The chain from which the entry at index a was cut out.
  lemma CutChain<K, V>(s: seq<Node<K, V>>, home: K -> int, m: int, c: seq<int>, a: int)
    requires ChainOk(s, home, m, c) && 0 < a < |c|
    ensures var p := c[a - 1];
            var q := c[a];
            Occ(s, p) && Occ(s, q) && p != q
            && ChainOk(s[p := s[p].(next := s[q].next)][q := s[q].(key := None)], home, m, c[..a] + c[a + 1..])
  {
    var p, q := c[a - 1], c[a];
    var s' := s[p := s[p].(next := s[q].next)][q := s[q].(key := None)];
    var c' := c[..a] + c[a + 1..];
    forall b | 0 <= b < |c'|
      ensures Occ(s', c'[b]) && Main(s', home, c'[b]) == m
      ensures s'[c'[b]].next == if b + 1 < |c'| then c'[b + 1] else LASTNODE
    {
      var b0 := if b < a then b else b + 1;
      assert c'[b] == c[b0] && (b0 < a ==> c[b0] != c[a]) && (a < b0 ==> c[a] != c[b0]) && Occ(s, c[b0]);
      assert s[c[b0]].next == if b0 + 1 < |c| then c[b0 + 1] else LASTNODE;
      assert s[q].next == if a + 1 < |c| then c[a + 1] else LASTNODE;
      assert (b0 < a - 1 ==> c[b0] != c[a - 1]) && (a - 1 < b0 ==> c[a - 1] != c[b0]);
      assert b + 1 < |c'| ==> c'[b + 1] == c[if b + 1 < a then b + 1 else b + 2];
    }
    forall b, b' | 0 <= b < b' < |c'| ensures c'[b] != c'[b'] {
      assert c'[b] == c[if b < a then b else b + 1] && c'[b'] == c[if b' < a then b' else b' + 1];
    }
    assert c'[0] == c[0];
    assert ChainOk(s', home, m, c');
  }

  lemma UnlinkLater<K, V>(s: seq<Node<K, V>>, home: K -> int, chains: seq<seq<int>>, m: int, a: int)
    requires Chained(s, home, chains) && 0 <= m < |s| && 0 < a < |chains[m]|
    ensures var p := chains[m][a - 1];
            var q := chains[m][a];
            Occ(s, p) && Occ(s, q) && p != q
            && Chained(s[p := s[p].(next := s[q].next)][q := s[q].(key := None)], home,
                       chains[m := chains[m][..a] + chains[m][a + 1..]])
  {
    var c := chains[m];
    assert ChainOk(s, home, m, c);
    CutChain(s, home, m, c, a);
    var p, q := c[a - 1], c[a];
    var s' := s[p := s[p].(next := s[q].next)][q := s[q].(key := None)];
    var c' := c[..a] + c[a + 1..];
    var chains' := chains[m := c'];
    forall g | 0 <= g < |s'| && g != m ensures ChainOk(s', home, g, chains'[g]) {
      ChainFrame(s, s', home, g, chains[g]);
    }
    forall i | Occ(s', i) ensures OnChain(s', home, chains', i) {
      assert Occ(s, i) && OnChain(s, home, chains, i) && Main(s', home, i) == Main(s, home, i);
      if Main(s, home, i) == m {
        var b :| 0 <= b < |c| && c[b] == i;
        if b < a { assert c'[b] == i; } else { assert c'[b - 1] == i; }
      }
    }
  }

  // ----- left-over links and represented entries across a change -----

  lemma StaleAfterFill<K, V>(s: seq<Node<K, V>>, s': seq<Node<K, V>>, vacated: seq<nat>, clock: nat)
    requires StaleOk(s, vacated, clock) && |s'| == |s|
    requires forall i :: Occ(s, i) ==> Occ(s', i)
    requires forall i :: 0 <= i < |s| && !Occ(s', i) ==> s'[i] == s[i]
    ensures StaleOk(s', vacated, clock)
  {
    forall i | 0 <= i < |s'| && !Occ(s', i) ensures LeadsOn(s', vacated, i) {
      assert !Occ(s, i) && LeadsOn(s, vacated, i);
    }
  }

  lemma StaleAfterVacate<K, V>(s: seq<Node<K, V>>, s': seq<Node<K, V>>, vacated: seq<nat>, clock: nat, v: int)
    requires StaleOk(s, vacated, clock) && |s'| == |s| && 0 <= v < |s| && Occ(s, v) && !Occ(s', v)
    requires forall i :: 0 <= i < |s| && i != v ==> (Occ(s', i) <==> Occ(s, i))
    requires forall i :: 0 <= i < |s| && i != v && !Occ(s, i) ==> s'[i] == s[i]
    requires s'[v].next == LASTNODE || Occ(s', s'[v].next)
    ensures StaleOk(s', vacated[v := clock + 1], clock + 1)
  {
    var vacated' := vacated[v := clock + 1];
    forall i | 0 <= i < |s'| && !Occ(s', i) ensures LeadsOn(s', vacated', i) {
      assert i != v ==> !Occ(s, i) && LeadsOn(s, vacated, i);
    }
  }

  lemma EntryAdded<K, V>(s: seq<Node<K, V>>, s': seq<Node<K, V>>, place: map<K, int>, M: map<K, V>, r: int, k: K)
    requires Represents(s, place, M) && |s'| == |s| && 0 <= r < |s| && !Occ(s, r) && k !in M
    requires s'[r].key == Some(k)
    requires forall i :: 0 <= i < |s| && i != r ==> s'[i].key == s[i].key && s'[i].value == s[i].value
    ensures Represents(s', place[k := r], M[k := s'[r].value])
  {
    forall i | Occ(s', i) && i != r ensures Occ(s, i) {}
  }

  lemma EntryMoved<K, V>(s: seq<Node<K, V>>, s': seq<Node<K, V>>, place: map<K, int>, M: map<K, V>, from: int, to: int)
    requires Represents(s, place, M) && |s'| == |s| && Occ(s, from) && 0 <= to < |s| && !Occ(s, to)
    requires !Occ(s', from) && s'[to].key == s[from].key && s'[to].value == s[from].value
    requires forall i :: 0 <= i < |s| && i != from && i != to ==> s'[i].key == s[i].key && s'[i].value == s[i].value
    ensures Represents(s', place[s[from].key.value := to], M)
  {
    forall i | Occ(s', i) && i != to ensures Occ(s, i) {}
  }

  lemma EntryDropped<K, V>(s: seq<Node<K, V>>, s': seq<Node<K, V>>, place: map<K, int>, M: map<K, V>, r: int)
    requires Represents(s, place, M) && |s'| == |s| && Occ(s, r) && !Occ(s', r)
    requires forall i :: 0 <= i < |s| && i != r ==> s'[i].key == s[i].key && s'[i].value == s[i].value
    ensures s[r].key.value in M
    ensures Represents(s', place - {s[r].key.value}, M - {s[r].key.value})
  {
    forall i | Occ(s', i) ensures Occ(s, i) {}
  }

  // ----- iteration -----

  // The entries that repeated be_map_next calls deliver from slot i on.
  function Visited<K, V>(s: seq<Node<K, V>>, i: nat): seq<(K, V)>
    requires i <= |s|
    decreases |s| - i
  {
    if i == |s| then []
    else (if Occ(s, i) then [(s[i].key.value, s[i].value)] else []) + Visited(s, i + 1)
  }

  ghost predicate EntryFrom<K, V>(s: seq<Node<K, V>>, i: nat, e: (K, V)) {
    exists j :: i <= j && Occ(s, j) && e == (s[j].key.value, s[j].value)
  }

  lemma {:induction false} VisitedSound<K, V>(s: seq<Node<K, V>>, i: nat)
    requires i <= |s|
    ensures forall a :: 0 <= a < |Visited(s, i)| ==> EntryFrom(s, i, Visited(s, i)[a])
    decreases |s| - i
  {
    if i < |s| {
      VisitedSound(s, i + 1);
      var rest := Visited(s, i + 1);
      var here := if Occ(s, i) then [(s[i].key.value, s[i].value)] else [];
      assert Visited(s, i) == here + rest;
      forall a | 0 <= a < |here + rest| ensures EntryFrom(s, i, (here + rest)[a]) {
        if a >= |here| {
          assert (here + rest)[a] == rest[a - |here|] && EntryFrom(s, i + 1, rest[a - |here|]);
        }
      }
    }
  }

  lemma {:induction false} VisitedComplete<K, V>(s: seq<Node<K, V>>, i: nat, j: int)
    requires i <= |s| && i <= j && Occ(s, j)
    ensures (s[j].key.value, s[j].value) in Visited(s, i)
    decreases |s| - i
  {
    if i < j {
      VisitedComplete(s, i + 1, j);
    } else {
      assert Visited(s, i)[0] == (s[j].key.value, s[j].value);
    }
  }

  lemma {:induction false} VisitedDistinct<K, V>(s: seq<Node<K, V>>, place: map<K, int>, M: map<K, V>, i: nat)
    requires i <= |s| && Represents(s, place, M)
    ensures forall a, b :: 0 <= a < b < |Visited(s, i)| ==> Visited(s, i)[a].0 != Visited(s, i)[b].0
    decreases |s| - i
  {
    if i < |s| {
      VisitedDistinct(s, place, M, i + 1);
      VisitedSound(s, i + 1);
      if Occ(s, i) {
        var rest := Visited(s, i + 1);
        forall b | 0 <= b < |rest| ensures s[i].key.value != rest[b].0 {
          assert EntryFrom(s, i + 1, rest[b]);
        }
      }
    }
  }

  // be_map_next delivers every entry of the map exactly once and nothing else.
  lemma VisitsEachEntryOnce<K, V>(s: seq<Node<K, V>>, place: map<K, int>, M: map<K, V>)
    requires Represents(s, place, M)
    ensures forall a, b :: 0 <= a < b < |Visited(s, 0)| ==> Visited(s, 0)[a].0 != Visited(s, 0)[b].0
    ensures forall k, v :: (k, v) in Visited(s, 0) <==> k in M && M[k] == v
  {
    VisitedDistinct(s, place, M, 0);
    VisitedSound(s, 0);
    var all := Visited(s, 0);
    forall k, v ensures (k, v) in all <==> k in M && M[k] == v {
      if (k, v) in all {
        var a :| 0 <= a < |all| && all[a] == (k, v);
        assert EntryFrom(s, 0, all[a]);
        var j :| 0 <= j && Occ(s, j) && all[a] == (s[j].key.value, s[j].value);
      }
      if k in M && M[k] == v {
        var i := place[k];
        VisitedComplete(s, 0, i);
      }
    }
  }

  // Between two occupied slots that follow each other, nothing is delivered.
  lemma {:induction false} VisitedSkips<K, V>(s: seq<Node<K, V>>, i: nat, j: nat)
    requires i <= j <= |s| && forall x :: i <= x < j ==> !Occ(s, x)
    ensures Visited(s, i) == Visited(s, j)
    decreases j - i
  {
    if i < j {
      assert !Occ(s, i);
      VisitedSkips(s, i + 1, j);
    }
  }

  lemma ValueSetChained<K, V>(s: seq<Node<K, V>>, home: K -> int, chains: seq<seq<int>>, r: int, v: V)
    requires Chained(s, home, chains) && Occ(s, r)
    ensures Chained(s[r := s[r].(value := v)], home, chains)
  {
    var s' := s[r := s[r].(value := v)];
    forall g | 0 <= g < |s'| ensures ChainOk(s', home, g, chains[g]) {
      assert ChainOk(s, home, g, chains[g]);
    }
    forall i | Occ(s', i) ensures OnChain(s', home, chains, i) {
      assert Occ(s, i) && OnChain(s, home, chains, i);
    }
  }

  lemma ValueSetRepresents<K, V>(s: seq<Node<K, V>>, place: map<K, int>, M: map<K, V>, r: int, v: V)
    requires Represents(s, place, M) && Occ(s, r)
    ensures Represents(s[r := s[r].(value := v)], place, M[s[r].key.value := v])
  {
    var s' := s[r := s[r].(value := v)];
    forall i | Occ(s', i) ensures Occ(s, i) {}
    assert M[s[r].key.value := v].Keys == M.Keys + {s[r].key.value} == place.Keys;
  }

  // ----- the whole invariant -----

  // What a table stands for, beside its slots and its free-slot cursor.
  datatype View<!K, V> = View(
    image: seq<Node<K, V>>,   // the slots as a value
    M: map<K, V>,             // the mathematical map
    place: map<K, int>,       // the slot of each key
    home: K -> int,           // the main slot of each key at the present size
    chains: seq<seq<int>>,    // the chain that starts at each slot
    vacated: seq<nat>,        // when each slot was last vacated
    clock: nat)

  ghost predicate TableOk<K, V>(v: View<K, V>, lastfree: int) {
    && Chained(v.image, v.home, v.chains)
    && StaleOk(v.image, v.vacated, v.clock)
    && Represents(v.image, v.place, v.M)
    && CursorOk(v.image, lastfree)
  }

  // ----- the three cases of `insert` -----

  lemma PlacedVacant<K, V>(v: View<K, V>, lastfree: int, m: int, k: K) returns (v': View<K, V>)
    requires TableOk(v, lastfree) && k !in v.M
    requires 0 <= m < |v.image| && !Occ(v.image, m) && v.home(k) == m
    ensures v'.image == v.image[m := Node(Some(k), LASTNODE, v.image[m].value)]
    ensures TableOk(v', lastfree) && v'.home == v.home && v'.M == v.M[k := v.image[m].value]
  {
    var s := v.image;
    var s' := s[m := Node(Some(k), LASTNODE, s[m].value)];
    FillVacant(s, v.home, v.chains, m, k);
    StaleAfterFill(s, s', v.vacated, v.clock);
    EntryAdded(s, s', v.place, v.M, m, k);
    v' := v.(image := s', chains := v.chains[m := [m]], place := v.place[k := m], M := v.M[k := s[m].value]);
  }

  lemma PlacedSecond<K, V>(v: View<K, V>, lastfree: int, m: int, free: int, k: K) returns (v': View<K, V>)
    requires TableOk(v, lastfree) && k !in v.M
    requires Occ(v.image, m) && Main(v.image, v.home, m) == m && v.home(k) == m
    requires 0 <= free < |v.image| && !Occ(v.image, free)
    ensures var s := v.image;
            v'.image == s[free := Node(Some(k), s[m].next, s[free].value)][m := s[m].(next := free)]
    ensures TableOk(v', lastfree) && v'.home == v.home && v'.M == v.M[k := v.image[free].value]
  {
    var s := v.image;
    assert OnChain(s, v.home, v.chains, m);
    var s' := s[free := Node(Some(k), s[m].next, s[free].value)][m := s[m].(next := free)];
    LinkSecond(s, v.home, v.chains, m, free, k);
    StaleAfterFill(s, s', v.vacated, v.clock);
    EntryAdded(s, s', v.place, v.M, free, k);
    v' := v.(image := s', chains := v.chains[m := [m, free] + v.chains[m][1..]],
             place := v.place[k := free], M := v.M[k := s[free].value]);
  }

  lemma PlacedByMoving<K, V>(v: View<K, V>, lastfree: int, slot: int, g: int, a: int, free: int, k: K)
    returns (v': View<K, V>)
    requires TableOk(v, lastfree) && k !in v.M
    requires Occ(v.image, slot) && v.home(k) == slot && 0 <= free < |v.image| && !Occ(v.image, free)
    requires 0 <= g < |v.image| && g != slot && 0 < a < |v.chains[g]| && v.chains[g][a] == slot
    ensures var s, prev := v.image, v.chains[g][a - 1];
            Occ(s, prev) && v'.image
            == s[prev := s[prev].(next := free)][free := s[slot]][slot := Node(Some(k), LASTNODE, s[slot].value)]
    ensures TableOk(v', lastfree) && v'.home == v.home && v'.M == v.M[k := v.image[slot].value]
  {
    hide StaleOk, Represents;
    var s := v.image;
    assert ChainOk(s, v.home, g, v.chains[g]);
    var prev := v.chains[g][a - 1];
    var s' := s[prev := s[prev].(next := free)][free := s[slot]][slot := Node(Some(k), LASTNODE, s[slot].value)];
    Relocate(s, v.home, v.chains, slot, g, a, free, k);
    StaleAfterFill(s, s', v.vacated, v.clock);
    var moved := s[free := s[slot]][slot := s[slot].(key := None)];
    EntryMoved(s, moved, v.place, v.M, slot, free);
    EntryAdded(moved, s', v.place[s[slot].key.value := free], v.M, slot, k);
    v' := v.(image := s', chains := v.chains[g := v.chains[g][a := free]][slot := [slot]],
             place := v.place[s[slot].key.value := free][k := slot], M := v.M[k := s[slot].value]);
  }

  // ----- the three cases of `be_map_remove`, and a value written -----

  lemma RemovedOnly<K, V>(v: View<K, V>, lastfree: int, m: int) returns (v': View<K, V>)
    requires TableOk(v, lastfree) && Occ(v.image, m) && Main(v.image, v.home, m) == m
    requires v.image[m].next == LASTNODE
    ensures v'.image == v.image[m := v.image[m].(key := None)] && v'.home == v.home
    ensures TableOk(v', if lastfree < m then m else lastfree) && v'.M == v.M - {v.image[m].key.value}
  {
    var s := v.image;
    var s' := s[m := s[m].(key := None)];
    assert OnChain(s, v.home, v.chains, m) && ChainOk(s, v.home, m, v.chains[m]);
    LinkOf(s, v.home, m, v.chains[m], 0);
    assert v.chains[m] == [m];
    UnlinkOnly(s, v.home, v.chains, m);
    StaleAfterVacate(s, s', v.vacated, v.clock, m);
    EntryDropped(s, s', v.place, v.M, m);
    v' := v.(image := s', chains := v.chains[m := []], place := v.place - {s[m].key.value},
             M := v.M - {s[m].key.value}, vacated := v.vacated[m := v.clock + 1], clock := v.clock + 1);
  }

  lemma StaleSize<K, V>(s: seq<Node<K, V>>, vacated: seq<nat>, clock: nat)
    requires StaleOk(s, vacated, clock)
    ensures |vacated| == |s|
  {}

  // The second slot of a chain with more than one.
  lemma FirstTwo<K, V>(s: seq<Node<K, V>>, home: K -> int, chains: seq<seq<int>>, m: int)
    requires Chained(s, home, chains) && Occ(s, m) && Main(s, home, m) == m && s[m].next != LASTNODE
    ensures |chains| == |s| && |chains[m]| >= 2 && chains[m][0] == m && chains[m][1] == s[m].next
    ensures var n := s[m].next;
            Occ(s, n) && n != m && (s[n].next == LASTNODE || (Occ(s, s[n].next) && s[n].next != n && s[n].next != m))
  {
    var c := chains[m];
    assert OnChain(s, home, chains, m) && ChainOk(s, home, m, c);
    LinkOf(s, home, m, c, 0);
    LinkOf(s, home, m, c, 1);
    assert |c| > 2 ==> c[0] != c[2];
  }

  lemma RemovedFirst<K, V>(v: View<K, V>, lastfree: int, m: int) returns (v': View<K, V>)
    requires TableOk(v, lastfree) && Occ(v.image, m) && Main(v.image, v.home, m) == m
    requires v.image[m].next != LASTNODE
    ensures var s, n := v.image, v.image[m].next;
            Occ(s, n) && n != m && v'.image == s[m := s[n]][n := s[n].(key := None)] && v'.home == v.home
    ensures var n := v.image[m].next;
            TableOk(v', if lastfree < n then n else lastfree) && v'.M == v.M - {v.image[m].key.value}
  {
    hide StaleOk, Represents, Chained, OnChain, ChainOk;
    var s := v.image;
    StaleSize(s, v.vacated, v.clock);
    FirstTwo(s, v.home, v.chains, m);
    var c := v.chains[m];
    var n := s[m].next;
    var s' := s[m := s[n]][n := s[n].(key := None)];
    UnlinkFirst(s, v.home, v.chains, m);
    StaleAfterVacate(s, s', v.vacated, v.clock, n);
    var dropped := s[m := s[m].(key := None)];
    EntryDropped(s, dropped, v.place, v.M, m);
    EntryMoved(dropped, s', v.place - {s[m].key.value}, v.M - {s[m].key.value}, n, m);
    v' := v.(image := s', chains := v.chains[m := [m] + c[2..]],
             place := (v.place - {s[m].key.value})[s[n].key.value := m], M := v.M - {s[m].key.value},
             vacated := v.vacated[n := v.clock + 1], clock := v.clock + 1);
  }

  lemma RemovedLater<K, V>(v: View<K, V>, lastfree: int, m: int, a: int) returns (v': View<K, V>)
    requires TableOk(v, lastfree) && 0 <= m < |v.image| && 0 < a < |v.chains[m]|
    ensures var s, p, q := v.image, v.chains[m][a - 1], v.chains[m][a];
            Occ(s, p) && Occ(s, q) && p != q && v'.home == v.home
            && v'.image == s[p := s[p].(next := s[q].next)][q := s[q].(key := None)]
            && TableOk(v', if lastfree < q then q else lastfree) && v'.M == v.M - {s[q].key.value}
  {
    assert |v.vacated| == |v.image|;
    hide StaleOk, Represents;
    var s, c := v.image, v.chains[m];
    assert ChainOk(s, v.home, m, c);
    UnlinkLater(s, v.home, v.chains, m, a);
    var p, q := c[a - 1], c[a];
    var s' := s[p := s[p].(next := s[q].next)][q := s[q].(key := None)];
    LinkOf(s, v.home, m, c, a);
    LinkOf(s, v.home, m, c, a - 1);
    StaleAfterVacate(s, s', v.vacated, v.clock, q);
    EntryDropped(s, s', v.place, v.M, q);
    v' := v.(image := s', chains := v.chains[m := c[..a] + c[a + 1..]], place := v.place - {s[q].key.value},
             M := v.M - {s[q].key.value}, vacated := v.vacated[q := v.clock + 1], clock := v.clock + 1);
  }

  lemma ValueWritten<K, V>(v: View<K, V>, lastfree: int, r: int, x: V) returns (v': View<K, V>)
    requires TableOk(v, lastfree) && Occ(v.image, r)
    ensures v'.image == v.image[r := v.image[r].(value := x)] && v'.home == v.home
    ensures TableOk(v', lastfree) && v'.M == v.M[v.image[r].key.value := x] && |v'.M| == |v.M|
  {
    var s' := v.image[r := v.image[r].(value := x)];
    ValueSetChained(v.image, v.home, v.chains, r, x);
    ValueSetRepresents(v.image, v.place, v.M, r, x);
    StaleAfterFill(v.image, s', v.vacated, v.clock);
    v' := v.(image := s', M := v.M[v.image[r].key.value := x]);
    assert v'.M.Keys == v.M.Keys;
    assert |v'.M.Keys| == |v'.M|;
  }

  // hash2slot: the main slot of a key in a table of the given size.
  function HashToSlot<K>(hash: K -> nat, key: K, size: nat): (r: nat)
    requires size > 0
    ensures r < size
  {
    hash(key) % size
  }

  ghost predicate HomeOk<K(!new)>(home: K -> int, hash: K -> nat, size: nat)
    requires size > 0
  {
    forall k {:trigger HashToSlot(hash, k, size)} :: home(k) == HashToSlot(hash, k, size)
  }

  // A freshly allocated table.
  ghost function Blank<K(!new), V>(hash: K -> nat, size: nat, blank: V): (v: View<K, V>)
    requires 0 < size <= LASTNODE
    ensures TableOk(v, size - 1) && HomeOk(v.home, hash, size) && v.M == map[]
    ensures |v.image| == size && forall i :: 0 <= i < size ==> v.image[i] == Node(None, LASTNODE, blank)
  {
    View(seq(size, i => Node(None, LASTNODE, blank)), map[], map[], k => HashToSlot(hash, k, size),
         seq(size, i => []), seq(size, i => 0), 0)
  }

  // M holds exactly the entries found in the first n slots of a table that represents target.
  ghost predicate Copied<K, V>(s: seq<Node<K, V>>, target: map<K, V>, n: int, M: map<K, V>) {
    && (forall k :: k in M ==> k in target && M[k] == target[k])
    && (forall i :: 0 <= i < n && Occ(s, i) ==> s[i].key.value in M)
    && (forall k :: k in M ==> exists i :: 0 <= i < n && Occ(s, i) && s[i].key == Some(k))
  }

  lemma CopyNext<K, V>(s: seq<Node<K, V>>, place: map<K, int>, target: map<K, V>, n: int, M: map<K, V>)
    requires Represents(s, place, target) && 0 <= n < |s| && Copied(s, target, n, M)
    ensures !Occ(s, n) ==> Copied(s, target, n + 1, M)
    ensures Occ(s, n) ==> s[n].key.value !in M && |M| < |target|
                          && Copied(s, target, n + 1, M[s[n].key.value := s[n].value])
  {
    if Occ(s, n) {
      var k := s[n].key.value;
      forall i | 0 <= i < n && Occ(s, i) ensures s[i].key != Some(k) {}
      SubsetCard(M.Keys + {k}, target.Keys);
      var M' := M[k := s[n].value];
      forall x | x in M' ensures exists i :: 0 <= i < n + 1 && Occ(s, i) && s[i].key == Some(x) {
        if x == k {
          assert Occ(s, n);
        } else {
          var i :| 0 <= i < n && Occ(s, i) && s[i].key == Some(x);
        }
      }
    } else {
      forall x | x in M ensures exists i :: 0 <= i < n + 1 && Occ(s, i) && s[i].key == Some(x) {
        var i :| 0 <= i < n && Occ(s, i) && s[i].key == Some(x);
      }
    }
  }

  lemma CopiedAll<K, V>(s: seq<Node<K, V>>, place: map<K, int>, target: map<K, V>, M: map<K, V>)
    requires Represents(s, place, target) && Copied(s, target, |s|, M)
    ensures M == target
  {
    forall k | k in target ensures k in M {
      assert Occ(s, place[k]);
    }
  }

  // ----- the map object -----

  class ScatterMap<K(==, !new), V> {
    const hash: K -> nat
    const blank: V              // what a fresh slot's value field happens to hold
    var slots: array<Node<K, V>>
    var lastfree: int           // position of the free-slot cursor; -1 is one below the array
    var count: int
    ghost var view: View<K, V>

    ghost predicate Table()
      reads this, slots
    {
      && 0 < slots.Length
      && slots[..] == view.image
      && HomeOk(view.home, hash, slots.Length)
      && TableOk(view, lastfree)
    }

    ghost predicate Valid()
      reads this, slots
    {
      Table() && count == |view.M|
    }

    // The slots with a key are the entries of the map: one for each key, with its value.
    lemma Entries(i: int)
      requires Table() && 0 <= i < slots.Length && slots[i].key.Some?
      ensures var key := slots[i].key.value;
              && key in view.M && view.M[key] == slots[i].value
              && forall j :: 0 <= j < slots.Length && slots[j].key == Some(key) ==> j == i
    {
      hide Chained, StaleOk, CursorOk, HomeOk;
      assert Occ(view.image, i);
      forall j | 0 <= j < slots.Length && slots[j].key == slots[i].key ensures j == i {
        assert Occ(view.image, j);
      }
    }

    lemma HasSlot(key: K) returns (i: int)
      requires Table() && key in view.M
      ensures 0 <= i < slots.Length && slots[i].key == Some(key) && slots[i].value == view.M[key]
    {
      hide Chained, StaleOk, CursorOk, HomeOk;
      i := view.place[key];
      assert Occ(view.image, i);
    }

    // An entry is reached from the slot its hash selects, link by link.
    lemma Reached(i: int) returns (path: seq<int>)
      requires Table() && 0 <= i < slots.Length && slots[i].key.Some?
      ensures path != [] && path[0] == hash(slots[i].key.value) % slots.Length && path[|path| - 1] == i
      ensures forall a :: 0 <= a < |path| ==> 0 <= path[a] < slots.Length && slots[path[a]].key.Some?
      ensures forall a, b :: 0 <= a && b == a + 1 && b < |path| ==> slots[path[a]].next == path[b]
    {
      hide StaleOk, CursorOk, Represents;
      var g, n := Locate(view.image, view.home, view.chains, i);
      path := view.chains[g][..n + 1];
      assert g == HashToSlot(hash, slots[i].key.value, slots.Length);
      forall a | 0 <= a < |path| ensures 0 <= path[a] < slots.Length && slots[path[a]].key.Some? {
        assert Occ(view.image, view.chains[g][a]);
      }
    }

    // be_map_new
    constructor (hash: K -> nat, blank: V)
      ensures Valid() && fresh(slots) && view.M == map[] && slots.Length == 2
      ensures this.hash == hash
    {
      this.hash, this.blank := hash, blank;
      slots := new Node<K, V>[2](_ => Node(None, LASTNODE, blank));
      lastfree, count := 1, 0;
      view := View([Node(None, LASTNODE, blank), Node(None, LASTNODE, blank)], map[], map[],
                   k => HashToSlot(hash, k, 2), [[], []], [0, 0], 0);
    }

    method FindPrev(list: int, slot: int) returns (prev: int, ghost a: int)
      requires Table() && 0 <= list < slots.Length && 0 <= slot < slots.Length && view.chains[list] != []
      ensures prev == -1 <==> slot !in view.chains[list][1..]
      ensures prev != -1 ==>
                0 < a < |view.chains[list]| && view.chains[list][a] == slot && view.chains[list][a - 1] == prev
    {
      ghost var s, c := view.image, view.chains[list];
      assert ChainOk(s, view.home, list, c);
      prev, a := list, 0;
      var n := slots[prev].next;
      while n != slot && n != LASTNODE
        invariant 0 <= a < |c| && c[a] == prev && slot !in c[1..a + 1]
        invariant Occ(s, prev) && n == slots[prev].next
        decreases |c| - a
      {
        assert c[a + 1] == n;
        assert c[1..a + 2] == c[1..a + 1] + [n];
        prev, a := n, a + 1;
        n := slots[prev].next;
      }
      assert a + 1 < |c| ==> c[a + 1] == n && Occ(s, n);
      if n == slot {
        assert c[1..][a] == slot;
        a := a + 1;
      } else {
        assert c[1..a + 1] == c[1..];
        prev := -1;
      }
    }

    method NextFree() returns (free: int)
      requires slots[..] == view.image && CursorOk(view.image, lastfree)
      modifies this`lastfree
      ensures CursorOk(view.image, lastfree)
      ensures free == -1 <==> forall i :: 0 <= i < slots.Length ==> Occ(view.image, i)
      ensures free != -1 ==> 0 <= free < slots.Length && !Occ(view.image, free)
    {
      while lastfree >= 0
        invariant CursorOk(view.image, lastfree)
      {
        if slots[lastfree].key.None? {
          assert !Occ(view.image, lastfree);
          return lastfree;
        }
        assert Occ(view.image, lastfree);
        lastfree := lastfree - 1;
      }
      free := -1;
    }

    // The static `insert`: gives the key a node, leaving the value field as it was.
    method Place(key: K) returns (r: int)
      requires Table() && key !in view.M && |view.M| < slots.Length
      modifies this`lastfree, this`view, slots
      ensures Table() && 0 <= r < slots.Length && slots[r].key == Some(key)
      ensures view.M == old(view.M)[key := slots[r].value]
    {
      hide StaleOk, Represents;
      var slot := HashToSlot(hash, key, slots.Length);
      if slots[slot].key.None? {
        ghost var v' := PlacedVacant(view, lastfree, slot, key);
        slots[slot] := Node(Some(key), LASTNODE, slots[slot].value);
        r, view := slot, v';
      } else {
        assert Occ(view.image, slot) && OnChain(view.image, view.home, view.chains, slot);
        var mainslot := HashToSlot(hash, slots[slot].key.value, slots.Length);
        SomeVacant(view.image, view.place, view.M);
        var free := NextFree();
        if mainslot == slot {
          ghost var v' := PlacedSecond(view, lastfree, slot, free, key);
          slots[free] := Node(Some(key), slots[slot].next, slots[free].value);
          slots[slot] := slots[slot].(next := free);
          r, view := free, v';
        } else {
          ghost var c := view.chains[mainslot];
          assert ChainOk(view.image, view.home, mainslot, c);
          ghost var b :| 0 <= b < |c| && c[b] == slot;
          assert c[1..][b - 1] == slot;
          var prev, a := FindPrev(mainslot, slot);
          ghost var v' := PlacedByMoving(view, lastfree, slot, mainslot, a, free, key);
          slots[prev] := slots[prev].(next := free);
          slots[free] := slots[slot];
          slots[slot] := Node(Some(key), LASTNODE, slots[slot].value);
          r, view := slot, v';
        }
      }
    }

    // The static `find`.
    method Find(key: K) returns (r: Option<int>)
      requires Table()
      ensures r.Some? ==> 0 <= r.value < slots.Length && slots[r.value].key == Some(key) && key in view.M
      ensures r.Some? ==> slots[r.value].value == view.M[key]
      ensures r.None? ==> key !in view.M
    {
      ghost var s, home, chains := view.image, view.home, view.chains;
      var slot := HashToSlot(hash, key, slots.Length);
      KeyOnChain(s, home, chains, view.place, view.M, key);
      if slots[slot].key.None? {
        GroupEmpty(s, home, chains, slot);
        return None;
      }
      assert OnChain(s, home, chains, slot);
      ghost var g, main := Main(s, home, slot), slot;
      ghost var c := chains[g];
      assert ChainOk(s, home, g, c);
      ghost var a: int :| 0 <= a < |c| && c[a] == slot;
      if g != main {
        GroupEmpty(s, home, chains, main);
      } else {
        assert a == 0;
      }
      while slots[slot].key != Some(key)
        invariant 0 <= a < |c| && c[a] == slot && Occ(s, slot)
        invariant g == main ==> forall b :: 0 <= b < a ==> s[c[b]].key != Some(key)
        decreases |c| - a
      {
        LinkOf(s, home, g, c, a);
        var n := slots[slot].next;
        if n == LASTNODE {
          return None;
        }
        slot, a := n, a + 1;
      }
      assert Occ(s, slot);
      return Some(slot);
    }

    // One step of the rehash loop of Resize: node is slot i of the table that `was` describes.
    method Rehash(node: Node<K, V>, ghost was: View<K, V>, ghost i: int)
      requires Table() && 0 <= i < |was.image| && was.image[i] == node
      requires Represents(was.image, was.place, was.M) && Copied(was.image, was.M, i, view.M)
      requires |was.M| <= slots.Length
      modifies this`lastfree, this`view, slots
      ensures Table() && Copied(was.image, was.M, i + 1, view.M)
    {
      CopyNext(was.image, was.place, was.M, i, view.M);
      if node.key.Some? {
        assert Occ(was.image, i);
        ghost var M := view.M;
        var newslot := Place(node.key.value);
        LastWriteWins(M, node.key.value, slots[newslot].value, node.value);
        WriteValue(newslot, node.value);
      }
    }

    method Resize(size: nat)
      requires Valid() && 0 < size <= LASTNODE
      modifies this, slots
      ensures Valid() && view.M == old(view.M) && count == old(count)
      ensures if size < old(count) then slots == old(slots) else fresh(slots) && slots.Length == size
    {
      hide Chained, StaleOk, CursorOk, HomeOk, Represents;
      if size < count {
        return;
      }
      var oldslots := slots;
      ghost var was := view;
      slots := new Node<K, V>[size](_ => Node(None, LASTNODE, blank));
      lastfree := size - 1;
      view := Blank(hash, size, blank);
      var i := 0;
      while i < oldslots.Length
        invariant 0 <= i <= oldslots.Length
        invariant Table() && fresh(slots) && slots.Length == size && slots != oldslots
        invariant oldslots[..] == was.image && count == old(count)
        invariant Copied(was.image, was.M, i, view.M)
      {
        Rehash(oldslots[i], was, i);
        i := i + 1;
      }
      CopiedAll(was.image, was.place, was.M, view.M);
    }

    method WriteValue(r: int, x: V)
      requires Table() && 0 <= r < slots.Length && slots[r].key.Some?
      modifies this`view, slots
      ensures Table() && slots[r].key == old(slots[r].key) && slots[r].value == x
      ensures view.M == old(view.M)[slots[r].key.value := x]
      ensures |view.M| == |old(view.M)|
    {
      assert Occ(view.image, r);
      ghost var v' := ValueWritten(view, lastfree, r, x);
      slots[r] := slots[r].(value := x);
      view := v';
    }

    // The first half of be_map_insert: the entry of the key, found or made.
    // nextSize is be_nextsize(size).
    method Entry(key: K, nextSize: nat) returns (r: int)
      requires Valid()
      requires key !in view.M && count >= slots.Length ==> slots.Length < nextSize <= LASTNODE
      modifies this, slots
      ensures Valid() && (slots == old(slots) || fresh(slots))
      ensures 0 <= r < slots.Length && slots[r].key == Some(key)
      ensures view.M == old(view.M)[key := slots[r].value]
      ensures key in old(view.M) ==> view.M == old(view.M)
      ensures slots.Length == if key !in old(view.M) && old(count) >= old(slots.Length) then nextSize else old(slots.Length)
    {
      var entry := Find(key);
      if entry.Some? {
        r := entry.value;
        assert Occ(view.image, r);
        return;
      }
      CountFits(view.image, view.place, view.M);
      if count >= slots.Length {
        Resize(nextSize);
      }
      r := Place(key);
      count := count + 1;
    }

    // be_map_insert; without a value the entry keeps whatever its value field held,
    // for the caller to write.
    method Insert(key: K, value: Option<V>, nextSize: nat) returns (r: int)
      requires Valid()
      requires key !in view.M && count >= slots.Length ==> slots.Length < nextSize <= LASTNODE
      modifies this, slots
      ensures Valid() && (slots == old(slots) || fresh(slots))
      ensures 0 <= r < slots.Length && slots[r].key == Some(key)
      ensures value.Some? ==> slots[r].value == value.value && view.M == old(view.M)[key := value.value]
      ensures value.None? ==> view.M == old(view.M)[key := slots[r].value]
      ensures value.None? && key in old(view.M) ==> view.M == old(view.M)
      ensures slots.Length == if key !in old(view.M) && old(count) >= old(slots.Length) then nextSize else old(slots.Length)
    {
      hide Table;
      r := Entry(key, nextSize);
      if value.None? {
        return;
      }
      LastWriteWins(old(view.M), key, slots[r].value, value.value);
      WriteValue(r, value.value);
    }

    // The search loop of be_map_remove: the node in front of the key's node, from a main slot that
    // does not hold the key itself. The main slot may be vacant and still carry an old link.
    method FindBefore(main: int, key: K) returns (prev: Option<int>, ghost a: int)
      requires Table() && main == HashToSlot(hash, key, slots.Length) && slots[main].key != Some(key)
      ensures prev.None? <==> key !in view.M
      ensures prev.Some? ==>
                0 < a < |view.chains[main]| && view.chains[main][a - 1] == prev.value
                && 0 <= view.chains[main][a] < slots.Length && view.image[view.chains[main][a]].key == Some(key)
    {
      ghost var s, home, chains := view.image, view.home, view.chains;
      ghost var c := chains[main];
      KeyOnChain(s, home, chains, view.place, view.M, key);
      var p := main;
      ghost var g := main;
      a := 0;
      if Occ(s, p) {
        g, a := Locate(s, home, chains, p);
      }
      if !Occ(s, main) || g != main {
        GroupEmpty(s, home, chains, main);
      }
      while true
        invariant 0 <= p < slots.Length
        invariant Occ(s, p) ==> OnChainAt(s, home, chains, g, a, p)
        invariant c != [] ==> Occ(s, p) && g == main && forall b :: 0 <= b <= a ==> s[c[b]].key != Some(key)
        decreases if Occ(s, p) then 0 else 1 + view.clock - view.vacated[p],
                  if Occ(s, p) then |chains[g]| - a else 0
      {
        var n := slots[p].next;
        if Occ(s, p) {
          LinkOf(s, home, g, chains[g], a);
        } else {
          assert LeadsOn(s, view.vacated, p);
        }
        if n == LASTNODE {
          return None, 0;
        }
        if slots[n].key == Some(key) {
          assert Occ(s, n);
          return Some(p), a + 1;
        }
        if Occ(s, p) {
          a := a + 1;
        } else if Occ(s, n) {
          g, a := Locate(s, home, chains, n);
        }
        p := n;
      }
    }

    // The end of be_map_remove: the slot becomes vacant and may raise the cursor.
    method Vacate(slot: int, ghost v': View<K, V>)
      requires 0 <= slot < slots.Length && HomeOk(v'.home, hash, slots.Length)
      requires slots[..][slot := slots[slot].(key := None)] == v'.image
      requires TableOk(v', if lastfree < slot then slot else lastfree) && count - 1 == |v'.M|
      modifies this`lastfree, this`count, this`view, slots
      ensures Valid() && view == v'
    {
      slots[slot] := slots[slot].(key := None);
      if lastfree < slot {
        lastfree := slot;
      }
      count := count - 1;
      view := v';
    }

    // be_map_remove for a key in its own main slot: the second node, if any, moves up.
    method RemoveMain(slot: int)
      requires Valid() && 0 <= slot < slots.Length && Occ(view.image, slot)
      requires Main(view.image, view.home, slot) == slot
      modifies this`lastfree, this`count, this`view, slots
      ensures Valid() && view.M == old(view.M) - {old(slots[slot].key.value)}
    {
      DropCard(view.M, slots[slot].key.value);
      var next := slots[slot].next;
      if next != LASTNODE {
        ghost var v' := RemovedFirst(view, lastfree, slot);
        slots[slot] := slots[next];
        Vacate(next, v');
      } else {
        ghost var v' := RemovedOnly(view, lastfree, slot);
        Vacate(slot, v');
      }
    }

    // be_map_remove for a later node of a chain: the node in front of it is linked past it.
    method RemoveBehind(main: int, prev: int, ghost a: int)
      requires Valid() && 0 <= main < slots.Length && 0 < a < |view.chains[main]| && view.chains[main][a - 1] == prev
      requires Occ(view.image, view.chains[main][a])
      modifies this`lastfree, this`count, this`view, slots
      ensures Valid() && view.M == old(view.M) - {old(view.image[view.chains[main][a]].key.value)}
    {
      hide StaleOk, CursorOk, Represents;
      ghost var q := view.chains[main][a];
      assert ChainOk(view.image, view.home, main, view.chains[main]);
      LinkOf(view.image, view.home, main, view.chains[main], a - 1);
      ghost var v' := RemovedLater(view, lastfree, main, a);
      DropCard(view.M, view.image[q].key.value);
      KeyIsThere(view.image, view.place, view.M, q);
      hide Chained, ChainOk;
      var slot := slots[prev].next;
      slots[prev] := slots[prev].(next := slots[slot].next);
      Vacate(slot, v');
    }

    // be_map_remove
    method Remove(key: K) returns (found: bool)
      requires Valid()
      modifies this`lastfree, this`count, this`view, slots
      ensures Valid()
      ensures found <==> key in old(view.M)
      ensures view.M == old(view.M) - {key}
    {
      hide StaleOk, CursorOk, Chained;
      var slot := HashToSlot(hash, key, slots.Length);
      if slots[slot].key == Some(key) {
        assert Occ(view.image, slot);
        RemoveMain(slot);
        return true;
      }
      var prev, a := FindBefore(slot, key);
      if prev.None? {
        assert view.M - {key} == view.M;
        return false;
      }
      RemoveBehind(slot, prev.value, a);
      return true;
    }

    // be_map_next: the occupied slot after iter (-1 to begin), or none.
    method Next(iter: int) returns (r: Option<int>)
      requires Table() && -1 <= iter < slots.Length
      ensures r.Some? ==> iter < r.value < slots.Length && Occ(view.image, r.value) && slots[r.value].key.Some?
      ensures forall i :: iter < i < (if r.Some? then r.value else slots.Length) ==> slots[i].key.None?
      ensures var end := if r.Some? then r.value else slots.Length;
              Visited(view.image, iter + 1) == Visited(view.image, end)
    {
      var i := iter + 1;
      while i < slots.Length && slots[i].key.None?
        invariant iter < i <= slots.Length
        invariant forall x :: iter < x < i ==> !Occ(view.image, x) && slots[x].key.None?
      {
        i := i + 1;
      }
      VisitedSkips(view.image, iter + 1, i);
      if i < slots.Length {
        return Some(i);
      } else {
        return None;
      }
    }

    // be_map_compact
    method Compact()
      requires Valid()
      modifies this, slots
      ensures Valid() && view.M == old(view.M)
      ensures slots.Length == if old(count) == 0 then 1 else old(count)
    {
      CountFits(view.image, view.place, view.M);
      Resize(if count != 0 then count else 1);
    }
  }
}
