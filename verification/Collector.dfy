/** The mark and sweep collector (be_gc.c): an intrusive gray list threaded through the objects that
    are still to be scanned, and an intrusive list of every collectable object. */
module Collector {

  datatype Mark = White | Gray | Dark

  datatype Value = Plain | Gc(obj: GcObject)

  // A closure's slot for a captured variable: empty, closed with no user left, or in use.
  datatype Upvalue = NoUpvalue | Upvalue(refcnt: nat, value: Value)

  datatype Entry = Entry(key: Value, value: Value)

  // What an object refers to, by type.
  datatype Body =
    | StringBody
    | ComObjBody
    | ClassBody(name: GcObject?, members: GcObject?, super: GcObject?)
    | ProtoBody(ktab: seq<Value>, ptab: seq<GcObject?>, name: GcObject?, source: GcObject?, varnames: seq<GcObject?>)
    | InstanceBody(class_: GcObject?, super: GcObject?, vars: seq<Value>)
    | MapBody(entries: seq<Entry>)
    | ListBody(items: seq<Value>)
    | ClosureBody(proto: GcObject?, upvals: seq<Upvalue>)
    | NtvClosBody(upvals: seq<Upvalue>)
    | ModuleBody(table: GcObject?, hasName: bool, name: GcObject?)

  // The fields of an object other than the const flag.
  datatype Fields = Fields(body: Body, mark: Mark, fixed: bool, next: GcObject?, gray: GcObject?)

  class GcObject {
    const isConst: bool
    var body: Body
    var mark: Mark
    var fixed: bool
    var next: GcObject?
    var gray: GcObject?

    constructor (body: Body)
      ensures this.body == body && mark == White && !fixed && !isConst && next == null && gray == null
    {
      isConst := false;
      this.body, mark, fixed := body, White, false;
      next, gray := null, null;
    }

    function State(): Fields
      reads this
    {
      Fields(body, mark, fixed, next, gray)
    }
  }

  // ----- the references of an object, in the order the mark functions follow them -----

  function Ref(v: Value): GcObject? {
    if v.Gc? then v.obj else null
  }

  function Refs(vs: seq<Value>): seq<GcObject?> {
    seq(|vs|, i requires 0 <= i < |vs| => Ref(vs[i]))
  }

  function UpvalueRefs(us: seq<Upvalue>): seq<GcObject?> {
    seq(|us|, i requires 0 <= i < |us| => if us[i].Upvalue? && us[i].refcnt > 0 then Ref(us[i].value) else null)
  }

  function EntryRefs(es: seq<Entry>): seq<GcObject?> {
    if es == [] then [] else [Ref(es[0].key), Ref(es[0].value)] + EntryRefs(es[1..])
  }

  lemma {:induction false} EntryRefsSize(es: seq<Entry>)
    ensures |EntryRefs(es)| == 2 * |es|
  {
    if es != [] {
      EntryRefsSize(es[1..]);
    }
  }

  lemma {:induction false} EntryRefsAt(es: seq<Entry>, i: nat)
    requires i < |es|
    ensures 2 * i + 1 < |EntryRefs(es)|
    ensures EntryRefs(es)[2 * i] == Ref(es[i].key) && EntryRefs(es)[2 * i + 1] == Ref(es[i].value)
    decreases i
  {
    if i > 0 {
      EntryRefsAt(es[1..], i - 1);
    }
  }

  function Edges(b: Body): seq<GcObject?> {
    match b
    case StringBody => []
    case ComObjBody => []
    case ClassBody(name, members, super) => [name, members, super]
    case ProtoBody(ktab, ptab, name, source, varnames) => Refs(ktab) + ptab + [name, source] + varnames
    case InstanceBody(class_, super, vars) => [class_, super] + Refs(vars)
    case MapBody(entries) => EntryRefs(entries)
    case ListBody(items) => Refs(items)
    case ClosureBody(proto, upvals) => UpvalueRefs(upvals) + [proto]
    case NtvClosBody(upvals) => UpvalueRefs(upvals)
    case ModuleBody(table, hasName, name) => [table, if hasName then name else null]
  }

  lemma InRefs(vs: seq<Value>, o: GcObject)
    ensures o in Refs(vs) <==> Gc(o) in vs
  {
    if o in Refs(vs) {
      var i :| 0 <= i < |vs| && Refs(vs)[i] == o;
      assert vs[i] == Gc(o);
    }
    if Gc(o) in vs {
      var i :| 0 <= i < |vs| && vs[i] == Gc(o);
      assert Refs(vs)[i] == o;
    }
  }

  lemma InUpvalueRefs(us: seq<Upvalue>, o: GcObject)
    ensures o in UpvalueRefs(us) <==> exists i :: 0 <= i < |us| && us[i].Upvalue? && us[i].refcnt > 0 && us[i].value == Gc(o)
  {
    if o in UpvalueRefs(us) {
      var i :| 0 <= i < |us| && UpvalueRefs(us)[i] == o;
      assert us[i].value == Gc(o);
    }
    if i :| 0 <= i < |us| && us[i].Upvalue? && us[i].refcnt > 0 && us[i].value == Gc(o) {
      assert UpvalueRefs(us)[i] == o;
    }
  }

  lemma InEntryRefs(es: seq<Entry>, o: GcObject)
    ensures o in EntryRefs(es) <==> exists i :: 0 <= i < |es| && (es[i].key == Gc(o) || es[i].value == Gc(o))
  {
    hide EntryRefs;
    EntryRefsSize(es);
    if o in EntryRefs(es) {
      var j :| 0 <= j < |EntryRefs(es)| && EntryRefs(es)[j] == o;
      EntryRefsAt(es, j / 2);
      assert j == 2 * (j / 2) || j == 2 * (j / 2) + 1;
    }
    if i :| 0 <= i < |es| && (es[i].key == Gc(o) || es[i].value == Gc(o)) {
      EntryRefsAt(es, i);
    }
  }

  // What an object holds, field by field, and nothing else.
  lemma EdgesByField(b: Body, o: GcObject)
    ensures o in Edges(b) <==>
      match b
      case StringBody => false
      case ComObjBody => false
      case ClassBody(name, members, super) => o == name || o == members || o == super
      case ProtoBody(ktab, ptab, name, source, varnames) =>
        Gc(o) in ktab || o in ptab || o == name || o == source || o in varnames
      case InstanceBody(class_, super, vars) => o == class_ || o == super || Gc(o) in vars
      case MapBody(entries) => exists i :: 0 <= i < |entries| && (entries[i].key == Gc(o) || entries[i].value == Gc(o))
      case ListBody(items) => Gc(o) in items
      case ClosureBody(proto, upvals) =>
        o == proto || exists i :: 0 <= i < |upvals| && upvals[i].Upvalue? && upvals[i].refcnt > 0 && upvals[i].value == Gc(o)
      case NtvClosBody(upvals) =>
        exists i :: 0 <= i < |upvals| && upvals[i].Upvalue? && upvals[i].refcnt > 0 && upvals[i].value == Gc(o)
      case ModuleBody(table, hasName, name) => o == table || (hasName && o == name)
  {
    hide Refs, UpvalueRefs, EntryRefs;
    match b
    case ProtoBody(ktab, _, _, _, _) => InRefs(ktab, o);
    case InstanceBody(_, _, vars) => InRefs(vars, o);
    case MapBody(entries) => InEntryRefs(entries, o);
    case ListBody(items) => InRefs(items, o);
    case ClosureBody(_, upvals) => InUpvalueRefs(upvals, o);
    case NtvClosBody(upvals) => InUpvalueRefs(upvals, o);
    case _ =>
  }

  predicate Leaf(b: Body) {
    b.StringBody? || b.ComObjBody?
  }

  // ----- reachability -----

  type Heap = map<GcObject, Body>

  // Every reference leads to an object of the heap, and names are strings.
  ghost predicate InHeap(h: Heap, os: seq<GcObject?>) {
    forall i {:trigger os[i]} :: 0 <= i < |os| ==> os[i] == null || os[i] in h
  }

  ghost predicate IsName(h: Heap, o: GcObject?) {
    o != null ==> o in h && h[o].StringBody?
  }

  ghost predicate Names(h: Heap, os: seq<GcObject?>) {
    forall i {:trigger os[i]} :: 0 <= i < |os| ==> IsName(h, os[i])
  }

  ghost predicate BodyOk(h: Heap, b: Body) {
    && InHeap(h, Edges(b))
    && (b.ProtoBody? ==> IsName(h, b.name) && IsName(h, b.source) && Names(h, b.varnames))
  }

  ghost predicate Closed(h: Heap) {
    forall o {:trigger h[o]} :: o in h ==> BodyOk(h, h[o])
  }

  // The objects among os that the collector looks at.
  ghost function Targets(os: seq<GcObject?>): set<GcObject> {
    set o: GcObject | o in os && !o.isConst :: o
  }

  ghost function Successors(h: Heap, s: set<GcObject>): set<GcObject> {
    set x, y | x in s && x in h && y in Targets(Edges(h[x])) :: y
  }

  // The objects reachable from the roots in at most n steps.
  ghost function Within(h: Heap, roots: seq<GcObject?>, n: nat): set<GcObject> {
    if n == 0 then Targets(roots) else Within(h, roots, n - 1) + Successors(h, Within(h, roots, n - 1))
  }

  ghost predicate Reachable(h: Heap, roots: seq<GcObject?>, o: GcObject) {
    exists n: nat :: o in Within(h, roots, n)
  }

  // What a collection must keep.
  ghost function Live(h: Heap, roots: seq<GcObject?>): set<GcObject> {
    set o | o in h && (o.isConst || Reachable(h, roots, o))
  }

  ghost predicate Step(h: Heap, x: GcObject, y: GcObject) {
    x in h && y in Edges(h[x])
  }

  // A path from a root: every step goes to an object the previous one holds, and none is const.
  ghost predicate Path(h: Heap, roots: seq<GcObject?>, p: seq<GcObject>) {
    && p != [] && p[0] in roots
    && (forall i :: 0 <= i < |p| ==> !p[i].isConst)
    && (forall i, j :: 0 <= i < j < |p| && j == i + 1 ==> Step(h, p[i], p[j]))
  }

  lemma {:induction false} WithinPath(h: Heap, roots: seq<GcObject?>, o: GcObject, n: nat) returns (p: seq<GcObject>)
    requires o in Within(h, roots, n)
    ensures Path(h, roots, p) && p[|p| - 1] == o
    decreases n
  {
    hide Edges;
    if n == 0 {
      p := [o];
    } else if o in Within(h, roots, n - 1) {
      p := WithinPath(h, roots, o, n - 1);
    } else {
      var x :| x in Within(h, roots, n - 1) && x in h && o in Targets(Edges(h[x]));
      var q := WithinPath(h, roots, x, n - 1);
      p := q + [o];
    }
  }

  lemma {:induction false} PathWithin(h: Heap, roots: seq<GcObject?>, p: seq<GcObject>)
    requires Path(h, roots, p)
    ensures p[|p| - 1] in Within(h, roots, |p| - 1)
    decreases |p|
  {
    hide Edges;
    var n := |p| - 1;
    if n > 0 {
      var q := p[..n];
      assert q[0] in roots;
      PathWithin(h, roots, q);
      var x, o := p[n - 1], p[n];
      assert q[|q| - 1] == x && o in Targets(Edges(h[x]));
      assert o in Successors(h, Within(h, roots, n - 1));
    }
  }

  // A collection keeps the const objects and those at the end of a path, and no others.
  lemma LiveIff(h: Heap, roots: seq<GcObject?>, o: GcObject)
    ensures o in Live(h, roots) <==>
              o in h && (o.isConst
                         || exists p: seq<GcObject> ::
                              && p != [] && p[0] in roots && p[|p| - 1] == o
                              && (forall i :: 0 <= i < |p| ==> !p[i].isConst)
                              && (forall i, j :: 0 <= i < j < |p| && j == i + 1 ==> Step(h, p[i], p[j])))
  {
    hide Edges, Within;
    if n: nat :| o in Within(h, roots, n) {
      var p := WithinPath(h, roots, o, n);
      assert Path(h, roots, p) && p[|p| - 1] == o;
    }
    if p: seq<GcObject> :| p != [] && p[|p| - 1] == o && Path(h, roots, p) {
      PathWithin(h, roots, p);
    }
  }

  lemma RootReachable(h: Heap, roots: seq<GcObject?>, i: nat)
    requires i < |roots|
    ensures var o := roots[i]; o != null && !o.isConst ==> Reachable(h, roots, o)
  {
    var o := roots[i];
    if o != null && !o.isConst {
      assert o in Within(h, roots, 0);
    }
  }

  lemma EdgeReachable(h: Heap, roots: seq<GcObject?>, x: GcObject, i: nat)
    requires Reachable(h, roots, x) && x in h && i < |Edges(h[x])|
    ensures var o := Edges(h[x])[i]; o != null && !o.isConst ==> Reachable(h, roots, o)
  {
    var o := Edges(h[x])[i];
    if o != null && !o.isConst {
      var n: nat :| x in Within(h, roots, n);
      assert o in Targets(Edges(h[x]));
      assert o in Successors(h, Within(h, roots, n));
      assert o in Within(h, roots, n + 1);
    }
  }

  // ----- marking, as a function of the marks -----

  // The dark objects, the gray ones, and the gray list.
  datatype Marks = Marks(dark: set<GcObject>, gray: set<GcObject>, list: seq<GcObject>)

  const NO_MARKS := Marks({}, {}, [])

  // mark_gray
  ghost function Push(h: Heap, m: Marks, o: GcObject?): Marks
    requires o != null ==> o in h
  {
    if o == null || o.isConst || o in m.dark || o in m.gray then m
    else if Leaf(h[o]) then m.(dark := m.dark + {o})
    else m.(gray := m.gray + {o}, list := [o] + m.list)
  }

  // mark_gray on the first k of the objects.
  ghost function PushAll(h: Heap, m: Marks, os: seq<GcObject?>, k: nat): Marks
    requires InHeap(h, os) && k <= |os|
  {
    if k == 0 then m else Push(h, PushAll(h, m, os, k - 1), os[k - 1])
  }

  lemma {:induction false} PushAllAppend(h: Heap, m: Marks, a: seq<GcObject?>, b: seq<GcObject?>, k: nat)
    requires InHeap(h, a) && InHeap(h, b) && k <= |a| + |b|
    ensures InHeap(h, a + b)
    ensures PushAll(h, m, a + b, k) == if k <= |a| then PushAll(h, m, a, k) else PushAll(h, PushAll(h, m, a, |a|), b, k - |a|)
    decreases k
  {
    if k > 0 {
      PushAllAppend(h, m, a, b, k - 1);
    }
  }

  lemma PushNext(h: Heap, m: Marks, os: seq<GcObject?>, k: nat)
    requires InHeap(h, os) && k + 2 <= |os|
    ensures PushAll(h, m, os, k + 2) == Push(h, Push(h, PushAll(h, m, os, k), os[k]), os[k + 1])
  {
    assert PushAll(h, m, os, k + 1) == Push(h, PushAll(h, m, os, k), os[k]);
  }

  ghost function PushEach(h: Heap, m: Marks, os: seq<GcObject?>): Marks
    requires InHeap(h, os)
  {
    PushAll(h, m, os, |os|)
  }

  lemma PushEachAppend(h: Heap, m: Marks, a: seq<GcObject?>, b: seq<GcObject?>)
    requires InHeap(h, a + b)
    ensures InHeap(h, a) && InHeap(h, b)
    ensures PushEach(h, m, a + b) == PushEach(h, PushEach(h, m, a), b)
  {
    forall i {:trigger a[i]} | 0 <= i < |a| ensures a[i] == null || a[i] in h {
      assert (a + b)[i] == a[i];
    }
    forall i {:trigger b[i]} | 0 <= i < |b| ensures b[i] == null || b[i] in h {
      assert (a + b)[|a| + i] == b[i];
    }
    PushAllAppend(h, m, a, b, |a| + |b|);
  }

  lemma PushOne(h: Heap, m: Marks, a: GcObject?)
    requires InHeap(h, [a])
    ensures (a != null ==> a in h) && PushEach(h, m, [a]) == Push(h, m, a)
  {
    var os := [a];
    assert os[0] == a;
    assert PushAll(h, m, os, 1) == Push(h, PushAll(h, m, os, 0), os[0]);
  }

  lemma PushTwo(h: Heap, m: Marks, a: GcObject?, b: GcObject?)
    requires InHeap(h, [a, b])
    ensures (a != null ==> a in h) && (b != null ==> b in h)
    ensures PushEach(h, m, [a, b]) == Push(h, Push(h, m, a), b)
  {
    assert [a, b] == [a] + [b];
    PushEachAppend(h, m, [a], [b]);
    PushOne(h, m, a);
    PushOne(h, Push(h, m, a), b);
  }

  lemma PushThree(h: Heap, m: Marks, a: GcObject?, b: GcObject?, c: GcObject?)
    requires InHeap(h, [a, b, c])
    ensures (a != null ==> a in h) && (b != null ==> b in h) && (c != null ==> c in h)
    ensures PushEach(h, m, [a, b, c]) == Push(h, Push(h, Push(h, m, a), b), c)
  {
    assert [a, b, c] == [a, b] + [c];
    PushEachAppend(h, m, [a, b], [c]);
    PushTwo(h, m, a, b);
    PushOne(h, Push(h, Push(h, m, a), b), c);
  }

  lemma PushProto(h: Heap, m: Marks, ks: seq<GcObject?>, ps: seq<GcObject?>, ns: seq<GcObject?>, vs: seq<GcObject?>)
    requires InHeap(h, ks + ps + ns + vs)
    ensures InHeap(h, ks) && InHeap(h, ps) && InHeap(h, ns) && InHeap(h, vs)
    ensures PushEach(h, m, ks + ps + ns + vs) == PushEach(h, PushEach(h, PushEach(h, PushEach(h, m, ks), ps), ns), vs)
  {
    PushEachAppend(h, m, ks + ps + ns, vs);
    PushEachAppend(h, m, ks + ps, ns);
    PushEachAppend(h, m, ks, ps);
  }

  lemma PushRoots(h: Heap, m: Marks, a: seq<GcObject?>, b: seq<GcObject?>, c: seq<GcObject?>, d: seq<GcObject?>,
                  e: seq<GcObject?>, f: seq<GcObject?>)
    requires InHeap(h, a + b + c + d + e + f)
    ensures InHeap(h, a) && InHeap(h, b) && InHeap(h, c) && InHeap(h, d) && InHeap(h, e) && InHeap(h, f)
    ensures PushEach(h, m, a + b + c + d + e + f)
            == PushEach(h, PushEach(h, PushEach(h, PushEach(h, PushEach(h, PushEach(h, m, a), b), c), d), e), f)
  {
    PushEachAppend(h, m, a + b + c + d + e, f);
    PushEachAppend(h, m, a + b + c + d, e);
    PushProto(h, m, a, b, c, d);
  }

  // The gray list holds each gray object once.
  ghost predicate ListOf(list: seq<GcObject>, s: set<GcObject>)
    decreases list
  {
    if list == [] then s == {} else list[0] in s && ListOf(list[1..], s - {list[0]})
  }

  // No object is both gray and dark, none is const, and only objects with references are gray.
  ghost predicate WellMarked(h: Heap, m: Marks) {
    && m.gray !! m.dark && m.gray <= h.Keys && m.dark <= h.Keys && ListOf(m.list, m.gray)
    && (forall o :: o in m.dark ==> !o.isConst)
    && (forall o :: o in m.gray ==> !o.isConst && !Leaf(h[o]))
  }

  ghost predicate OnlyReachable(h: Heap, roots: seq<GcObject?>, m: Marks) {
    forall o :: o in m.gray + m.dark ==> Reachable(h, roots, o)
  }

  // Every object among the first k that the collector looks at has been seen.
  ghost predicate Seen(m: Marks, os: seq<GcObject?>, k: nat) {
    forall i {:trigger os[i]} :: 0 <= i < k <= |os| ==> var o := os[i]; o != null && !o.isConst ==> o in m.gray + m.dark
  }

  // What a dark object refers to has been seen.
  ghost predicate Scanned(h: Heap, m: Marks, s: set<GcObject>) {
    forall o {:trigger h[o]} :: o in s && o in h ==> Seen(m, Edges(h[o]), |Edges(h[o])|)
  }

  ghost predicate Grows(m: Marks, m': Marks) {
    m.dark <= m'.dark && m.gray + m.dark <= m'.gray + m'.dark
  }

  lemma PushWellMarked(h: Heap, m: Marks, o: GcObject?)
    requires WellMarked(h, m) && (o != null ==> o in h)
    ensures WellMarked(h, Push(h, m, o))
  {
    var m' := Push(h, m, o);
    if m'.gray != m.gray {
      assert m'.list[1..] == m.list && m'.gray - {o} == m.gray;
    }
  }

  lemma PushKeeps(h: Heap, roots: seq<GcObject?>, m: Marks, o: GcObject?)
    requires WellMarked(h, m) && OnlyReachable(h, roots, m)
    requires o != null ==> o in h && (!o.isConst ==> Reachable(h, roots, o))
    ensures var m' := Push(h, m, o);
            WellMarked(h, m') && OnlyReachable(h, roots, m') && Grows(m, m') && m.gray <= m'.gray
            && (o != null && !o.isConst ==> o in m'.gray + m'.dark)
            && forall x :: x in m'.dark - m.dark ==> Leaf(h[x])
  {
    PushWellMarked(h, m, o);
  }

  lemma {:induction false} PushAllKeeps(h: Heap, roots: seq<GcObject?>, m: Marks, os: seq<GcObject?>, k: nat)
    requires WellMarked(h, m) && OnlyReachable(h, roots, m) && InHeap(h, os) && k <= |os|
    requires forall i {:trigger os[i]} :: 0 <= i < |os| ==> var o := os[i]; o != null && !o.isConst ==> Reachable(h, roots, o)
    ensures var m' := PushAll(h, m, os, k);
            WellMarked(h, m') && OnlyReachable(h, roots, m') && Grows(m, m') && m.gray <= m'.gray && Seen(m', os, k)
            && forall x :: x in m'.dark - m.dark ==> Leaf(h[x])
    decreases k
  {
    if k > 0 {
      PushAllKeeps(h, roots, m, os, k - 1);
      PushKeeps(h, roots, PushAll(h, m, os, k - 1), os[k - 1]);
    }
  }

  lemma ScannedGrows(h: Heap, m: Marks, m': Marks, s: set<GcObject>)
    requires Scanned(h, m, s) && Grows(m, m')
    ensures Scanned(h, m', s)
  {
    forall o {:trigger h[o]} | o in s && o in h ensures Seen(m', Edges(h[o]), |Edges(h[o])|) {
      assert Seen(m, Edges(h[o]), |Edges(h[o])|);
    }
  }

  // One turn of mark_unscanned: the head of the gray list becomes dark and what it refers to is pushed.
  ghost function Scan(h: Heap, m: Marks): Marks
    requires m.list != [] && m.list[0] in h && Closed(h)
  {
    var o := m.list[0];
    assert BodyOk(h, h[o]);
    PushAll(h, Marks(m.dark + {o}, m.gray - {o}, m.list[1..]), Edges(h[o]), |Edges(h[o])|)
  }

  ghost predicate Marking(h: Heap, roots: seq<GcObject?>, m: Marks) {
    && Closed(h) && InHeap(h, roots)
    && WellMarked(h, m) && OnlyReachable(h, roots, m) && Seen(m, roots, |roots|) && Scanned(h, m, m.dark)
  }

  lemma NothingMarked(h: Heap)
    ensures WellMarked(h, NO_MARKS)
  {}

  lemma Premarked(h: Heap, roots: seq<GcObject?>)
    requires Closed(h) && InHeap(h, roots)
    ensures Marking(h, roots, PushAll(h, NO_MARKS, roots, |roots|))
  {
    forall i {:trigger roots[i]} | 0 <= i < |roots|
      ensures var o := roots[i]; o != null && !o.isConst ==> Reachable(h, roots, o)
    {
      RootReachable(h, roots, i);
    }
    PushAllKeeps(h, roots, NO_MARKS, roots, |roots|);
  }

  lemma ScanKeeps(h: Heap, roots: seq<GcObject?>, m: Marks)
    requires Marking(h, roots, m) && m.list != []
    ensures m.list[0] in m.gray && Marking(h, roots, Scan(h, m)) && m.dark < Scan(h, m).dark
  {
    var o := m.list[0];
    var m1 := Marks(m.dark + {o}, m.gray - {o}, m.list[1..]);
    assert BodyOk(h, h[o]);
    forall i {:trigger Edges(h[o])[i]} | 0 <= i < |Edges(h[o])|
      ensures var x := Edges(h[o])[i]; x != null && !x.isConst ==> Reachable(h, roots, x)
    {
      EdgeReachable(h, roots, o, i);
    }
    PushAllKeeps(h, roots, m1, Edges(h[o]), |Edges(h[o])|);
    var m' := Scan(h, m);
    ScannedGrows(h, m, m', m.dark);
    assert Seen(m', roots, |roots|);
    forall x {:trigger h[x]} | x in m'.dark && x in h ensures Seen(m', Edges(h[x]), |Edges(h[x])|) {
      if x !in m.dark && x != o {
        assert Leaf(h[x]);
      }
    }
  }

  // With no gray object left, exactly the reachable objects are dark.
  lemma MarkedIsReachable(h: Heap, roots: seq<GcObject?>, m: Marks)
    requires Marking(h, roots, m) && m.list == []
    ensures forall o: GcObject :: o in m.dark <==> Reachable(h, roots, o)
  {
    forall n: nat ensures Within(h, roots, n) <= m.dark {
      WithinDark(h, roots, m, n);
    }
  }

  lemma {:induction false} WithinDark(h: Heap, roots: seq<GcObject?>, m: Marks, n: nat)
    requires Marking(h, roots, m) && m.list == []
    ensures Within(h, roots, n) <= m.dark
    decreases n
  {
    if n == 0 {
      forall o | o in Within(h, roots, 0) ensures o in m.dark {
        var i :| 0 <= i < |roots| && roots[i] == o;
      }
    } else {
      WithinDark(h, roots, m, n - 1);
      forall o | o in Successors(h, Within(h, roots, n - 1)) ensures o in m.dark {
        var x :| x in Within(h, roots, n - 1) && x in h && o in Targets(Edges(h[x]));
        assert Seen(m, Edges(h[x]), |Edges(h[x])|);
        var i :| 0 <= i < |Edges(h[x])| && Edges(h[x])[i] == o;
      }
    }
  }

  // ----- lists threaded through the objects -----

  // The list at head, along the given links, is c.
  ghost predicate Linked(head: GcObject?, next: map<GcObject, GcObject?>, c: seq<GcObject>)
    decreases c
  {
    if c == [] then head == null
    else head == c[0] && c[0] in next && Linked(next[c[0]], next, c[1..])
  }

  // Changing the link of an object that is not on the list.
  lemma {:induction false} LinkedFrame(head: GcObject?, next: map<GcObject, GcObject?>, c: seq<GcObject>,
                                       o: GcObject, to: GcObject?)
    requires Linked(head, next, c) && forall i :: 0 <= i < |c| ==> c[i] != o
    ensures Linked(head, next[o := to], c)
    decreases c
  {
    if c != [] {
      LinkedFrame(next[c[0]], next, c[1..], o, to);
    }
  }

  lemma {:induction false} ListMembers(list: seq<GcObject>, s: set<GcObject>)
    requires ListOf(list, s)
    ensures forall i :: 0 <= i < |list| ==> list[i] in s
    decreases list
  {
    if list != [] {
      ListMembers(list[1..], s - {list[0]});
      forall i | 0 <= i < |list| ensures list[i] in s {
        if i > 0 {
          assert list[1..][i - 1] == list[i];
        }
      }
    }
  }

  lemma ListPush(gray: GcObject?, link: map<GcObject, GcObject?>, list: seq<GcObject>, s: set<GcObject>, o: GcObject)
    requires Linked(gray, link, list) && ListOf(list, s) && o !in s
    ensures Linked(o, link[o := gray], [o] + list) && ListOf([o] + list, s + {o})
  {
    ListMembers(list, s);
    LinkedFrame(gray, link, list, o, gray);
    assert ([o] + list)[1..] == list && s + {o} - {o} == s;
  }

  lemma {:induction false} LinkedAt(head: GcObject?, next: map<GcObject, GcObject?>, c: seq<GcObject>, i: nat)
    requires Linked(head, next, c) && i < |c|
    ensures c[i] in next && next[c[i]] == At(c, i + 1)
    decreases i
  {
    if i > 0 {
      LinkedAt(next[c[0]], next, c[1..], i - 1);
    } else {
      assert Linked(next[c[0]], next, c[1..]);
    }
  }

  function At(c: seq<GcObject>, i: nat): GcObject? {
    if i < |c| then c[i] else null
  }

  lemma {:induction false} LinkedWithout(head: GcObject?, next: map<GcObject, GcObject?>, c: seq<GcObject>, x: GcObject)
    requires Linked(head, next, c) && forall i :: 0 <= i < |c| ==> c[i] != x
    ensures Linked(head, next - {x}, c)
    decreases c
  {
    if c != [] {
      LinkedWithout(next[c[0]], next, c[1..], x);
    }
  }

  function Without(c: seq<GcObject>, i: nat): seq<GcObject>
    requires i < |c|
  {
    c[..i] + c[i + 1..]
  }

  // The links after the one in front of place i has been sent past it.
  ghost function Bypass(next: map<GcObject, GcObject?>, c: seq<GcObject>, i: nat): map<GcObject, GcObject?>
    requires i < |c| && c[i] in next
  {
    (if i == 0 then next else next[c[i - 1] := next[c[i]]]) - {c[i]}
  }

  lemma BypassIs(next: map<GcObject, GcObject?>, c: seq<GcObject>, i: nat)
    requires i < |c| && c[i] in next && (i > 0 ==> c[i - 1] in next && c[i - 1] != c[i])
    ensures Bypass(next, c, i).Keys == next.Keys - {c[i]}
    ensures forall o :: o in next && o != c[i] ==> Bypass(next, c, i)[o] == if i > 0 && o == c[i - 1] then next[c[i]] else next[o]
  {}

  lemma {:induction false} CutOut(head: GcObject?, next: map<GcObject, GcObject?>, c: seq<GcObject>, s: set<GcObject>, i: nat)
    requires Linked(head, next, c) && ListOf(c, s) && i < |c| && c[i] in next
    ensures Linked(if i == 0 then next[c[i]] else head, Bypass(next, c, i), Without(c, i))
    ensures i > 0 ==> c[0] != c[i] && c[i - 1] in s && c[i - 1] != c[i]
    decreases i
  {
    var x, rest := c[i], c[1..];
    ListMembers(rest, s - {c[0]});
    if i == 0 {
      assert Without(c, 0) == rest;
      LinkedWithout(next[x], next, rest, x);
    } else {
      var p := c[0];
      CutOut(next[p], next, rest, s - {p}, i - 1);
      assert Without(c, i) == [p] + Without(rest, i - 1);
      assert Without(c, i)[1..] == Without(rest, i - 1);
      if i == 1 {
        ListWithout(rest, s - {p}, 0);
        ListMembers(Without(rest, 0), s - {p} - {x});
        LinkedFrame(next[x], next - {x}, Without(rest, 0), p, next[x]);
        assert (next - {x})[p := next[x]] == Bypass(next, c, 1);
      } else {
        assert rest[i - 2] == c[i - 1];
      }
    }
  }

  lemma {:induction false} ListWithout(c: seq<GcObject>, s: set<GcObject>, i: nat)
    requires ListOf(c, s) && i < |c|
    ensures ListOf(Without(c, i), s - {c[i]})
    decreases i
  {
    if i == 0 {
      assert Without(c, 0) == c[1..];
    } else {
      ListWithout(c[1..], s - {c[0]}, i - 1);
      assert Without(c, i)[1..] == Without(c[1..], i - 1);
      assert s - {c[0]} - {c[i]} == s - {c[i]} - {c[0]};
      ListMembers(c[1..], s - {c[0]});
    }
  }

  // The object at place i is at no other place.
  lemma {:induction false} Apart(c: seq<GcObject>, s: set<GcObject>, i: nat)
    requires ListOf(c, s) && i < |c|
    ensures forall k :: 0 <= k < |c| && k != i ==> c[k] != c[i]
    decreases i
  {
    ListMembers(c[1..], s - {c[0]});
    if i > 0 {
      Apart(c[1..], s - {c[0]}, i - 1);
    }
    forall k | 0 <= k < |c| && k != i ensures c[k] != c[i] {
      if k > 0 {
        assert c[k] == c[1..][k - 1];
      }
    }
  }

  // ----- sweeping, as a function of the state -----

  // The objects of c that are in s, in order.
  ghost function Kept(c: seq<GcObject>, s: set<GcObject>): seq<GcObject> {
    if c == [] then [] else (if c[0] in s then [c[0]] else []) + Kept(c[1..], s)
  }

  // ----- the collector's state -----

  datatype View = View(heap: Heap, next: map<GcObject, GcObject?>, link: map<GcObject, GcObject?>, list: seq<GcObject>,
                       fixed: set<GcObject>, marks: Marks)

  ghost function MarkOf(m: Marks, o: GcObject): Mark {
    if o in m.dark then Dark else if o in m.gray then Gray else White
  }

  // The fields an object has in a state.
  ghost function Expected(v: View, o: GcObject): Fields
    requires o in v.heap && o in v.next && o in v.link
  {
    Fields(v.heap[o], MarkOf(v.marks, o), o in v.fixed, v.next[o], v.link[o])
  }

  ghost predicate SameKeys(v: View) {
    v.next.Keys == v.heap.Keys && v.link.Keys == v.heap.Keys
  }

  // An object becomes gray.
  lemma ExpectGray(v: View, o: GcObject, to: GcObject?, list: seq<GcObject>)
    requires SameKeys(v) && o in v.heap && o !in v.marks.dark
    ensures var w := v.(link := v.link[o := to], marks := v.marks.(gray := v.marks.gray + {o}, list := list));
            SameKeys(w) && forall x :: x in v.heap ==>
              Expected(w, x) == if x == o then Expected(v, o).(mark := Gray, gray := to) else Expected(v, x)
  {}

  // An object becomes dark.
  lemma ExpectDark(v: View, o: GcObject)
    requires SameKeys(v) && o in v.heap
    ensures var w := v.(marks := v.marks.(dark := v.marks.dark + {o}));
            SameKeys(w) && forall x :: x in v.heap ==>
              Expected(w, x) == if x == o then Expected(v, o).(mark := Dark) else Expected(v, x)
  {}

  // A dark object becomes white.
  lemma ExpectWhite(v: View, o: GcObject)
    requires SameKeys(v) && o in v.heap && v.marks.gray == {}
    ensures var w := v.(marks := v.marks.(dark := v.marks.dark - {o}));
            SameKeys(w) && forall x :: x in v.heap ==>
              Expected(w, x) == if x == o then Expected(v, o).(mark := White) else Expected(v, x)
  {}

  // A dark object leaves the gray list.
  lemma ExpectPopped(v: View)
    requires SameKeys(v) && v.marks.list != [] && v.marks.list[0] in v.marks.dark
    ensures var w := v.(marks := Popped(v.marks)); SameKeys(w) && forall x :: x in v.heap ==> Expected(w, x) == Expected(v, x)
  {}

  // An object is added.
  lemma ExpectAdded(v: View, o: GcObject, body: Body, to: GcObject?)
    requires SameKeys(v) && o !in v.heap && v.marks == NO_MARKS
    ensures var w := v.(heap := v.heap[o := body], next := v.next[o := to], link := v.link[o := null],
                        list := [o] + v.list, fixed := v.fixed - {o});
            SameKeys(w) && forall x :: x in w.heap ==>
              Expected(w, x) == if x == o then Fields(body, White, false, to, null) else Expected(v, x)
  {}

  // An object has another body.
  lemma ExpectStored(v: View, o: GcObject, body: Body)
    requires SameKeys(v) && o in v.heap
    ensures var w := v.(heap := v.heap[o := body]);
            SameKeys(w) && forall x :: x in v.heap ==>
              Expected(w, x) == if x == o then Expected(v, o).(body := body) else Expected(v, x)
  {}

  ghost function Popped(m: Marks): Marks
    requires m.list != []
  {
    m.(gray := m.gray - {m.list[0]}, list := m.list[1..])
  }

  // Only marks and the gray list have changed.
  ghost predicate OnlyMarks(v: View, v': View) {
    v' == v.(marks := v'.marks, link := v'.link)
  }

  // One turn of delete_white, at place i of the object list.
  ghost function SweepAt(v: View, i: nat): View
    requires i < |v.list| && v.list[i] in v.next
  {
    var o := v.list[i];
    if o in v.marks.dark then v.(marks := v.marks.(dark := v.marks.dark - {o}))
    else v.(heap := v.heap - {o}, next := Bypass(v.next, v.list, i), link := v.link - {o}, list := Without(v.list, i))
  }

  // The state after the object at place i was freed.
  lemma FreedView(v: View, head: GcObject?, i: nat)
    requires i < |v.list| && v.list[i] in v.next && v.list[i] !in v.marks.dark
    requires Linked(head, v.next, v.list) && ListOf(v.list, NonConst(v.heap))
    requires SameKeys(v)
    ensures var x, w := v.list[i], SweepAt(v, i);
            Linked(if i == 0 then v.next[x] else head, w.next, w.list) && w.marks == v.marks && w.fixed == v.fixed
            && w.heap.Keys == v.heap.Keys - {x}
            && (i > 0 ==> v.list[0] != x && v.list[i - 1] in w.heap)
            && (i == 0 <==> head == x)
            && SameKeys(w) && forall o :: o in w.heap ==>
                 o in v.heap && Expected(w, o)
                 == if i > 0 && o == v.list[i - 1] then Expected(v, o).(next := v.next[x]) else Expected(v, o)
  {
    CutOut(head, v.next, v.list, NonConst(v.heap), i);
    BypassIs(v.next, v.list, i);
    hide Bypass, Without, ListOf;
  }

  // What the turns so far have left to do gives the same result.
  ghost predicate Sweeping(v: View, v0: View, i: nat) {
    && i <= |v.list| && v.fixed == v0.fixed && v.marks.gray == {} && v.marks.list == []
    && v.heap.Keys <= v0.heap.Keys && (forall o :: o in v.heap ==> v.heap[o] == v0.heap[o])
    && (forall o :: o in v0.heap && o !in v.heap ==> !o.isConst && o !in v0.marks.dark)
    && v.list[..i] + Kept(v.list[i..], v0.marks.dark) == Kept(v0.list, v0.marks.dark)
    && ListOf(v.list, NonConst(v.heap)) && v.marks.dark <= v0.marks.dark
    && (forall k :: 0 <= k < i ==> v.list[k] in v0.marks.dark && v.list[k] !in v.marks.dark)
    && (forall k :: i <= k < |v.list| ==> (v.list[k] in v.marks.dark <==> v.list[k] in v0.marks.dark))
  }

  lemma DarkKeeps(v: View, v0: View, i: nat)
    requires Sweeping(v, v0, i) && i < |v.list| && v.list[i] in v.next && v.list[i] in v.marks.dark
    ensures Sweeping(SweepAt(v, i), v0, i + 1)
  {
    hide NonConst, Bypass, Without;
    var o := v.list[i];
    assert v.list[i..][1..] == v.list[i + 1..] && v.list[..i + 1] == v.list[..i] + [o];
    Apart(v.list, NonConst(v.heap), i);
  }

  lemma WhiteKeeps(v: View, v0: View, i: nat)
    requires Sweeping(v, v0, i) && i < |v.list| && v.list[i] in v.next && v.list[i] !in v.marks.dark
    requires v.list[i] in NonConst(v.heap)
    ensures Sweeping(SweepAt(v, i), v0, i)
  {
    var o, v' := v.list[i], SweepAt(v, i);
    assert v.list[i..][1..] == v.list[i + 1..];
    assert v'.list[..i] == v.list[..i] && v'.list[i..] == v.list[i + 1..];
    ListWithout(v.list, NonConst(v.heap), i);
    assert NonConst(v.heap) - {o} == NonConst(v'.heap);
    hide NonConst, Bypass, ListOf, Without;
  }

  // One turn keeps what the loop relies on.
  lemma SweepAtKeeps(v: View, v0: View, i: nat)
    requires Sweeping(v, v0, i) && i < |v.list| && SameKeys(v)
    ensures var o := v.list[i];
            o in v.heap && !o.isConst && ListOf(v.list, NonConst(v.heap)) && v.marks.gray == {} && v.marks.list == []
            && Sweeping(SweepAt(v, i), v0, if o in v.marks.dark then i + 1 else i)
  {
    ListMembers(v.list, NonConst(v.heap));
    hide Kept, ListOf, SweepAt;
    if v.list[i] in v.marks.dark {
      DarkKeeps(v, v0, i);
    } else {
      WhiteKeeps(v, v0, i);
    }
  }

  // The state after one turn, the object to look at next, and the one in front of it.
  ghost predicate Turned(v: View, w: View, v0: View, i: nat, prev: GcObject?, next: GcObject?) {
    i < |v.list| && v.list[i] in v.next && w == SweepAt(v, i)
    && var i' := if v.list[i] in v.marks.dark then i + 1 else i;
       Sweeping(w, v0, i') && next == At(w.list, i') && (i' > 0 ==> i' <= |w.list| && prev == w.list[i' - 1])
  }

  lemma SweepTurns(v: View, v0: View, i: nat, prev: GcObject?)
    requires Sweeping(v, v0, i) && i < |v.list| && SameKeys(v)
    requires v.list[i] in v.marks.dark ==> prev == v.list[i]
    requires v.list[i] !in v.marks.dark && i > 0 ==> prev == v.list[i - 1]
    ensures v.list[i] in v.next && Turned(v, SweepAt(v, i), v0, i, prev, At(v.list, i + 1))
  {
    SweepAtKeeps(v, v0, i);
    hide Bypass, Sweeping;
  }

  lemma {:induction false} ListHas(list: seq<GcObject>, s: set<GcObject>, o: GcObject) returns (k: nat)
    requires ListOf(list, s) && o in s
    ensures k < |list| && list[k] == o
    decreases list
  {
    if o == list[0] {
      k := 0;
    } else {
      k := ListHas(list[1..], s - {list[0]}, o);
      k := k + 1;
    }
  }

  lemma {:induction false} KeptSame(c: seq<GcObject>, s: set<GcObject>, t: set<GcObject>)
    requires forall k :: 0 <= k < |c| ==> (c[k] in s <==> c[k] in t)
    ensures Kept(c, s) == Kept(c, t)
  {
    if c != [] {
      assert c[0] in s <==> c[0] in t;
      forall k | 0 <= k < |c[1..]| ensures c[1..][k] in s <==> c[1..][k] in t {
        assert c[1..][k] == c[k + 1];
      }
      KeptSame(c[1..], s, t);
    }
  }

  // After the last turn, exactly the const and the dark objects are left, in order, and none is dark.
  lemma SweepDone(v: View, v0: View)
    requires Sweeping(v, v0, |v.list|)
    requires ListOf(v0.list, NonConst(v0.heap)) && v0.marks.dark <= v0.heap.Keys && forall o :: o in v0.marks.dark ==> !o.isConst
    ensures v.marks == NO_MARKS && v.list == Kept(v0.list, v.heap.Keys)
    ensures v.heap.Keys == set o | o in v0.heap && (o.isConst || o in v0.marks.dark)
  {
    assert v.list[|v.list|..] == [] && v.list[..|v.list|] == v.list;
    assert v.list == v.list + [];
    forall o | o in v.heap ensures o in v0.heap && (o.isConst || o in v0.marks.dark) && o !in v.marks.dark {
      if !o.isConst {
        var k := ListHas(v.list, NonConst(v.heap), o);
      } else {
        assert o !in v0.marks.dark;
      }
    }
    forall o | o in v0.heap && (o.isConst || o in v0.marks.dark) ensures o in v.heap {}
    assert v.marks.dark == {};
    ListMembers(v0.list, NonConst(v0.heap));
    KeptSame(v0.list, v0.marks.dark, v.heap.Keys);
  }

  ghost function FixedRefs(list: seq<GcObject>, fixed: set<GcObject>): seq<GcObject?> {
    seq(|list|, i requires 0 <= i < |list| => if list[i] in fixed then list[i] else null)
  }

  // Const objects refer to const objects only.
  ghost predicate ConstClosed(h: Heap) {
    forall o {:trigger h[o]} :: o in h && o.isConst ==> AllConst(Edges(h[o]))
  }

  ghost predicate AllConst(os: seq<GcObject?>) {
    forall i {:trigger os[i]} :: 0 <= i < |os| ==> var o := os[i]; o != null ==> o.isConst
  }

  // What is left after a collection refers to nothing that was freed.
  lemma SurvivorsClosed(h: Heap, roots: seq<GcObject?>, h': Heap, base: seq<GcObject?>)
    requires Closed(h) && ConstClosed(h) && InHeap(h, roots) && base <= roots
    requires h'.Keys <= h.Keys && (forall o :: o in h' ==> h'[o] == h[o])
    requires h'.Keys == Live(h, roots)
    ensures Closed(h') && ConstClosed(h') && InHeap(h', base)
  {
    forall i {:trigger base[i]} | 0 <= i < |base| ensures base[i] == null || base[i] in h' {
      assert base[i] == roots[i];
      RootReachable(h, roots, i);
    }
    forall o {:trigger h'[o]} | o in h' ensures BodyOk(h', h'[o]) {
      assert BodyOk(h, h[o]);
      var os := Edges(h[o]);
      forall i {:trigger os[i]} | 0 <= i < |os| ensures os[i] == null || os[i] in h' {
        if o.isConst {
          assert AllConst(Edges(h[o]));
        } else {
          EdgeReachable(h, roots, o, i);
        }
      }
      if h[o].ProtoBody? {
        ProtoNames(h, h', h[o]);
      }
    }
    forall o {:trigger h'[o]} | o in h' && o.isConst ensures AllConst(Edges(h'[o])) {
      assert AllConst(Edges(h[o]));
    }
  }

  lemma ProtoNames(h: Heap, h': Heap, b: Body)
    requires b.ProtoBody? && BodyOk(h, b) && InHeap(h', Edges(b)) && (forall o :: o in h' ==> o in h && h'[o] == h[o])
    ensures IsName(h', b.name) && IsName(h', b.source) && Names(h', b.varnames)
  {
    var ks, es, n := Refs(b.ktab), Edges(b), |b.ktab| + |b.ptab|;
    assert es[n] == b.name && es[n + 1] == b.source;
    forall i {:trigger b.varnames[i]} | 0 <= i < |b.varnames| ensures IsName(h', b.varnames[i]) {
      assert es[n + 2 + i] == b.varnames[i];
      assert IsName(h, b.varnames[i]);
    }
  }

  lemma RootsInHeap(h: Heap, base: seq<GcObject?>, list: seq<GcObject>, fixed: set<GcObject>)
    requires InHeap(h, base) && ListOf(list, NonConst(h))
    ensures InHeap(h, base + FixedRefs(list, fixed))
  {
    ListMembers(list, NonConst(h));
    var os := base + FixedRefs(list, fixed);
    forall i {:trigger os[i]} | 0 <= i < |os| ensures os[i] == null || os[i] in h {
      if i < |base| {
        assert os[i] == base[i];
      } else {
        assert list[i - |base|] in NonConst(h);
      }
    }
  }

  // The state v after sweeping the marked state v0.
  lemma Collected(v: View, v0: View, roots: seq<GcObject?>, base: seq<GcObject?>)
    requires Sweeping(v, v0, |v.list|) && ListOf(v0.list, NonConst(v0.heap)) && WellMarked(v0.heap, v0.marks)
    requires Live(v0.heap, roots) == set o | o in v0.heap && (o.isConst || o in v0.marks.dark)
    requires Closed(v0.heap) && ConstClosed(v0.heap) && InHeap(v0.heap, roots) && base <= roots
    ensures v.marks == NO_MARKS && v.list == Kept(v0.list, v.heap.Keys) && ListOf(v.list, NonConst(v.heap))
    ensures v.heap.Keys == Live(v0.heap, roots) && Closed(v.heap) && ConstClosed(v.heap) && InHeap(v.heap, base)
    ensures v.fixed == v0.fixed && v.heap.Keys <= v0.heap.Keys && forall o :: o in v.heap ==> v.heap[o] == v0.heap[o]
  {
    SweepDone(v, v0);
    SurvivorsClosed(v0.heap, roots, v.heap, base);
  }

  lemma {:induction false} InKept(c: seq<GcObject>, s: set<GcObject>, o: GcObject)
    ensures o in Kept(c, s) <==> o in c && o in s
  {
    if c != [] {
      InKept(c[1..], s, o);
    }
  }

  lemma InFixedRefs(list: seq<GcObject>, fixed: set<GcObject>, o: GcObject)
    ensures o in FixedRefs(list, fixed) <==> o in list && o in fixed
  {
    if o in FixedRefs(list, fixed) {
      var i :| 0 <= i < |list| && FixedRefs(list, fixed)[i] == o;
    }
    if o in list && o in fixed {
      var i :| 0 <= i < |list| && list[i] == o;
      assert FixedRefs(list, fixed)[i] == o;
    }
  }

  lemma {:induction false} WithinSurvivors(h: Heap, roots: seq<GcObject?>, h': Heap, roots': seq<GcObject?>, n: nat)
    requires h'.Keys == Live(h, roots) && (forall o :: o in h' ==> h'[o] == h[o]) && Closed(h) && InHeap(h, roots)
    requires Targets(roots) == Targets(roots')
    ensures Within(h, roots, n) <= h'.Keys && Within(h', roots', n) == Within(h, roots, n)
  {
    if n == 0 {
      forall o | o in Within(h, roots, 0) ensures o in h' {
        var i :| 0 <= i < |roots| && roots[i] == o;
      }
    } else {
      WithinSurvivors(h, roots, h', roots', n - 1);
      var w := Within(h, roots, n - 1);
      assert Successors(h', w) == Successors(h, w);
      forall o | o in Successors(h, w) ensures o in h' {
        var x :| x in w && x in h && o in Targets(Edges(h[x]));
        assert BodyOk(h, h[x]);
        var i :| 0 <= i < |Edges(h[x])| && Edges(h[x])[i] == o;
        assert o in Within(h, roots, n);
      }
    }
  }

  // A second collection right after the first one, with the same roots, frees nothing.
  lemma CollectAgain(v: View, v': View, base: seq<GcObject?>)
    requires Closed(v.heap) && InHeap(v.heap, base) && ListOf(v.list, NonConst(v.heap))
    requires var roots := base + FixedRefs(v.list, v.fixed);
             v'.heap.Keys == Live(v.heap, roots) && (forall o :: o in v'.heap ==> v'.heap[o] == v.heap[o])
    requires v'.fixed == v.fixed && v'.list == Kept(v.list, v'.heap.Keys)
    ensures Live(v'.heap, base + FixedRefs(v'.list, v'.fixed)) == v'.heap.Keys
  {
    var roots, roots' := base + FixedRefs(v.list, v.fixed), base + FixedRefs(v'.list, v'.fixed);
    RootsInHeap(v.heap, base, v.list, v.fixed);
    forall o: GcObject ensures o in Targets(roots) <==> o in Targets(roots') {
      InFixedRefs(v.list, v.fixed, o);
      InFixedRefs(v'.list, v'.fixed, o);
      InKept(v.list, v'.heap.Keys, o);
      if o in Targets(roots) {
        var i :| 0 <= i < |roots| && roots[i] == o;
        RootReachable(v.heap, roots, i);
      }
    }
    assert Targets(roots) == Targets(roots');
    forall o | o in v'.heap ensures o in Live(v'.heap, roots') {
      if !o.isConst {
        var n: nat :| o in Within(v.heap, roots, n);
        WithinSurvivors(v.heap, roots, v'.heap, roots', n);
      }
    }
  }

  // A body with no references yet.
  predicate Bare(body: Body) {
    && (forall i {:trigger Edges(body)[i]} :: 0 <= i < |Edges(body)| ==> Edges(body)[i] == null)
    && (body.ProtoBody? ==> body.name == null && body.source == null && body.varnames == [])
  }

  // A new object without references at the head of the list.
  lemma Added(h: Heap, list: seq<GcObject>, base: seq<GcObject?>, obj: GcObject, body: Body, head: GcObject?,
              next: map<GcObject, GcObject?>, link: map<GcObject, GcObject?>)
    requires Linked(head, next, list) && next.Keys == h.Keys == link.Keys
    requires obj !in h && !obj.isConst && Closed(h) && ConstClosed(h) && InHeap(h, base) && ListOf(list, NonConst(h))
    requires Bare(body)
    ensures Closed(h[obj := body]) && ConstClosed(h[obj := body]) && InHeap(h[obj := body], base)
    ensures ListOf([obj] + list, NonConst(h[obj := body])) && Linked(obj, next[obj := head], [obj] + list)
    ensures next[obj := head].Keys == h[obj := body].Keys == link[obj := null].Keys
  {
    ListMembers(list, NonConst(h));
    LinkedFrame(head, next, list, obj, head);
    var h' := h[obj := body];
    assert NonConst(h') - {obj} == NonConst(h) && ([obj] + list)[1..] == list;
    forall o {:trigger h'[o]} | o in h' ensures BodyOk(h', h'[o]) {
      if o != obj {
        assert BodyOk(h, h[o]);
      }
    }
    forall o {:trigger h'[o]} | o in h' && o.isConst ensures AllConst(Edges(h'[o])) {
      assert AllConst(Edges(h[o]));
    }
  }

  // Names stay strings, and references stay within the heap.
  lemma BodyStays(h: Heap, h': Heap, b: Body)
    requires BodyOk(h, b) && h'.Keys == h.Keys && forall o :: o in h ==> (h[o].StringBody? <==> h'[o].StringBody?)
    ensures BodyOk(h', b)
  {
    hide Edges;
    if b.ProtoBody? {
      forall i {:trigger b.varnames[i]} | 0 <= i < |b.varnames| ensures IsName(h', b.varnames[i]) {
        assert IsName(h, b.varnames[i]);
      }
    }
  }

  // An object that is not const gets another body of its type.
  lemma Stored(h: Heap, base: seq<GcObject?>, obj: GcObject, body: Body)
    requires Closed(h) && ConstClosed(h) && InHeap(h, base) && obj in h && !obj.isConst
    requires BodyOk(h, body) && (body.StringBody? <==> h[obj].StringBody?)
    ensures Closed(h[obj := body]) && ConstClosed(h[obj := body]) && InHeap(h[obj := body], base)
    ensures NonConst(h[obj := body]) == NonConst(h)
  {
    hide BodyOk, AllConst, Edges;
    var h' := h[obj := body];
    forall o {:trigger h'[o]} | o in h' ensures BodyOk(h', h'[o]) {
      if o != obj {
        assert BodyOk(h, h[o]);
      }
      BodyStays(h, h', h'[o]);
    }
    forall o {:trigger h'[o]} | o in h' && o.isConst ensures AllConst(Edges(h'[o])) {
      assert AllConst(Edges(h[o]));
    }
  }

  lemma {:induction false} KeptAll(c: seq<GcObject>, s: set<GcObject>, t: set<GcObject>)
    requires ListOf(c, s) && s <= t
    ensures Kept(c, t) == c
    decreases c
  {
    if c != [] {
      KeptAll(c[1..], s - {c[0]}, t);
    }
  }

  ghost function NonConst(h: Heap): set<GcObject> {
    set o | o in h && !o.isConst
  }

  // The VM's own references, other than the value stack.
  datatype RootSet = RootSet(loaded: GcObject?, path: GcObject?, ntvclass: GcObject?, hook: Value,
                             globals: seq<Value>, builtins: seq<Value>, tracestack: seq<Value>)

  ghost function InternalRefs(r: RootSet): seq<GcObject?> {
    [r.loaded, r.path] + [r.ntvclass, Ref(r.hook)]
  }

  // The premarked roots in the order they are visited, up to the fixed objects.
  ghost function BaseRoots(r: RootSet, live: seq<Value>): seq<GcObject?> {
    InternalRefs(r) + Refs(r.globals) + Refs(r.builtins) + Refs(live) + Refs(r.tracestack)
  }

  ghost function Roots(r: RootSet, live: seq<Value>, v: View): seq<GcObject?> {
    BaseRoots(r, live) + FixedRefs(v.list, v.fixed)
  }

  // The roots of a collection, field by field, and nothing else.
  lemma RootsByField(r: RootSet, live: seq<Value>, v: View, o: GcObject)
    ensures o in Roots(r, live, v) <==>
              || o == r.loaded || o == r.path || o == r.ntvclass || r.hook == Gc(o)
              || Gc(o) in r.globals || Gc(o) in r.builtins || Gc(o) in live || Gc(o) in r.tracestack
              || (o in v.list && o in v.fixed)
  {
    hide Refs, FixedRefs;
    InRefs(r.globals, o);
    InRefs(r.builtins, o);
    InRefs(live, o);
    InRefs(r.tracestack, o);
    InFixedRefs(v.list, v.fixed, o);
  }

  class Vm {
    var list: GcObject?
    var gray: GcObject?
    var roots: RootSet
    var stack: array<Value>
    var top: nat
    var halted: bool
    ghost var view: View

    // A new machine: no objects, no roots.
    constructor (stackSize: nat)
      ensures Valid() && fresh(stack) && stack.Length == stackSize && top == 0 && view.heap == map[] && !halted
    {
      list, gray, halted, top := null, null, false, 0;
      roots := RootSet(null, null, null, Plain, [], [], []);
      stack := new Value[stackSize](i => Plain);
      view := View(map[], map[], map[], [], {}, NO_MARKS);
    }

    ghost predicate Shape()
      reads this, view.heap.Keys
    {
      && SameKeys(view) && Linked(list, view.next, view.list)
      && Linked(gray, view.link, view.marks.list) && ListOf(view.marks.list, view.marks.gray)
      && forall o :: o in view.heap ==> o.State() == Expected(view, o)
    }

    lemma HeadIs()
      requires Shape()
      ensures SameKeys(view) && list == At(view.list, 0) && gray == At(view.marks.list, 0)
    {}

    lemma NextIs(i: nat)
      requires Shape() && i < |view.list|
      ensures view.list[i] in view.heap && view.list[i].next == At(view.list, i + 1)
    {
      LinkedAt(list, view.next, view.list, i);
      Knows(view.list[i]);
    }

    lemma Knows(o: GcObject)
      requires Shape() && o in view.heap
      ensures o.body == view.heap[o] && o.mark == MarkOf(view.marks, o) && (o.fixed <==> o in view.fixed)
      ensures o in view.next && o.next == view.next[o] && o in view.link && o.gray == view.link[o]
    {
      assert o.State() == Expected(view, o);
    }

    method LinkGray(o: GcObject)
      requires Shape() && o in view.heap && o !in view.marks.dark && o !in view.marks.gray
      modifies this`gray, this`view, o`mark, o`gray
      ensures Shape() && OnlyMarks(old(view), view)
      ensures view.marks == old(view.marks).(gray := old(view.marks.gray) + {o}, list := [o] + old(view.marks.list))
    {
      hide WellMarked, ListOf, Linked, Expected;
      ListPush(gray, view.link, view.marks.list, view.marks.gray, o);
      ghost var m := view.marks.(gray := view.marks.gray + {o}, list := [o] + view.marks.list);
      ghost var v := view.(link := view.link[o := gray], marks := m);
      ExpectGray(view, o, gray, m.list);
      o.mark := Gray;
      o.gray := gray;
      gray := o;
      view := v;
    }

    method MarkGray(obj: GcObject?)
      requires Shape() && WellMarked(view.heap, view.marks) && (obj != null ==> obj in view.heap)
      modifies this`gray, this`view, view.heap.Keys`mark, view.heap.Keys`gray
      ensures Shape() && OnlyMarks(old(view), view) && WellMarked(view.heap, view.marks)
      ensures view.marks == Push(view.heap, old(view.marks), obj)
    {
      hide WellMarked, Linked, ListOf;
      PushWellMarked(view.heap, view.marks, obj);
      if obj != null && obj.mark == White && !obj.isConst {
        if Leaf(obj.body) {
          view := view.(marks := view.marks.(dark := view.marks.dark + {obj}));
          obj.mark := Dark;
        } else {
          LinkGray(obj);
        }
      }
    }
  
    method MarkGrayVar(value: Value)
      requires Shape() && WellMarked(view.heap, view.marks) && (value.Gc? ==> value.obj in view.heap)
      modifies this`gray, this`view, view.heap.Keys`mark, view.heap.Keys`gray
      ensures Shape() && OnlyMarks(old(view), view) && WellMarked(view.heap, view.marks)
      ensures view.marks == Push(view.heap, old(view.marks), Ref(value))
    {
      if value.Gc? {
        MarkGray(value.obj);
      }
    }

    // A run of mark_gray_var over an array of values.
    method MarkVars(vs: seq<Value>)
      requires Shape() && WellMarked(view.heap, view.marks) && InHeap(view.heap, Refs(vs))
      modifies this`gray, this`view, view.heap.Keys`mark, view.heap.Keys`gray
      ensures Shape() && OnlyMarks(old(view), view) && WellMarked(view.heap, view.marks)
      ensures view.marks == PushEach(view.heap, old(view.marks), Refs(vs))
    {
      hide Shape, WellMarked, Push;
      ghost var os := Refs(vs);
      for i := 0 to |vs|
        invariant Shape() && OnlyMarks(old(view), view) && WellMarked(view.heap, view.marks)
        invariant view.marks == PushAll(view.heap, old(view.marks), os, i)
      {
        assert os[i] == Ref(vs[i]);
        MarkGrayVar(vs[i]);
      }
    }

    method MarkObjects(os: seq<GcObject?>)
      requires Shape() && WellMarked(view.heap, view.marks) && InHeap(view.heap, os)
      modifies this`gray, this`view, view.heap.Keys`mark, view.heap.Keys`gray
      ensures Shape() && OnlyMarks(old(view), view) && WellMarked(view.heap, view.marks)
      ensures view.marks == PushEach(view.heap, old(view.marks), os)
    {
      hide Shape, WellMarked, Push;
      for i := 0 to |os|
        invariant Shape() && OnlyMarks(old(view), view) && WellMarked(view.heap, view.marks)
        invariant view.marks == PushAll(view.heap, old(view.marks), os, i)
      {
        MarkGray(os[i]);
      }
    }

    // gc_setdark_safe
    method SetDark(o: GcObject?)
      requires Shape() && WellMarked(view.heap, view.marks) && IsName(view.heap, o)
      modifies this`gray, this`view, view.heap.Keys`mark, view.heap.Keys`gray
      ensures Shape() && OnlyMarks(old(view), view) && WellMarked(view.heap, view.marks)
      ensures view.marks == Push(view.heap, old(view.marks), o)
    {
      hide Linked, ListOf;
      if o != null && !o.isConst {
        PushWellMarked(view.heap, view.marks, o);
        view := view.(marks := Push(view.heap, view.marks, o));
        o.mark := Dark;
      }
    }

    method SetNamesDark(os: seq<GcObject?>)
      requires Shape() && WellMarked(view.heap, view.marks) && InHeap(view.heap, os) && Names(view.heap, os)
      modifies this`gray, this`view, view.heap.Keys`mark, view.heap.Keys`gray
      ensures Shape() && OnlyMarks(old(view), view) && WellMarked(view.heap, view.marks)
      ensures view.marks == PushEach(view.heap, old(view.marks), os)
    {
      hide Shape, WellMarked, Push;
      for i := 0 to |os|
        invariant Shape() && OnlyMarks(old(view), view) && WellMarked(view.heap, view.marks)
        invariant view.marks == PushAll(view.heap, old(view.marks), os, i)
      {
        SetDark(os[i]);
      }
    }

    // The object at the head of the gray list has been made dark and is about to be scanned.
    ghost predicate Scanning(obj: GcObject)
      reads this, view.heap.Keys
    {
      && Shape() && obj in view.heap && obj in view.marks.dark && BodyOk(view.heap, view.heap[obj])
      && view.marks.list != [] && view.marks.list[0] == obj && WellMarked(view.heap, Popped(view.marks))
    }

    lemma KnowsScanned(obj: GcObject)
      requires Scanning(obj)
      ensures obj.body == view.heap[obj] && BodyOk(view.heap, obj.body)
    {
      Knows(obj);
    }

    // Removing the scanned object from the gray list.
    method Pop(obj: GcObject)
      requires Scanning(obj)
      modifies this`gray, this`view
      ensures Shape() && WellMarked(view.heap, view.marks) && view == old(view).(marks := Popped(old(view.marks)))
    {
      Knows(obj);
      ExpectPopped(view);
      hide Expected, ListOf;
      gray := obj.gray;
      view := view.(marks := Popped(view.marks));
    }

    method MarkEntry(entry: Entry)
      requires Shape() && WellMarked(view.heap, view.marks)
      requires (entry.key.Gc? ==> entry.key.obj in view.heap) && (entry.value.Gc? ==> entry.value.obj in view.heap)
      modifies this`gray, this`view, view.heap.Keys`mark, view.heap.Keys`gray
      ensures Shape() && OnlyMarks(old(view), view) && WellMarked(view.heap, view.marks)
      ensures view.marks == Push(view.heap, Push(view.heap, old(view.marks), Ref(entry.key)), Ref(entry.value))
    {
      hide Shape, WellMarked, Push;
      MarkGrayVar(entry.key);
      MarkGrayVar(entry.value);
    }

    method MarkEntries(entries: seq<Entry>)
      requires Shape() && WellMarked(view.heap, view.marks) && InHeap(view.heap, EntryRefs(entries))
      modifies this`gray, this`view, view.heap.Keys`mark, view.heap.Keys`gray
      ensures Shape() && OnlyMarks(old(view), view) && WellMarked(view.heap, view.marks)
      ensures view.marks == PushEach(view.heap, old(view.marks), EntryRefs(entries))
    {
      hide Shape, WellMarked, Push, EntryRefs;
      ghost var os := EntryRefs(entries);
      EntryRefsSize(entries);
      for i := 0 to |entries|
        invariant Shape() && OnlyMarks(old(view), view) && WellMarked(view.heap, view.marks)
        invariant view.marks == PushAll(view.heap, old(view.marks), os, 2 * i)
      {
        EntryRefsAt(entries, i);
        MarkEntry(entries[i]);
        PushNext(view.heap, old(view.marks), os, 2 * i);
      }
    }

    method MarkMap(obj: GcObject)
      requires Scanning(obj) && obj.body.MapBody?
      modifies this`gray, this`view, view.heap.Keys`mark, view.heap.Keys`gray
      ensures Shape() && OnlyMarks(old(view), view) && WellMarked(view.heap, view.marks)
      ensures view.marks == PushEach(view.heap, Popped(old(view.marks)), Edges(obj.body))
    {
      KnowsScanned(obj);
      hide Scanning, Shape, WellMarked, Push, PushAll;
      Pop(obj);
      MarkEntries(obj.body.entries);
    }

    method MarkList(obj: GcObject)
      requires Scanning(obj) && obj.body.ListBody?
      modifies this`gray, this`view, view.heap.Keys`mark, view.heap.Keys`gray
      ensures Shape() && OnlyMarks(old(view), view) && WellMarked(view.heap, view.marks)
      ensures view.marks == PushEach(view.heap, Popped(old(view.marks)), Edges(obj.body))
    {
      KnowsScanned(obj);
      hide Scanning, Shape, WellMarked, Push, PushAll;
      Pop(obj);
      MarkVars(obj.body.items);
    }

    method MarkProto(obj: GcObject)
      requires Scanning(obj) && obj.body.ProtoBody?
      modifies this`gray, this`view, view.heap.Keys`mark, view.heap.Keys`gray
      ensures Shape() && OnlyMarks(old(view), view) && WellMarked(view.heap, view.marks)
      ensures view.marks == PushEach(view.heap, Popped(old(view.marks)), Edges(obj.body))
    {
      KnowsScanned(obj);
      hide Scanning, Shape, WellMarked, Push, PushEach, Popped, Leaf;
      Pop(obj);
      var p := obj.body;
      PushProto(view.heap, view.marks, Refs(p.ktab), p.ptab, [p.name, p.source], p.varnames);
      MarkVars(p.ktab);
      MarkObjects(p.ptab);
      PushTwo(view.heap, view.marks, p.name, p.source);
      SetDark(p.name);
      SetDark(p.source);
      SetNamesDark(p.varnames);
    }

    method MarkUpvalues(us: seq<Upvalue>)
      requires Shape() && WellMarked(view.heap, view.marks) && InHeap(view.heap, UpvalueRefs(us))
      modifies this`gray, this`view, view.heap.Keys`mark, view.heap.Keys`gray
      ensures Shape() && OnlyMarks(old(view), view) && WellMarked(view.heap, view.marks)
      ensures view.marks == PushEach(view.heap, old(view.marks), UpvalueRefs(us))
    {
      hide Shape, WellMarked;
      ghost var os := UpvalueRefs(us);
      for i := 0 to |us|
        invariant Shape() && OnlyMarks(old(view), view) && WellMarked(view.heap, view.marks)
        invariant view.marks == PushAll(view.heap, old(view.marks), os, i)
      {
        if us[i].Upvalue? && us[i].refcnt > 0 {
          assert os[i] == Ref(us[i].value);
          MarkGrayVar(us[i].value);
        }
      }
    }

    method MarkClosure(obj: GcObject)
      requires Scanning(obj) && obj.body.ClosureBody?
      modifies this`gray, this`view, view.heap.Keys`mark, view.heap.Keys`gray
      ensures Shape() && OnlyMarks(old(view), view) && WellMarked(view.heap, view.marks)
      ensures view.marks == PushEach(view.heap, Popped(old(view.marks)), Edges(obj.body))
    {
      KnowsScanned(obj);
      hide Scanning, Shape, WellMarked, Push, PushEach, Popped, Leaf;
      Pop(obj);
      PushEachAppend(view.heap, view.marks, UpvalueRefs(obj.body.upvals), [obj.body.proto]);
      MarkUpvalues(obj.body.upvals);
      PushOne(view.heap, view.marks, obj.body.proto);
      MarkGray(obj.body.proto);
    }

    method MarkNtvClos(obj: GcObject)
      requires Scanning(obj) && obj.body.NtvClosBody?
      modifies this`gray, this`view, view.heap.Keys`mark, view.heap.Keys`gray
      ensures Shape() && OnlyMarks(old(view), view) && WellMarked(view.heap, view.marks)
      ensures view.marks == PushEach(view.heap, Popped(old(view.marks)), Edges(obj.body))
    {
      KnowsScanned(obj);
      hide Scanning, Shape, WellMarked, Push, PushAll;
      Pop(obj);
      MarkUpvalues(obj.body.upvals);
    }

    method MarkClass(obj: GcObject)
      requires Scanning(obj) && obj.body.ClassBody?
      modifies this`gray, this`view, view.heap.Keys`mark, view.heap.Keys`gray
      ensures Shape() && OnlyMarks(old(view), view) && WellMarked(view.heap, view.marks)
      ensures view.marks == PushEach(view.heap, Popped(old(view.marks)), Edges(obj.body))
    {
      KnowsScanned(obj);
      hide Scanning, Shape, WellMarked, Push, PushEach, Popped, Leaf;
      Pop(obj);
      var c := obj.body;
      PushThree(view.heap, view.marks, c.name, c.members, c.super);
      MarkGray(c.name);
      MarkGray(c.members);
      MarkGray(c.super);
    }

    method MarkInstance(obj: GcObject)
      requires Scanning(obj) && obj.body.InstanceBody?
      modifies this`gray, this`view, view.heap.Keys`mark, view.heap.Keys`gray
      ensures Shape() && OnlyMarks(old(view), view) && WellMarked(view.heap, view.marks)
      ensures view.marks == PushEach(view.heap, Popped(old(view.marks)), Edges(obj.body))
    {
      KnowsScanned(obj);
      hide Scanning, Shape, WellMarked, Push, PushEach, Popped, Leaf;
      Pop(obj);
      var o := obj.body;
      PushEachAppend(view.heap, view.marks, [o.class_, o.super], Refs(o.vars));
      PushTwo(view.heap, view.marks, o.class_, o.super);
      MarkGray(o.class_);
      MarkGray(o.super);
      MarkVars(o.vars);
    }

    method MarkModule(obj: GcObject)
      requires Scanning(obj) && obj.body.ModuleBody?
      modifies this`gray, this`view, view.heap.Keys`mark, view.heap.Keys`gray
      ensures Shape() && OnlyMarks(old(view), view) && WellMarked(view.heap, view.marks)
      ensures view.marks == PushEach(view.heap, Popped(old(view.marks)), Edges(obj.body))
    {
      KnowsScanned(obj);
      hide Scanning, Shape, WellMarked, Push, PushEach, Popped, Leaf;
      Pop(obj);
      var o := obj.body;
      PushTwo(view.heap, view.marks, o.table, if o.hasName then o.name else null);
      MarkGray(o.table);
      if o.hasName {
        MarkGray(o.name);
      }
    }
  
    // gc_setdark on an object with references.
    method Darken(obj: GcObject)
      requires Shape() && obj in view.heap
      modifies this`view, obj`mark
      ensures Shape() && view == old(view).(marks := old(view.marks).(dark := old(view.marks.dark) + {obj}))
    {
      ExpectDark(view, obj);
      hide Expected, ListOf, Linked;
      view := view.(marks := view.marks.(dark := view.marks.dark + {obj}));
      obj.mark := Dark;
    }

    // The body of the loop in mark_unscanned.
    method ScanHead(ghost all: seq<GcObject?>)
      requires Shape() && Marking(view.heap, all, view.marks) && gray != null
      modifies this`gray, this`view, view.heap.Keys`mark, view.heap.Keys`gray
      ensures Shape() && OnlyMarks(old(view), view) && Marking(view.heap, all, view.marks)
      ensures old(view.marks.dark) < view.marks.dark
    {
      HeadIs();
      hide Shape, InHeap, Edges, Scanned, OnlyReachable;
      ghost var m := view.marks;
      ScanKeeps(view.heap, all, m);
      var obj := gray;
      Knows(obj);
      if obj.mark != Dark && !obj.isConst {
        Darken(obj);
        ScanObject(obj, m);
      }
    }

    method ScanObject(obj: GcObject, ghost m: Marks)
      requires Scanning(obj) && !Leaf(obj.body) && view.marks == m.(dark := m.dark + {obj}) && Closed(view.heap)
      modifies this`gray, this`view, view.heap.Keys`mark, view.heap.Keys`gray
      ensures Shape() && OnlyMarks(old(view), view) && view.marks == Scan(view.heap, m)
    {
      match obj.body
      case ClassBody(_, _, _) => MarkClass(obj);
      case ProtoBody(_, _, _, _, _) => MarkProto(obj);
      case InstanceBody(_, _, _) => MarkInstance(obj);
      case MapBody(_) => MarkMap(obj);
      case ListBody(_) => MarkList(obj);
      case ClosureBody(_, _) => MarkClosure(obj);
      case NtvClosBody(_) => MarkNtvClos(obj);
      case ModuleBody(_, _, _) => MarkModule(obj);
    }

    // mark_unscanned: when it ends, exactly the objects reachable from the all are dark.
    method MarkUnscanned(ghost all: seq<GcObject?>)
      requires Shape() && Marking(view.heap, all, view.marks)
      modifies this`gray, this`view, view.heap.Keys`mark, view.heap.Keys`gray
      ensures Shape() && OnlyMarks(old(view), view) && WellMarked(view.heap, view.marks)
      ensures gray == null && view.marks.list == [] && view.marks.gray == {}
      ensures forall o :: o in view.heap ==> (o.mark == Dark <==> Reachable(view.heap, all, o))
      ensures Live(view.heap, all) == set o | o in view.heap && (o.isConst || o in view.marks.dark)
    {
      while gray != null
        invariant Shape() && OnlyMarks(old(view), view) && Marking(view.heap, all, view.marks)
        decreases view.heap.Keys - view.marks.dark
      {
        ScanHead(all);
      }
      MarkedIsReachable(view.heap, all, view.marks);
    }

    method PremarkInternal()
      requires Shape() && WellMarked(view.heap, view.marks) && InHeap(view.heap, InternalRefs(roots))
      modifies this`gray, this`view, view.heap.Keys`mark, view.heap.Keys`gray
      ensures Shape() && OnlyMarks(old(view), view) && WellMarked(view.heap, view.marks)
      ensures view.marks == PushEach(view.heap, old(view.marks), InternalRefs(roots))
    {
      hide Shape, WellMarked, Push;
      PushEachAppend(view.heap, view.marks, [roots.loaded, roots.path], [roots.ntvclass, Ref(roots.hook)]);
      PushTwo(view.heap, view.marks, roots.loaded, roots.path);
      PushTwo(view.heap, PushEach(view.heap, view.marks, [roots.loaded, roots.path]), roots.ntvclass, Ref(roots.hook));
      MarkGray(roots.loaded);
      MarkGray(roots.path);
      MarkGray(roots.ntvclass);
      MarkGrayVar(roots.hook);
    }

    // Live slots are marked, the slots above them are cleared.
    method PremarkStack()
      requires Shape() && WellMarked(view.heap, view.marks) && top <= stack.Length
      requires InHeap(view.heap, Refs(stack[..top]))
      modifies this`gray, this`view, view.heap.Keys`mark, view.heap.Keys`gray, stack
      ensures Shape() && OnlyMarks(old(view), view) && WellMarked(view.heap, view.marks)
      ensures stack[..top] == old(stack[..top]) && forall i :: top <= i < stack.Length ==> stack[i] == Plain
      ensures view.marks == PushEach(view.heap, old(view.marks), Refs(stack[..top]))
    {
      hide Shape, WellMarked, Push;
      MarkVars(stack[..top]);
      var v := top;
      ghost var live := stack[..top];
      while v < stack.Length
        invariant top <= v <= stack.Length && stack[..top] == live
        invariant forall i :: top <= i < v ==> stack[i] == Plain
        modifies stack
      {
        stack[v] := Plain;
        v := v + 1;
      }
    }

    method PremarkFixed()
      requires Shape() && WellMarked(view.heap, view.marks) && InHeap(view.heap, FixedRefs(view.list, view.fixed))
      modifies this`gray, this`view, view.heap.Keys`mark, view.heap.Keys`gray
      ensures Shape() && OnlyMarks(old(view), view) && WellMarked(view.heap, view.marks)
      ensures view.marks == PushEach(view.heap, old(view.marks), FixedRefs(view.list, view.fixed))
    {
      hide Shape, WellMarked;
      ghost var os, c := FixedRefs(view.list, view.fixed), view.list;
      ghost var i := 0;
      var node := list;
      HeadIs();
      while node != null
        invariant Shape() && OnlyMarks(old(view), view) && WellMarked(view.heap, view.marks)
        invariant 0 <= i <= |c| && node == At(c, i)
        invariant view.marks == PushAll(view.heap, old(view.marks), os, i)
        decreases |c| - i
      {
        NextIs(i);
        Knows(node);
        if node.fixed && node.mark == White {
          MarkGray(node);
        }
        node, i := node.next, i + 1;
      }
    }

    method UnlinkFirst(node: GcObject) returns (prev: GcObject?)
      requires Shape() && view.marks.gray == {} && view.marks.list == [] && ListOf(view.list, NonConst(view.heap))
      requires 0 < |view.list| && node == view.list[0] && node in view.heap && node !in view.marks.dark
      modifies this`list, this`view
      ensures Shape() && view == SweepAt(old(view), 0)
    {
      Knows(node);
      FreedView(view, list, 0);
      hide Linked, ListOf, SweepAt, Expected, NonConst, SameKeys, MarkOf, GcObject.State;
      list := node.next;
      prev := node.next;
      view := SweepAt(view, 0);
    }

    // Changing one link, when the rest of the new state is in place.
    method SetNext(o: GcObject, next: GcObject?, ghost w: View)
      requires SameKeys(w) && Linked(list, w.next, w.list) && Linked(gray, w.link, w.marks.list)
      requires ListOf(w.marks.list, w.marks.gray) && o in w.heap
      requires forall x :: x in w.heap ==> Expected(w, x) == if x == o then o.State().(next := next) else x.State()
      modifies this`view, o`next
      ensures Shape() && view == w
    {
      hide Linked, ListOf, Expected;
      o.next := next;
      view := w;
    }

    // The objects as they are to be once the one at place i is unlinked behind prev.
    lemma UnlinkReady(prev: GcObject, node: GcObject, i: nat)
      requires Shape() && ListOf(view.list, NonConst(view.heap)) && 0 < i < |view.list|
      requires node == view.list[i] && prev == view.list[i - 1] && node in view.heap && node !in view.marks.dark
      ensures node in view.next && prev in view.heap && prev != node
      ensures var w := SweepAt(view, i);
              Linked(list, w.next, w.list) && SameKeys(w) && w.marks == view.marks && w.heap.Keys <= view.heap.Keys
              && forall o :: o in w.heap ==> Expected(w, o) == if o == prev then prev.State().(next := node.next) else o.State()
    {
      Knows(node);
      FreedView(view, list, i);
      hide Linked, ListOf, SweepAt, Expected, NonConst, GcObject.State;
    }

    method UnlinkNext(prev: GcObject, node: GcObject, next: GcObject?, ghost i: nat)
      requires Shape() && view.marks.gray == {} && view.marks.list == [] && ListOf(view.list, NonConst(view.heap))
      requires 0 < i < |view.list| && node == view.list[i] && node in view.heap && node !in view.marks.dark
      requires next == node.next && prev == view.list[i - 1]
      modifies this`view, prev`next
      ensures Shape() && view == SweepAt(old(view), i)
    {
      UnlinkReady(prev, node, i);
      ghost var w := SweepAt(view, i);
      assert Linked(gray, w.link, w.marks.list) && ListOf(w.marks.list, w.marks.gray);
      hide Linked, ListOf, SweepAt, Expected, NonConst, SameKeys, Shape;
      SetNext(prev, next, w);
    }

    // A white object is unlinked and freed; its predecessor on the list, if any, is prev.
    method FreeNode(prev: GcObject?, node: GcObject, next: GcObject?, ghost i: nat) returns (prev': GcObject?)
      requires Shape() && view.marks.gray == {} && view.marks.list == [] && ListOf(view.list, NonConst(view.heap))
      requires i < |view.list| && node == view.list[i] && node in view.heap && node.mark == White
      requires next == node.next && (i > 0 ==> prev == view.list[i - 1])
      modifies this`list, this`view, view.heap.Keys`next
      ensures Shape() && view == SweepAt(old(view), i) && (i > 0 ==> prev' == prev)
    {
      FreedView(view, list, i);
      hide Linked, ListOf, SweepAt, Expected;
      if node == list {
        prev' := UnlinkFirst(node);
      } else {
        UnlinkNext(prev, node, next, i);
        prev' := prev;
      }
    }

    // A dark object is white again.
    method Whiten(node: GcObject, ghost i: nat)
      requires Shape() && view.marks.gray == {} && i < |view.list| && node == view.list[i] && node in view.heap
      requires node in view.marks.dark
      modifies this`view, node`mark
      ensures Shape() && view == SweepAt(old(view), i)
    {
      ExpectWhite(view, node);
      hide Expected, ListOf, Linked;
      node.mark := White;
      view := view.(marks := view.marks.(dark := view.marks.dark - {node}));
    }

    // One turn of the loop in delete_white.
    method SweepNode(prev: GcObject?, node: GcObject, ghost i: nat, ghost v0: View) returns (prev': GcObject?, next: GcObject?)
      requires Shape() && Sweeping(view, v0, i) && node == At(view.list, i) && (i > 0 ==> prev == view.list[i - 1])
      modifies this`list, this`view, node`mark, view.heap.Keys`next
      ensures Shape() && Turned(old(view), view, v0, i, prev', next)
    {
      hide Kept, ListOf, NonConst, SweepAt, Turned;
      ghost var v := view;
      SweepAtKeeps(view, v0, i);
      HeadIs();
      NextIs(i);
      Knows(node);
      hide Shape, Sweeping;
      next := node.next;
      if node.mark == White {
        prev' := FreeNode(prev, node, next, i);
      } else {
        Whiten(node, i);
        prev' := node;
      }
      SweepTurns(v, v0, i, prev');
    }

    // delete_white
    method DeleteWhite()
      requires Shape() && view.marks.gray == {} && view.marks.list == [] && ListOf(view.list, NonConst(view.heap))
      modifies this`list, this`view, view.heap.Keys`mark, view.heap.Keys`next
      ensures Shape() && Sweeping(view, old(view), |view.list|)
    {
      HeadIs();
      hide Kept, Shape, SweepAt;
      var node, prev := list, list;
      ghost var i := 0;
      assert view.list[0..] == view.list && [] + Kept(view.list, view.marks.dark) == Kept(view.list, view.marks.dark);
      while node != null
        invariant Shape() && Sweeping(view, old(view), i)
        invariant node == At(view.list, i) && (i > 0 ==> prev == view.list[i - 1])
        decreases |view.list| - i
      {
        ghost var dark := node in view.marks.dark;
        ListMembers(view.list, NonConst(view.heap));
        prev, node := SweepNode(prev, node, i, old(view));
        i := if dark then i + 1 else i;
      }
    }
  
    // Step 1 of a collection: the roots are seen and nothing else.
    method Premark()
      requires Shape() && view.marks == NO_MARKS && top <= stack.Length && Closed(view.heap)
      requires InHeap(view.heap, Roots(roots, stack[..top], view))
      modifies this`gray, this`view, view.heap.Keys`mark, view.heap.Keys`gray, stack
      ensures Shape() && OnlyMarks(old(view), view) && stack[..top] == old(stack[..top])
      ensures Marking(view.heap, Roots(roots, stack[..top], view), view.marks)
      ensures forall i :: top <= i < stack.Length ==> stack[i] == Plain
    {
      hide Shape, WellMarked, InHeap, Closed, Push, PushAll, Marking, InternalRefs, FixedRefs;
      NothingMarked(view.heap);
      ghost var h, live, fixed := view.heap, stack[..top], FixedRefs(view.list, view.fixed);
      PushRoots(h, NO_MARKS, InternalRefs(roots), Refs(roots.globals), Refs(roots.builtins), Refs(live),
                Refs(roots.tracestack), fixed);
      Premarked(h, Roots(roots, live, view));
      PremarkInternal();
      MarkVars(roots.globals);
      MarkVars(roots.builtins);
      PremarkStack();
      MarkVars(roots.tracestack);
      PremarkFixed();
    }

    // Between collections every object is white, and the list holds each collectable object once.
    ghost predicate Valid()
      reads this, stack, view.heap.Keys
    {
      && Shape() && view.marks == NO_MARKS && ListOf(view.list, NonConst(view.heap))
      && Closed(view.heap) && ConstClosed(view.heap)
      && top <= stack.Length && InHeap(view.heap, BaseRoots(roots, stack[..top]))
    }

    lemma EdgeStays(o: GcObject, x: GcObject)
      requires Valid() && o in view.heap && x in Edges(o.body)
      ensures x in view.heap
    {
      Knows(o);
      hide Shape, Edges;
      assert BodyOk(view.heap, view.heap[o]);
      var i :| 0 <= i < |Edges(o.body)| && Edges(o.body)[i] == x;
    }

    // Nothing an object of the machine holds was freed, field by field.
    lemma Held(o: GcObject, x: GcObject)
      requires Valid() && o in view.heap
      ensures o.mark == White
      ensures match o.body
              case StringBody => true
              case ComObjBody => true
              case ClassBody(name, members, super) => x == name || x == members || x == super ==> x in view.heap
              case ProtoBody(ktab, ptab, name, source, varnames) =>
                Gc(x) in ktab || x in ptab || x == name || x == source || x in varnames ==> x in view.heap
              case InstanceBody(class_, super, vars) => x == class_ || x == super || Gc(x) in vars ==> x in view.heap
              case MapBody(entries) =>
                forall i :: 0 <= i < |entries| && (entries[i].key == Gc(x) || entries[i].value == Gc(x)) ==> x in view.heap
              case ListBody(items) => Gc(x) in items ==> x in view.heap
              case ClosureBody(proto, upvals) =>
                && (x == proto ==> x in view.heap)
                && (forall i :: 0 <= i < |upvals| && upvals[i].Upvalue? && upvals[i].refcnt > 0 && upvals[i].value == Gc(x)
                      ==> x in view.heap)
              case NtvClosBody(upvals) =>
                forall i :: 0 <= i < |upvals| && upvals[i].Upvalue? && upvals[i].refcnt > 0 && upvals[i].value == Gc(x)
                  ==> x in view.heap
              case ModuleBody(table, hasName, name) => x == table || (hasName && x == name) ==> x in view.heap
    {
      Knows(o);
      EdgesByField(o.body, x);
      if x in Edges(o.body) {
        EdgeStays(o, x);
      }
      hide Valid, Edges, Shape;
    }

    // Nothing the machine itself refers to was freed, field by field.
    lemma RootsHeld(x: GcObject)
      requires Valid()
      ensures x == roots.loaded || x == roots.path || x == roots.ntvclass || roots.hook == Gc(x) ==> x in view.heap
      ensures Gc(x) in roots.globals || Gc(x) in roots.builtins || Gc(x) in roots.tracestack ==> x in view.heap
      ensures Gc(x) in stack[..top] ==> x in view.heap
    {
      hide Shape, Refs, FixedRefs, Closed, ConstClosed, ListOf;
      InRefs(roots.globals, x);
      InRefs(roots.builtins, x);
      InRefs(stack[..top], x);
      InRefs(roots.tracestack, x);
      var base := BaseRoots(roots, stack[..top]);
      if x in base {
        var i :| 0 <= i < |base| && base[i] == x;
      }
    }

    // Steps 1 and 2: when they are done, exactly the reachable objects are dark.
    method MarkLive()
      requires Valid()
      modifies this`gray, this`view, view.heap.Keys`mark, view.heap.Keys`gray, stack
      ensures Shape() && OnlyMarks(old(view), view) && stack[..top] == old(stack[..top])
      ensures WellMarked(view.heap, view.marks) && view.marks.list == [] && view.marks.gray == {}
      ensures Live(view.heap, old(Roots(roots, stack[..top], view)))
              == set o | o in view.heap && (o.isConst || o in view.marks.dark)
      ensures forall i :: top <= i < stack.Length ==> stack[i] == Plain
    {
      RootsInHeap(view.heap, BaseRoots(roots, stack[..top]), view.list, view.fixed);
      ghost var all := Roots(roots, stack[..top], view);
      Premark();
      MarkUnscanned(all);
    }

    // be_gc_collect: exactly the reachable and the const objects stay, the list keeps its order, all
    // survivors are white and refer to nothing that was freed.
    method Collect()
      requires Valid()
      modifies this`list, this`gray, this`view, view.heap.Keys`mark, view.heap.Keys`gray, view.heap.Keys`next, stack
      ensures Valid() && stack[..top] == old(stack[..top])
      ensures halted ==> view == old(view)
      ensures !halted ==> view.heap.Keys == Live(old(view.heap), old(Roots(roots, stack[..top], view)))
      ensures view.heap.Keys <= old(view.heap.Keys) && forall o :: o in view.heap ==> view.heap[o] == old(view.heap)[o]
      ensures view.fixed == old(view.fixed) && view.list == Kept(old(view.list), view.heap.Keys)
    {
      hide Shape, Closed, ConstClosed, InHeap, Kept, Live, ListOf, Sweeping, WellMarked, BaseRoots, FixedRefs;
      KeptAll(view.list, NonConst(view.heap), view.heap.Keys);
      if !halted {
        ghost var base, all := BaseRoots(roots, stack[..top]), Roots(roots, stack[..top], view);
        RootsInHeap(view.heap, base, view.list, view.fixed);
        MarkLive();
        ghost var v := view;
        DeleteWhite();
        Collected(view, v, all, base);
      }
    }

    // be_newgcobj: the collector may run first; the new object then heads the list.
    method NewObject(body: Body, collect: bool) returns (obj: GcObject)
      requires Valid() && Bare(body)
      modifies this`list, this`gray, this`view, view.heap.Keys`mark, view.heap.Keys`gray, view.heap.Keys`next, stack
      ensures Valid() && fresh(obj) && obj.body == body && obj in view.heap && view.list != [] && view.list[0] == obj
      ensures view.heap.Keys - {obj} <= old(view.heap.Keys)
      ensures Live(old(view.heap), old(Roots(roots, stack[..top], view))) <= view.heap.Keys
      ensures !collect ==> view.heap == old(view.heap)[obj := body] && view.list == [obj] + old(view.list)
    {
      if collect {
        Collect();
      }
      obj := new GcObject(body);
      Insert(obj);
    }

    // The running program changes what an object refers to; its type stays.
    method Store(obj: GcObject, body: Body)
      requires Valid() && obj in view.heap && !obj.isConst && (body.StringBody? <==> obj.body.StringBody?)
      requires BodyOk(view.heap, body)
      modifies this`view, obj`body
      ensures Valid() && view == old(view).(heap := old(view.heap)[obj := body]) && obj.body == body
    {
      hide SameKeys, BaseRoots;
      Knows(obj);
      hide Closed, ConstClosed, InHeap, Expected, ListOf, Linked, BodyOk, NonConst, MarkOf;
      Stored(view.heap, BaseRoots(roots, stack[..top]), obj, body);
      ExpectStored(view, obj, body);
      obj.body := body;
      view := view.(heap := view.heap[obj := body]);
    }

    // The new object is linked in front of the others.
    method Insert(obj: GcObject)
      requires Valid() && obj !in view.heap && !obj.isConst && obj.mark == White && obj.gray == null && !obj.fixed
      requires Bare(obj.body)
      modifies this`list, this`view, obj`next
      ensures Valid() && view.heap == old(view.heap)[obj := obj.body] && view.list == [obj] + old(view.list)
    {
      hide Closed, ConstClosed, InHeap, Kept, Bare, Expected, ListOf, NonConst, MarkOf;
      Added(view.heap, view.list, BaseRoots(roots, stack[..top]), obj, obj.body, list, view.next, view.link);
      ExpectAdded(view, obj, obj.body, list);
      ghost var v := view.(heap := view.heap[obj := obj.body], next := view.next[obj := list], link := view.link[obj := null],
                           list := [obj] + view.list, fixed := view.fixed - {obj});
      obj.next := list;
      list := obj;
      view := v;
    }
  }
}
