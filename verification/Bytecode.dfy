/** Saving a function prototype as bytecode and loading it again (be_bytecode.c), for 64-bit integers
    and double precision reals. */
module Bytecode {
  import opened Wrappers
  import opened Bits
  import opened ShortStrings
  import Decoder

  type Bytes = seq<Byte>

  type Word = x: int | 0 <= x < 0x1_0000

  type Long = x: int | 0 <= x < 0x1_0000_0000

  type Int64 = x: int | -0x8000_0000_0000_0000 <= x < 0x8000_0000_0000_0000

  // The 64 bits of a double.
  type Double = x: int | 0 <= x < 0x1_0000_0000_0000_0000

  datatype Upvalue = Upvalue(instack: Byte, idx: Byte)

  // A missing name or source is a null pointer.
  datatype Proto = Proto(name: Option<Bytes>, source: Option<Bytes>, argc: Byte, nstack: Byte, varg: Byte,
                         code: seq<Long>, consts: seq<Value>, protos: seq<Proto>, upvals: seq<Upvalue>)

  // Every other type of constant has only its type code.
  datatype Value = Nil | Int(i: Int64) | Real(r: Double) | Str(s: Bytes) | Class(c: ClassObj) | Other(kind: Byte)

  // The members are in the order in which the member map is iterated over.
  datatype ClassObj = ClassObj(name: Bytes, nvar: nat, members: seq<Member>)

  datatype Member = Member(name: Bytes, value: MemberValue)

  datatype MemberValue = Variable(index: nat) | Method(proto: Proto) | Closure(proto: Proto, isStatic: bool) | NilStatic | Unsupported

  const BE_NIL: Byte := 0
  const BE_INT: Byte := 1
  const BE_REAL: Byte := 2
  const BE_STRING: Byte := 16
  const BE_CLASS: Byte := 17

  const OP_GETGBL := 24
  const OP_SETGBL := 25

  // ----- numbers and strings -----

  function SaveWord(v: Word): Bytes {
    [v % 256, v / 256]
  }

  function SaveLong(v: Long): Bytes {
    [v % 256, v / 256 % 256, v / 0x1_0000 % 256, v / 0x100_0000]
  }

  function SaveInt(i: Int64): Bytes {
    SaveLong(i % 0x1_0000_0000) + SaveLong(i / 0x1_0000_0000 % 0x1_0000_0000)
  }

  function SaveReal(r: Double): Bytes {
    SaveLong(r % 0x1_0000_0000) + SaveLong(r / 0x1_0000_0000)
  }

  // The length is stored in 16 bits, and only that many bytes follow.
  function SaveString(s: Bytes): Bytes {
    SaveWord(|s| % 0x1_0000) + s[..|s| % 0x1_0000]
  }

  function SaveName(s: Option<Bytes>): Bytes {
    if s.Some? then SaveString(s.value) else []
  }

  function Join(low: Byte, high: Byte): Word {
    low + 256 * high
  }

  // At the end of the file the readers return zero.
  function LoadByte(b: Bytes): (r: (Byte, Bytes))
    ensures |r.1| <= |b|
  {
    if b == [] then (0, []) else (b[0], b[1..])
  }

  function LoadWord(b: Bytes): (r: (Word, Bytes))
    ensures |r.1| <= |b|
  {
    if |b| < 2 then (0, []) else (Join(b[0], b[1]), b[2..])
  }

  function LoadLong(b: Bytes): (r: (Long, Bytes))
    ensures |r.1| <= |b|
  {
    if |b| < 4 then (0, []) else (Join(b[0], b[1]) + 0x1_0000 * Join(b[2], b[3]), b[4..])
  }

  function Signed(lo: Long, hi: Long): Int64 {
    lo + 0x1_0000_0000 * if hi < 0x8000_0000 then hi else hi - 0x1_0000_0000
  }

  function Unsigned(lo: Long, hi: Long): Double {
    lo + 0x1_0000_0000 * hi
  }

  // Two halves; the upper one carries the sign.
  function LoadInt(b: Bytes): (Int64, Bytes) {
    var (lo, b1) := LoadLong(b);
    var (hi, b2) := LoadLong(b1);
    (Signed(lo, hi), b2)
  }

  function LoadReal(b: Bytes): (Double, Bytes) {
    var (lo, b1) := LoadLong(b);
    var (hi, b2) := LoadLong(b1);
    (Unsigned(lo, hi), b2)
  }

  // What the string table holds when a string is read: it may answer with a string it has already.
  type Intern = (nat, Bytes) -> Bytes

  // be_newstrn: a short string is replaced by one that the comparison of the table takes for it.
  function Interned(intern: Intern, at: nat, s: Bytes): (r: Bytes)
    ensures |r| == |s|
  {
    if |s| > SHORT_STR_MAX_LEN then s
    else
      var t := intern(at, s);
      if |t| == |s| && StrnEq(s, t) then t else s
  }

  // What is missing at the end of the file is memory of unknown content; it is taken to be zero.
  function LoadString(intern: Intern, b: Bytes): (r: (Bytes, Bytes))
    ensures |r.1| <= |b|
  {
    var (n, b1) := LoadWord(b);
    if |b1| >= n then (Interned(intern, |b1|, b1[..n]), b1[n..])
    else (Interned(intern, |b1|, b1 + seq(n - |b1|, i => 0)), [])
  }

  lemma Byte1(v: Byte, rest: Bytes)
    ensures LoadByte([v] + rest) == (v, rest)
  {}

  lemma Word1(v: Word, rest: Bytes)
    ensures LoadWord(SaveWord(v) + rest) == (v, rest)
  {}

  lemma Long1(v: Long, rest: Bytes)
    ensures LoadLong(SaveLong(v) + rest) == (v, rest)
  {
    assert v == v % 256 + 256 * (v / 256 % 256) + 0x1_0000 * (v / 0x1_0000 % 256 + 256 * (v / 0x100_0000));
  }

  lemma Halves(i: Int64)
    ensures Signed(i % 0x1_0000_0000, i / 0x1_0000_0000 % 0x1_0000_0000) == i
  {}

  lemma Int1(i: Int64, rest: Bytes)
    ensures LoadInt(SaveInt(i) + rest) == (i, rest)
  {
    var lo, hi := i % 0x1_0000_0000, i / 0x1_0000_0000 % 0x1_0000_0000;
    assert SaveInt(i) + rest == SaveLong(lo) + (SaveLong(hi) + rest);
    Long1(lo, SaveLong(hi) + rest);
    Long1(hi, rest);
    Halves(i);
  }

  lemma Real1(r: Double, rest: Bytes)
    ensures LoadReal(SaveReal(r) + rest) == (r, rest)
  {
    var lo, hi := r % 0x1_0000_0000, r / 0x1_0000_0000;
    assert SaveReal(r) + rest == SaveLong(lo) + (SaveLong(hi) + rest);
    Long1(lo, SaveLong(hi) + rest);
    Long1(hi, rest);
  }

  // Every number is stored with its lowest byte first.
  lemma WordBytes(v: Word)
    ensures |SaveWord(v)| == 2 && v == SaveWord(v)[0] as int + 0x100 * (SaveWord(v)[1] as int)
  {}

  lemma LongBytes(v: Long)
    ensures |SaveLong(v)| == 4
    ensures var b := SaveLong(v);
            v == b[0] as int + 0x100 * (b[1] as int) + 0x1_0000 * (b[2] as int) + 0x100_0000 * (b[3] as int)
  {
    assert v == v % 256 + 256 * (v / 256 % 256) + 0x1_0000 * (v / 0x1_0000 % 256 + 256 * (v / 0x100_0000));
  }

  // A 64-bit integer is stored in two's complement.
  lemma IntBytes(i: Int64)
    ensures |SaveInt(i)| == 8
    ensures var b := SaveInt(i);
            var low := b[0] as int + 0x100 * (b[1] as int) + 0x1_0000 * (b[2] as int) + 0x100_0000 * (b[3] as int);
            var high := b[4] as int + 0x100 * (b[5] as int) + 0x1_0000 * (b[6] as int) + 0x100_0000 * (b[7] as int);
            low + 0x1_0000_0000 * high == if i >= 0 then i as int else i as int + 0x1_0000_0000_0000_0000
  {
    hide SaveLong;
    var lo, hi := i % 0x1_0000_0000, i / 0x1_0000_0000 % 0x1_0000_0000;
    LongBytes(lo);
    LongBytes(hi);
    Halves(i);
  }

  lemma RealBytes(r: Double)
    ensures |SaveReal(r)| == 8
    ensures var b := SaveReal(r);
            var low := b[0] as int + 0x100 * (b[1] as int) + 0x1_0000 * (b[2] as int) + 0x100_0000 * (b[3] as int);
            var high := b[4] as int + 0x100 * (b[5] as int) + 0x1_0000 * (b[6] as int) + 0x100_0000 * (b[7] as int);
            low + 0x1_0000_0000 * high == r as int
  {
    hide SaveLong;
    LongBytes(r % 0x1_0000_0000);
    LongBytes(r / 0x1_0000_0000);
  }

  // A string is its length in two bytes and then its bytes, when the length fits.
  lemma StringBytes(s: Bytes)
    requires |s| < 0x1_0000
    ensures |SaveString(s)| == 2 + |s| && SaveString(s)[2..] == s
    ensures |s| == SaveString(s)[0] as int + 0x100 * (SaveString(s)[1] as int)
  {}

  // A string that comes back whatever the string table holds: its length fits the 16 bits, and it is long
  // or has no NUL in front of its last byte.
  predicate Short(s: Bytes) {
    |s| < 0x1_0000 && (|s| > SHORT_STR_MAX_LEN || NoInnerNul(s))
  }

  lemma String1(intern: Intern, s: Bytes, rest: Bytes)
    ensures Short(s) ==> LoadString(intern, SaveString(s) + rest) == (s, rest)
    ensures var n := |s| % 0x1_0000; LoadString(intern, SaveString(s) + rest) == (Interned(intern, n + |rest|, s[..n]), rest)
  {
    var n := |s| % 0x1_0000;
    assert SaveString(s) + rest == SaveWord(n) + (s[..n] + rest);
    Word1(n, s[..n] + rest);
    assert (s[..n] + rest)[..n] == s[..n] && (s[..n] + rest)[n..] == rest;
    if Short(s) {
      assert s[..n] == s;
      var t := intern(n + |rest|, s);
      if |s| <= SHORT_STR_MAX_LEN && |t| == |s| && StrnEq(s, t) {
        StrnEqIsEqual(s, t);
      }
    }
  }

  // A string survives whatever strings the table holds if and only if its length fits the 16 bits and the
  // comparison of the table is exact for it.
  lemma StringSurvives(s: Bytes, rest: Bytes)
    ensures (forall intern: Intern :: LoadString(intern, SaveString(s) + rest).0 == s) <==> Short(s)
  {
    if Short(s) {
      forall intern: Intern ensures LoadString(intern, SaveString(s) + rest).0 == s {
        String1(intern, s, rest);
      }
    } else {
      var intern := ConfusedBy(s);
      String1(intern, s, rest);
    }
  }

  // A table that answers with another string.
  lemma ConfusedBy(s: Bytes) returns (intern: Intern)
    requires !Short(s)
    ensures forall at :: var n := |s| % 0x1_0000; Interned(intern, at, s[..n]) != s
  {
    if |s| < 0x1_0000 {
      var t := InnerNulHides(s);
      intern := (at, x) => t;
      assert s[..|s|] == s;
    } else {
      intern := (at, x) => x;
    }
  }

  // ----- saving -----

  function SaveLongs(code: seq<Long>): Bytes {
    if code == [] then [] else SaveLong(code[0]) + SaveLongs(code[1..])
  }

  function SaveCode(code: seq<Long>): Bytes {
    SaveLong(|code| % 0x1_0000_0000) + SaveLongs(code)
  }

  function SavePairs(us: seq<Upvalue>): Bytes {
    if us == [] then [] else [us[0].instack, us[0].idx] + SavePairs(us[1..])
  }

  function SaveUpvals(us: seq<Upvalue>): Bytes {
    [|us| % 256] + SavePairs(us)
  }

  function Kind(v: Value): Byte {
    match v
    case Nil => BE_NIL
    case Int(_) => BE_INT
    case Real(_) => BE_REAL
    case Str(_) => BE_STRING
    case Class(_) => BE_CLASS
    case Other(kind) => kind
  }

  // be_class_closure_count: the members that are prototypes.
  function MethodCount(ms: seq<Member>): nat {
    if ms == [] then 0 else (if ms[0].value.Method? then 1 else 0) + MethodCount(ms[1..])
  }

  // The number of instance variables that is saved.
  function VarCount(c: ClassObj): int {
    c.nvar - MethodCount(c.members)
  }

  // The name of the variable at an index (the cache save_members fills).
  function VarName(ms: seq<Member>, index: nat): Option<Bytes> {
    if ms == [] then None
    else
      var later := VarName(ms[1..], index);
      if later.Some? then later
      else if ms[0].value.Variable? && ms[0].value.index == index then Some(ms[0].name)
      else None
  }

  function SaveVars(ms: seq<Member>, from: nat, to: int): Bytes
    decreases to - from
  {
    if from >= to then [] else SaveName(VarName(ms, from)) + SaveVars(ms, from + 1, to)
  }

  function SaveProto(p: Proto): Bytes
    decreases p
  {
    SaveName(p.name) + (SaveName(p.source) + ([p.argc, p.nstack, p.varg, 0] + (SaveCode(p.code)
      + (SaveLong(|p.consts| % 0x1_0000_0000) + (SaveValues(p.consts)
      + (SaveLong(|p.protos| % 0x1_0000_0000) + (SaveProtos(p.protos) + SaveUpvals(p.upvals))))))))
  }

  function SaveProtos(ps: seq<Proto>): Bytes
    decreases ps
  {
    if ps == [] then [] else SaveProto(ps[0]) + SaveProtos(ps[1..])
  }

  function SaveValues(vs: seq<Value>): Bytes
    decreases vs
  {
    if vs == [] then [] else SaveValue(vs[0]) + SaveValues(vs[1..])
  }

  function SaveValue(v: Value): Bytes
    decreases v
  {
    [Kind(v)] + match v
    case Int(i) => SaveInt(i)
    case Real(r) => SaveReal(r)
    case Str(s) => SaveString(s)
    case Class(c) => SaveClass(c)
    case _ => []
  }

  function SaveClass(c: ClassObj): Bytes
    decreases c
  {
    SaveString(c.name) + (SaveLong(VarCount(c) % 0x1_0000_0000) + (SaveLong((|c.members| - VarCount(c)) % 0x1_0000_0000)
      + (SaveMembers(c.members, VarCount(c)) + SaveVars(c.members, 0, VarCount(c)))))
  }

  // Methods and static members, in the order of the map. Without room for names a variable ends the walk.
  function SaveMembers(ms: seq<Member>, nvar: int): Bytes
    decreases ms
  {
    if ms == [] || (nvar == 0 && ms[0].value.Variable?) then [] else SaveMember(ms[0]) + SaveMembers(ms[1..], nvar)
  }

  function SaveMember(m: Member): Bytes
    decreases m
  {
    match m.value
    case Variable(_) => []
    case Method(p) => SaveString(m.name) + SaveProto(p)
    case Closure(p, _) => SaveString(m.name) + SaveProto(p)
    case NilStatic => SaveString(m.name) + SaveWord(0)
    case Unsupported => SaveString(m.name)
  }

  // ----- loading -----

  // The names of the globals a file was saved with, and the machine that loads it: the number of its
  // builtins, the names of its globals in the order of their indices, and its strings.
  datatype Globals = Globals(builtins: nat, names: seq<Bytes>, table: seq<Bytes>, intern: Intern)

  // The position of a name, or the length if it is not there.
  function IndexIn(table: seq<Bytes>, name: Bytes): nat {
    if table == [] || table[0] == name then 0 else 1 + IndexIn(table[1..], name)
  }

  // be_global_find for a name that was declared.
  function FindGlobal(g: Globals, name: Bytes): nat {
    g.builtins + IndexIn(g.table, name)
  }

  predicate GlobalAccess(ins: Long) {
    Decoder.Op(ins) == OP_GETGBL || Decoder.Op(ins) == OP_SETGBL
  }

  // Opcode 24 reads a global variable, 25 writes one.
  lemma GlobalAccessIff(ins: Long)
    ensures GlobalAccess(ins) <==> ins / 0x400_0000 == 24 || ins / 0x400_0000 == 25
  {
    Decoder.Fields(ins);
    hide Decoder.Op;
  }

  // Global variable indices above the builtin ones are replaced by those the names have here.
  function FixCode(g: Globals, ins: Long): Long {
    var idx := Decoder.Bx(ins);
    if GlobalAccess(ins) && g.builtins <= idx < g.builtins + |g.names| then
      Decoder.WithSBx(ins, FindGlobal(g, g.names[idx - g.builtins]) - Decoder.IsBx_MAX)
    else ins
  }

  function LoadCode(g: Globals, n: nat, b: Bytes): (r: (seq<Long>, Bytes))
    ensures |r.1| <= |b|
    decreases n
  {
    if n == 0 then ([], b)
    else
      var (ins, b1) := LoadLong(b);
      var (rest, b2) := LoadCode(g, n - 1, b1);
      ([FixCode(g, ins)] + rest, b2)
  }

  function LoadUpvals(n: nat, b: Bytes): (r: (seq<Upvalue>, Bytes))
    ensures |r.1| <= |b|
    decreases n
  {
    if n == 0 then ([], b)
    else
      var (instack, b1) := LoadByte(b);
      var (idx, b2) := LoadByte(b1);
      var (rest, b3) := LoadUpvals(n - 1, b2);
      ([Upvalue(instack, idx)] + rest, b3)
  }

  // A prototype with an empty name is none at all.
  function LoadProto(g: Globals, b: Bytes): (r: (Option<Proto>, Bytes))
    ensures |r.1| <= |b|
    decreases |b|, 1, 0
  {
    var (name, b1) := LoadString(g.intern, b);
    if name == [] then (None, b1)
    else
      var (source, b2) := LoadString(g.intern, b1);
      var (argc, b3) := LoadByte(b2);
      var (nstack, b4) := LoadByte(b3);
      var (varg, b5) := LoadByte(b4);
      var (_, b6) := LoadByte(b5);
      var (codesize, b7) := LoadLong(b6);
      var (code, b8) := LoadCode(g, codesize, b7);
      var (consts, protos, upvals, b9) := LoadTables(g, b8);
      (Some(Proto(Some(name), Some(source), argc, nstack, varg, code, consts, protos, upvals)), b9)
  }

  // Constants, nested prototypes and upvalues.
  function LoadTables(g: Globals, b: Bytes): (r: (seq<Value>, seq<Proto>, seq<Upvalue>, Bytes))
    ensures |r.3| <= |b|
    decreases |b|, 4, 0
  {
    var (nconst, b1) := LoadLong(b);
    var (consts, b2) := LoadValues(g, nconst, b1);
    var (nproto, b3) := LoadLong(b2);
    var (protos, b4) := LoadProtos(g, nproto, b3);
    var (nupvals, b5) := LoadByte(b4);
    var (upvals, b6) := LoadUpvals(nupvals, b5);
    (consts, protos, upvals, b6)
  }

  // The slot of a prototype that turns out to be none stays empty.
  function LoadProtos(g: Globals, n: nat, b: Bytes): (r: (seq<Proto>, Bytes))
    ensures |r.1| <= |b|
    decreases |b|, 2, n
  {
    if n == 0 then ([], b)
    else
      var (p, b1) := LoadProto(g, b);
      var (rest, b2) := LoadProtos(g, n - 1, b1);
      ((if p.Some? then [p.value] else [NoProto()]) + rest, b2)
  }

  // A null entry of the prototype table.
  function NoProto(): Proto {
    Proto(None, None, 0, 0, 0, [], [], [], [])
  }

  function LoadValues(g: Globals, n: nat, b: Bytes): (r: (seq<Value>, Bytes))
    ensures |r.1| <= |b|
    decreases |b|, 2, n
  {
    if n == 0 then ([], b)
    else
      var (v, b1) := LoadValue(g, b);
      var (rest, b2) := LoadValues(g, n - 1, b1);
      ([v] + rest, b2)
  }

  // Types that are not handled leave a nil.
  function LoadValue(g: Globals, b: Bytes): (r: (Value, Bytes))
    ensures |r.1| <= |b|
    decreases |b|, 1, 0
  {
    var (kind, b1) := LoadByte(b);
    if kind == BE_INT then var (i, b2) := LoadInt(b1); (Int(i), b2)
    else if kind == BE_REAL then var (r, b2) := LoadReal(b1); (Real(r), b2)
    else if kind == BE_STRING then var (s, b2) := LoadString(g.intern, b1); (Str(s), b2)
    else if kind == BE_CLASS then var (c, b2) := LoadClass(g, b1); (Class(c), b2)
    else (Nil, b1)
  }

  function LoadClass(g: Globals, b: Bytes): (r: (ClassObj, Bytes))
    ensures |r.1| <= |b|
    decreases |b|, 3, 0
  {
    var (name, b1) := LoadString(g.intern, b);
    var (nvar, b2) := LoadLong(b1);
    var (count, b3) := LoadLong(b2);
    var (ms, b4) := LoadMethods(g, count, b3, []);
    var (all, b5) := LoadVars(g, nvar, 0, b4, ms);
    (ClassObj(name, nvar, all), b5)
  }

  // Binding a name that is already bound replaces the member.
  function Bind(ms: seq<Member>, name: Bytes, value: MemberValue): seq<Member> {
    if ms == [] then [Member(name, value)]
    else if ms[0].name == name then [Member(name, value)] + ms[1..]
    else [ms[0]] + Bind(ms[1..], name, value)
  }

  // varg & BE_VA_METHOD
  predicate IsMethod(varg: Byte) {
    varg / 2 % 2 == 1
  }

  function LoadMethods(g: Globals, n: nat, b: Bytes, ms: seq<Member>): (r: (seq<Member>, Bytes))
    ensures |r.1| <= |b|
    decreases |b|, 2, n
  {
    if n == 0 then (ms, b)
    else
      var (name, b1) := LoadString(g.intern, b);
      var (p, b2) := LoadProto(g, b1);
      LoadMethods(g, n - 1, b2, Bind(ms, name, Bound(p)))
  }

  function Bound(p: Option<Proto>): MemberValue {
    if p.Some? then Closure(p.value, !IsMethod(p.value.varg)) else NilStatic
  }

  function LoadVars(g: Globals, n: nat, index: nat, b: Bytes, ms: seq<Member>): (r: (seq<Member>, Bytes))
    ensures |r.1| <= |b|
    decreases n
  {
    if n == 0 then (ms, b)
    else
      var (name, b1) := LoadString(g.intern, b);
      LoadVars(g, n - 1, index + 1, b1, Bind(ms, name, Variable(index)))
  }

  // ----- what a prototype becomes -----

  function FixedCode(g: Globals, code: seq<Long>): (r: seq<Long>) {
    if code == [] then [] else [FixCode(g, code[0])] + FixedCode(g, code[1..])
  }

  // Globals have their indices on this machine, methods are closures again, and constants of other types
  // are nil.
  function Norm(g: Globals, p: Proto): Proto
    decreases p
  {
    p.(code := FixedCode(g, p.code), consts := NormValues(g, p.consts), protos := NormProtos(g, p.protos))
  }

  function NormProtos(g: Globals, ps: seq<Proto>): seq<Proto>
    decreases ps
  {
    if ps == [] then [] else [Norm(g, ps[0])] + NormProtos(g, ps[1..])
  }

  function NormValues(g: Globals, vs: seq<Value>): seq<Value>
    decreases vs
  {
    if vs == [] then [] else [NormValue(g, vs[0])] + NormValues(g, vs[1..])
  }

  function NormValue(g: Globals, v: Value): Value
    decreases v
  {
    match v
    case Class(c) => Class(NormClass(g, c))
    case Other(_) => Nil
    case _ => v
  }

  // Methods and static members first, then the variables by index.
  function NormClass(g: Globals, c: ClassObj): ClassObj
    decreases c
  {
    if VarCount(c) < 0 then c else ClassObj(c.name, VarCount(c), NormMembers(g, c.members) + Vars(c.members, VarCount(c)))
  }

  function NormMembers(g: Globals, ms: seq<Member>): seq<Member>
    decreases ms
  {
    if ms == [] then []
    else (if ms[0].value.Variable? then [] else [Member(ms[0].name, NormMember(g, ms[0].value))]) + NormMembers(g, ms[1..])
  }

  function NormMember(g: Globals, v: MemberValue): MemberValue
    decreases v
  {
    match v
    case Method(p) => Closure(Norm(g, p), !IsMethod(p.varg))
    case Closure(p, _) => Closure(Norm(g, p), !IsMethod(p.varg))
    case _ => v
  }

  function Vars(ms: seq<Member>, n: nat): seq<Member> {
    if n == 0 then []
    else Vars(ms, n - 1) + (if VarName(ms, n - 1).Some? then [Member(VarName(ms, n - 1).value, Variable(n - 1))] else [])
  }

  // ----- what survives -----

  // A size the loader reads back as a positive int.
  predicate Countable(n: int) {
    0 <= n < 0x8000_0000
  }

  // Every access to a global has an index below the bound.
  predicate AccessesBelow(code: seq<Long>, bound: int) {
    code == [] || ((GlobalAccess(code[0]) ==> Decoder.Bx(code[0]) < bound) && AccessesBelow(code[1..], bound))
  }

  // The depth is the number of classes around the prototype. Accesses to globals stay within the builtins and
  // the saved names; inside a nested class the loader does not find the list of names, so globals there have
  // to be builtin.
  predicate Loadable(g: Globals, p: Proto, depth: nat)
    decreases p
  {
    && p.name.Some? && p.name.value != [] && Short(p.name.value) && p.source.Some? && Short(p.source.value)
    && Countable(|p.code|) && AccessesBelow(p.code, if depth > 1 then g.builtins else g.builtins + |g.names|)
    && Countable(|p.consts|) && LoadableValues(g, p.consts, depth)
    && Countable(|p.protos|) && LoadableProtos(g, p.protos, depth)
    && |p.upvals| < 256
  }

  predicate LoadableProtos(g: Globals, ps: seq<Proto>, depth: nat)
    decreases ps
  {
    ps == [] || (Loadable(g, ps[0], depth) && LoadableProtos(g, ps[1..], depth))
  }

  predicate LoadableValues(g: Globals, vs: seq<Value>, depth: nat)
    decreases vs
  {
    vs == [] || (LoadableValue(g, vs[0], depth) && LoadableValues(g, vs[1..], depth))
  }

  predicate LoadableValue(g: Globals, v: Value, depth: nat)
    decreases v
  {
    match v
    case Str(s) => Short(s)
    case Class(c) => LoadableClass(g, c, depth)
    case Other(kind) => kind !in {BE_INT, BE_REAL, BE_STRING, BE_CLASS}
    case _ => true
  }

  // The variables of a class have the indices from zero on, and its member map has each name once.
  predicate LoadableClass(g: Globals, c: ClassObj, depth: nat)
    decreases c
  {
    && Short(c.name) && Countable(VarCount(c)) && Countable(|c.members|)
    && Distinct(c.members) && VarsIn(c.members) == VarCount(c)
    && (forall i {:trigger VarName(c.members, i)} :: 0 <= i < VarCount(c) ==> VarName(c.members, i).Some?)
    && Indexed(c.members, c.members, VarCount(c))
    && LoadableMembers(g, c.members, depth + 1)
  }

  predicate LoadableMembers(g: Globals, ms: seq<Member>, depth: nat)
    decreases ms
  {
    ms == [] || (LoadableMember(g, ms[0], depth) && LoadableMembers(g, ms[1..], depth))
  }

  predicate LoadableMember(g: Globals, m: Member, depth: nat)
    decreases m
  {
    Short(m.name) && match m.value
    case Method(p) => Loadable(g, p, depth)
    case Closure(p, _) => Loadable(g, p, depth)
    case Unsupported => false
    case _ => true
  }

  // Each variable has an index of its own.
  predicate Indexed(ms: seq<Member>, all: seq<Member>, n: int) {
    ms == [] || ((ms[0].value.Variable? ==> ms[0].value.index < n && VarName(all, ms[0].value.index) == Some(ms[0].name))
                 && Indexed(ms[1..], all, n))
  }

  // How many members are variables.
  function VarsIn(ms: seq<Member>): nat {
    if ms == [] then 0 else (if ms[0].value.Variable? then 1 else 0) + VarsIn(ms[1..])
  }

  function Lookup(ms: seq<Member>, name: Bytes): Option<MemberValue> {
    if ms == [] then None else if ms[0].name == name then Some(ms[0].value) else Lookup(ms[1..], name)
  }

  predicate Distinct(ms: seq<Member>) {
    ms == [] || (Lookup(ms[1..], ms[0].name) == None && Distinct(ms[1..]))
  }

  // ----- members -----

  lemma {:induction false} BindNew(ms: seq<Member>, name: Bytes, value: MemberValue)
    requires Lookup(ms, name) == None
    ensures Bind(ms, name, value) == ms + [Member(name, value)]
  {
    if ms != [] {
      BindNew(ms[1..], name, value);
      assert ms == [ms[0]] + ms[1..];
    }
  }

  lemma {:induction false} LookupAppend(a: seq<Member>, b: seq<Member>, name: Bytes)
    ensures Lookup(a + b, name) == if Lookup(a, name).Some? then Lookup(a, name) else Lookup(b, name)
  {
    if a == [] {
      assert a + b == b;
    } else {
      assert (a + b)[1..] == a[1..] + b;
      LookupAppend(a[1..], b, name);
    }
  }

  lemma {:induction false} LookupNorm(g: Globals, ms: seq<Member>, name: Bytes)
    requires Distinct(ms)
    ensures Lookup(NormMembers(g, ms), name) ==
            var v := Lookup(ms, name); if v.Some? && !v.value.Variable? then Some(NormMember(g, v.value)) else None
  {
    if ms != [] {
      LookupNorm(g, ms[1..], name);
      LookupAppend(if ms[0].value.Variable? then [] else [Member(ms[0].name, NormMember(g, ms[0].value))], NormMembers(g, ms[1..]), name);
    }
  }

  lemma {:induction false} VarNameFound(ms: seq<Member>, i: nat)
    requires Distinct(ms) && VarName(ms, i).Some?
    ensures Lookup(ms, VarName(ms, i).value) == Some(Variable(i))
  {
    if VarName(ms[1..], i).Some? {
      VarNameFound(ms[1..], i);
    }
  }

  lemma {:induction false} LookupVars(ms: seq<Member>, n: nat, name: Bytes)
    requires Distinct(ms) && forall i {:trigger VarName(ms, i)} :: 0 <= i < n ==> VarName(ms, i).Some?
    ensures var v := Lookup(Vars(ms, n), name);
            v.Some? ==> v.value.Variable? && v.value.index < n && Lookup(ms, name) == v && VarName(ms, v.value.index) == Some(name)
    ensures forall i {:trigger VarName(ms, i)} :: 0 <= i < n && VarName(ms, i) == Some(name) ==> Lookup(Vars(ms, n), name) == Some(Variable(i))
    decreases n
  {
    if n > 0 {
      LookupVars(ms, n - 1, name);
      VarNameFound(ms, n - 1);
      LookupAppend(Vars(ms, n - 1), [Member(VarName(ms, n - 1).value, Variable(n - 1))], name);
    }
  }

  // ----- the round trip -----

  // Code without access to other globals is not changed.
  lemma {:induction false} BuiltinUnchanged(g: Globals, code: seq<Long>)
    requires AccessesBelow(code, g.builtins)
    ensures FixedCode(g, code) == code
  {
    hide Decoder.Op, Decoder.Bx, Decoder.WithSBx;
    if code != [] {
      BuiltinUnchanged(g, code[1..]);
      assert code == [code[0]] + code[1..];
    }
  }

  lemma {:induction false} CodeTrip(g: Globals, code: seq<Long>, rest: Bytes)
    ensures LoadCode(g, |code|, SaveLongs(code) + rest) == (FixedCode(g, code), rest)
    decreases |code|
  {
    hide LoadLong, SaveLong, FixCode;
    if code == [] {
      assert SaveLongs(code) + rest == rest;
    } else {
      Assoc(SaveLong(code[0]), SaveLongs(code[1..]), rest);
      Long1(code[0], SaveLongs(code[1..]) + rest);
      CodeTrip(g, code[1..], rest);
    }
  }

  lemma {:induction false} UpvalsTrip(us: seq<Upvalue>, rest: Bytes)
    ensures LoadUpvals(|us|, SavePairs(us) + rest) == (us, rest)
    decreases |us|
  {
    if us == [] {
      assert SavePairs(us) + rest == rest;
    } else {
      var tail := SavePairs(us[1..]) + rest;
      assert SavePairs(us) + rest == [us[0].instack] + ([us[0].idx] + tail);
      Byte1(us[0].instack, [us[0].idx] + tail);
      Byte1(us[0].idx, tail);
      UpvalsTrip(us[1..], rest);
      assert us == [us[0]] + us[1..];
    }
  }

  lemma Assoc(a: Bytes, b: Bytes, c: Bytes)
    ensures (a + b) + c == a + (b + c)
  {}

  lemma Snoc<T>(a: seq<T>, x: T, b: seq<T>)
    ensures a + ([x] + b) == (a + [x]) + b
  {}

  // A prototype after its source: the fixed fields, and what follows them.
  function Fields(p: Proto): Bytes {
    [p.argc, p.nstack, p.varg, 0]
  }

  function Tables(p: Proto): Bytes {
    SaveLong(|p.consts| % 0x1_0000_0000) + (SaveValues(p.consts)
      + (SaveLong(|p.protos| % 0x1_0000_0000) + (SaveProtos(p.protos) + SaveUpvals(p.upvals))))
  }

  lemma ProtoPieces(p: Proto, rest: Bytes)
    requires p.name.Some? && p.source.Some?
    ensures SaveProto(p) + rest
            == SaveString(p.name.value) + (SaveString(p.source.value) + (Fields(p) + (SaveCode(p.code) + (Tables(p) + rest))))
  {
    Assoc(SaveString(p.name.value), SaveString(p.source.value) + (Fields(p) + (SaveCode(p.code) + Tables(p))), rest);
    Assoc(SaveString(p.source.value), Fields(p) + (SaveCode(p.code) + Tables(p)), rest);
    Assoc(Fields(p), SaveCode(p.code) + Tables(p), rest);
    Assoc(SaveCode(p.code), Tables(p), rest);
  }

  lemma FieldsTrip(p: Proto, rest: Bytes)
    ensures var (argc, b3) := LoadByte(Fields(p) + rest);
            var (nstack, b4) := LoadByte(b3);
            var (varg, b5) := LoadByte(b4);
            var (zero, b6) := LoadByte(b5);
            argc == p.argc && nstack == p.nstack && varg == p.varg && b6 == rest
  {
    assert Fields(p) + rest == [p.argc] + ([p.nstack] + ([p.varg] + ([0] + rest)));
    Byte1(p.argc, [p.nstack] + ([p.varg] + ([0] + rest)));
    Byte1(p.nstack, [p.varg] + ([0] + rest));
    Byte1(p.varg, [0] + rest);
    Byte1(0, rest);
  }

  // The tables of a prototype as the loader reads them.
  lemma TablesTrip(g: Globals, p: Proto, rest: Bytes)
    requires Countable(|p.consts|) && Countable(|p.protos|) && |p.upvals| < 256
    requires forall x: Bytes :: LoadValues(g, |p.consts|, SaveValues(p.consts) + x) == (NormValues(g, p.consts), x)
    requires forall x: Bytes :: LoadProtos(g, |p.protos|, SaveProtos(p.protos) + x) == (NormProtos(g, p.protos), x)
    ensures LoadTables(g, Tables(p) + rest) == (NormValues(g, p.consts), NormProtos(g, p.protos), p.upvals, rest)
  {
    hide LoadLong, SaveLong, LoadValues, LoadProtos, SaveValues, SaveProtos, LoadUpvals, SavePairs, LoadByte, NormValues, NormProtos;
    var c, q, u := SaveValues(p.consts), SaveProtos(p.protos), SavePairs(p.upvals);
    var nc, nq := SaveLong(|p.consts|), SaveLong(|p.protos|);
    var after := [|p.upvals|] + (u + rest);
    assert SaveUpvals(p.upvals) + rest == after;
    Assoc(nc, c + (nq + (q + SaveUpvals(p.upvals))), rest);
    Assoc(c, nq + (q + SaveUpvals(p.upvals)), rest);
    Assoc(nq, q + SaveUpvals(p.upvals), rest);
    Assoc(q, SaveUpvals(p.upvals), rest);
    Long1(|p.consts|, c + (nq + (q + after)));
    Long1(|p.protos|, q + after);
    Byte1(|p.upvals|, u + rest);
    UpvalsTrip(p.upvals, rest);
  }

  // Loading what was saved gives the prototype back and takes exactly the bytes written.
  lemma {:induction false} ProtoTrip(g: Globals, p: Proto, rest: Bytes, depth: nat)
    requires Loadable(g, p, depth)
    ensures LoadProto(g, SaveProto(p) + rest) == (Some(Norm(g, p)), rest)
    decreases p
  {
    hide LoadLong, SaveLong, LoadValues, LoadProtos, SaveLongs, LoadTables, LoadByte, LoadString, SaveString, LoadCode,
         SaveValues, SaveProtos, NormValues, NormProtos, Tables, Fields, SaveProto, AccessesBelow, LoadableValues, LoadableProtos;
    ProtoPieces(p, rest);
    var b6 := SaveCode(p.code) + (Tables(p) + rest);
    String1(g.intern, p.name.value, SaveString(p.source.value) + (Fields(p) + b6));
    String1(g.intern, p.source.value, Fields(p) + b6);
    FieldsTrip(p, b6);
    Assoc(SaveLong(|p.code|), SaveLongs(p.code), Tables(p) + rest);
    Long1(|p.code|, SaveLongs(p.code) + (Tables(p) + rest));
    CodeTrip(g, p.code, Tables(p) + rest);
    forall x: Bytes ensures LoadValues(g, |p.consts|, SaveValues(p.consts) + x) == (NormValues(g, p.consts), x) {
      ValuesTrip(g, p.consts, x, depth);
    }
    forall x: Bytes ensures LoadProtos(g, |p.protos|, SaveProtos(p.protos) + x) == (NormProtos(g, p.protos), x) {
      ProtosTrip(g, p.protos, x, depth);
    }
    TablesTrip(g, p, rest);
  }

  lemma {:induction false} ProtosTrip(g: Globals, ps: seq<Proto>, rest: Bytes, depth: nat)
    requires LoadableProtos(g, ps, depth)
    ensures LoadProtos(g, |ps|, SaveProtos(ps) + rest) == (NormProtos(g, ps), rest)
    decreases ps
  {
    hide Loadable, Norm, LoadProto, SaveProto;
    if ps == [] {
      assert SaveProtos(ps) + rest == rest;
    } else {
      Assoc(SaveProto(ps[0]), SaveProtos(ps[1..]), rest);
      ProtoTrip(g, ps[0], SaveProtos(ps[1..]) + rest, depth);
      ProtosTrip(g, ps[1..], rest, depth);
    }
  }

  lemma {:induction false} ValuesTrip(g: Globals, vs: seq<Value>, rest: Bytes, depth: nat)
    requires LoadableValues(g, vs, depth)
    ensures LoadValues(g, |vs|, SaveValues(vs) + rest) == (NormValues(g, vs), rest)
    decreases vs
  {
    hide LoadableValue, NormValue, LoadValue, SaveValue;
    if vs == [] {
      assert SaveValues(vs) + rest == rest;
    } else {
      Assoc(SaveValue(vs[0]), SaveValues(vs[1..]), rest);
      ValueTrip(g, vs[0], SaveValues(vs[1..]) + rest, depth);
      ValuesTrip(g, vs[1..], rest, depth);
    }
  }

  lemma {:induction false} ValueTrip(g: Globals, v: Value, rest: Bytes, depth: nat)
    requires LoadableValue(g, v, depth)
    ensures LoadValue(g, SaveValue(v) + rest) == (NormValue(g, v), rest)
    decreases v
  {
    hide LoadableClass, NormClass, LoadClass, SaveClass;
    var body := SaveValue(v)[1..];
    Assoc([Kind(v)], body, rest);
    Byte1(Kind(v), body + rest);
    match v
    case Int(i) => Int1(i, rest);
    case Real(r) => Real1(r, rest);
    case Str(s) => String1(g.intern, s, rest);
    case Class(c) => ClassTrip(g, c, rest, depth);
    case _ => assert body + rest == rest;
  }

  lemma ClassPieces(c: ClassObj, rest: Bytes)
    requires 0 <= VarCount(c) <= |c.members| && Countable(|c.members|)
    ensures SaveClass(c) + rest
            == SaveString(c.name) + (SaveLong(VarCount(c)) + (SaveLong(|c.members| - VarCount(c))
               + (SaveMembers(c.members, VarCount(c)) + (SaveVars(c.members, 0, VarCount(c)) + rest))))
  {
    hide SaveLong, SaveString, SaveMembers, SaveVars, VarCount;
    var ms, n := c.members, VarCount(c);
    var vars := SaveVars(ms, 0, n);
    Assoc(SaveString(c.name), SaveLong(n) + (SaveLong(|ms| - n) + (SaveMembers(ms, n) + vars)), rest);
    Assoc(SaveLong(n), SaveLong(|ms| - n) + (SaveMembers(ms, n) + vars), rest);
    Assoc(SaveLong(|ms| - n), SaveMembers(ms, n) + vars, rest);
    Assoc(SaveMembers(ms, n), vars, rest);
  }

  lemma NoneYet(g: Globals, ms: seq<Member>)
    ensures [] + NormMembers(g, ms) == NormMembers(g, ms) && NormMembers(g, ms) + Vars(ms, 0) == NormMembers(g, ms)
  {}

  lemma {:induction false} ClassTrip(g: Globals, c: ClassObj, rest: Bytes, depth: nat)
    requires LoadableClass(g, c, depth)
    ensures LoadClass(g, SaveClass(c) + rest) == (NormClass(g, c), rest)
    decreases c
  {
    var ms, n := c.members, VarCount(c);
    NoneYet(g, ms);
    hide LoadLong, SaveLong, SaveString, LoadString, LoadMethods, LoadVars, SaveMembers, SaveVars, NormMembers, Vars, VarsIn,
         Distinct, LoadableMembers, VarName, MethodCount, SaveClass, VarCount;
    VarsBound(ms);
    ClassPieces(c, rest);
    var b4 := SaveVars(ms, 0, n) + rest;
    var b3 := SaveMembers(ms, n) + b4;
    String1(g.intern, c.name, SaveLong(n) + (SaveLong(|ms| - n) + b3));
    Long1(n, SaveLong(|ms| - n) + b3);
    Long1(|ms| - n, b3);
    NothingBound(ms);
    MembersTrip(g, ms, n, b4, [], depth + 1);
    assert VarsIn(ms) == n;
    VarsTrip(g, ms, 0, n, rest, depth + 1);
  }

  lemma {:induction false} VarsBound(ms: seq<Member>)
    ensures VarsIn(ms) <= |ms|
  {
    if ms != [] {
      VarsBound(ms[1..]);
    }
  }

  lemma {:induction false} NothingBound(ms: seq<Member>)
    ensures Unbound(ms, [])
  {
    if ms != [] {
      NothingBound(ms[1..]);
    }
  }

  // One method or static member is bound under its name.
  lemma MethodsStep(g: Globals, m: Member, tail: Bytes, done: seq<Member>, k: nat)
    requires k > 0 && Lookup(done, m.name) == None
    requires var (name, b1) := LoadString(g.intern, SaveMember(m) + tail); var (p, b2) := LoadProto(g, b1);
             name == m.name && Bound(p) == NormMember(g, m.value) && b2 == tail
    ensures LoadMethods(g, k, SaveMember(m) + tail, done)
            == LoadMethods(g, k - 1, tail, done + [Member(m.name, NormMember(g, m.value))])
  {
    hide LoadString, SaveMember, LoadProto, Bound, NormMember;
    BindNew(done, m.name, NormMember(g, m.value));
  }

  lemma VariableSkipped(g: Globals, ms: seq<Member>, nvar: int, rest: Bytes)
    requires ms != [] && ms[0].value.Variable? && nvar != 0
    ensures SaveMembers(ms, nvar) + rest == SaveMembers(ms[1..], nvar) + rest
    ensures NormMembers(g, ms) == NormMembers(g, ms[1..])
  {
    assert [] + SaveMembers(ms[1..], nvar) == SaveMembers(ms[1..], nvar) && [] + NormMembers(g, ms[1..]) == NormMembers(g, ms[1..]);
  }

  lemma NothingSaved(g: Globals, ms: seq<Member>, nvar: int, rest: Bytes, done: seq<Member>)
    requires ms == []
    ensures SaveMembers(ms, nvar) + rest == rest && done + NormMembers(g, ms) == done
  {}

  lemma MethodJoined(g: Globals, ms: seq<Member>, nvar: int, rest: Bytes, done: seq<Member>)
    requires ms != [] && !ms[0].value.Variable? && Lookup(done, ms[0].name) == None && VarsIn(ms[1..]) <= |ms| - 1
    requires var (name, b1) := LoadString(g.intern, SaveMember(ms[0]) + (SaveMembers(ms[1..], nvar) + rest)); var (p, b2) := LoadProto(g, b1);
             name == ms[0].name && Bound(p) == NormMember(g, ms[0].value) && b2 == SaveMembers(ms[1..], nvar) + rest
    requires var done' := done + [Member(ms[0].name, NormMember(g, ms[0].value))];
             LoadMethods(g, |ms| - 1 - VarsIn(ms[1..]), SaveMembers(ms[1..], nvar) + rest, done') == (done' + NormMembers(g, ms[1..]), rest)
    ensures LoadMethods(g, |ms| - VarsIn(ms), SaveMembers(ms, nvar) + rest, done) == (done + NormMembers(g, ms), rest)
  {
    hide LoadString, SaveMember, LoadProto, Bound, NormMember, LoadMethods, Lookup;
    var m := ms[0];
    Assoc(SaveMember(m), SaveMembers(ms[1..], nvar), rest);
    MethodsStep(g, m, SaveMembers(ms[1..], nvar) + rest, done, |ms| - VarsIn(ms));
    Snoc(done, Member(m.name, NormMember(g, m.value)), NormMembers(g, ms[1..]));
  }

  // Every method and static member is bound under its name.
  lemma {:induction false} MembersTrip(g: Globals, ms: seq<Member>, nvar: int, rest: Bytes, done: seq<Member>, depth: nat)
    requires (nvar == 0 ==> VarsIn(ms) == 0) && LoadableMembers(g, ms, depth) && Distinct(ms) && Unbound(ms, done)
    ensures VarsIn(ms) <= |ms|
    ensures LoadMethods(g, |ms| - VarsIn(ms), SaveMembers(ms, nvar) + rest, done) == (done + NormMembers(g, ms), rest)
    decreases ms
  {
    hide LoadString, SaveMember, LoadProto, Bound, NormMember, LoadableMember;
    VarsBound(ms);
    if ms == [] {
      NothingSaved(g, ms, nvar, rest, done);
    } else {
      var m, tail := ms[0], SaveMembers(ms[1..], nvar) + rest;
      VarsBound(ms[1..]);
      if m.value.Variable? {
        VariableSkipped(g, ms, nvar, rest);
        MembersTrip(g, ms[1..], nvar, rest, done, depth);
      } else {
        hide LoadMethods;
        var bound := Member(m.name, NormMember(g, m.value));
        MemberTrip(g, m, tail, depth);
        StillUnbound(ms[1..], done, bound);
        MembersTrip(g, ms[1..], nvar, rest, done + [bound], depth);
        MethodJoined(g, ms, nvar, rest, done);
      }
    }
  }

  // The names of the members are not bound yet.
  predicate Unbound(ms: seq<Member>, done: seq<Member>) {
    ms == [] || (Lookup(done, ms[0].name) == None && Unbound(ms[1..], done))
  }

  // Binding another name leaves them unbound.
  lemma {:induction false} StillUnbound(ms: seq<Member>, done: seq<Member>, m: Member)
    requires Unbound(ms, done) && Lookup(ms, m.name) == None
    ensures Unbound(ms, done + [m])
  {
    if ms != [] {
      LookupAppend(done, [m], ms[0].name);
      StillUnbound(ms[1..], done, m);
    }
  }

  lemma NoProtoSaved(g: Globals, rest: Bytes)
    ensures LoadProto(g, SaveWord(0) + rest) == (None, rest)
  {
    hide LoadCode, LoadTables, LoadLong, LoadByte;
    EmptyString(g.intern, rest);
  }

  lemma EmptyString(intern: Intern, rest: Bytes)
    ensures LoadString(intern, SaveWord(0) + rest) == ([], rest)
  {
    Word1(0, rest);
  }

  lemma {:induction false} MemberTrip(g: Globals, m: Member, rest: Bytes, depth: nat)
    requires LoadableMember(g, m, depth) && !m.value.Variable?
    ensures var (name, b1) := LoadString(g.intern, SaveMember(m) + rest);
            var (p, b2) := LoadProto(g, b1);
            name == m.name && Bound(p) == NormMember(g, m.value) && b2 == rest
    decreases m
  {
    hide LoadProto, LoadString, SaveString, SaveProto, Loadable, SaveWord, NormValues, NormProtos;
    if m.value.NilStatic? {
      Assoc(SaveString(m.name), SaveWord(0), rest);
      String1(g.intern, m.name, SaveWord(0) + rest);
      NoProtoSaved(g, rest);
    } else {
      var p := m.value.proto;
      Assoc(SaveString(m.name), SaveProto(p), rest);
      String1(g.intern, m.name, SaveProto(p) + rest);
      ProtoTrip(g, p, rest, depth);
    }
  }

  lemma VarsMore(g: Globals, ms: seq<Member>, from: nat)
    requires VarName(ms, from).Some?
    ensures NormMembers(g, ms) + Vars(ms, from) + [Member(VarName(ms, from).value, Variable(from))] == NormMembers(g, ms) + Vars(ms, from + 1)
  {
    hide NormMembers, VarName;
  }

  lemma NoVarsSaved(ms: seq<Member>, n: nat, rest: Bytes)
    ensures SaveVars(ms, n, n) + rest == rest
  {}

  lemma {:induction false} VarsTrip(g: Globals, ms: seq<Member>, from: nat, n: nat, rest: Bytes, depth: nat)
    requires from <= n && Distinct(ms) && LoadableMembers(g, ms, depth)
    requires forall i {:trigger VarName(ms, i)} :: 0 <= i < n ==> VarName(ms, i).Some?
    ensures LoadVars(g, n - from, from, SaveVars(ms, from, n) + rest, NormMembers(g, ms) + Vars(ms, from))
            == (NormMembers(g, ms) + Vars(ms, n), rest)
    decreases n - from
  {
    hide LoadString, SaveString, Bind, VarName, NormMembers, LoadableMembers, Vars, Distinct, Lookup;
    if from == n {
      NoVarsSaved(ms, n, rest);
    } else {
      var name := VarName(ms, from).value;
      var done := NormMembers(g, ms) + Vars(ms, from);
      hide LoadVars;
      var k: nat := n - from;
      Assoc(SaveString(name), SaveVars(ms, from + 1, n), rest);
      NameUnbound(g, ms, from, name);
      ShortName(g, ms, name, depth);
      VarStep(g, name, SaveVars(ms, from + 1, n) + rest, done, k, from);
      VarsMore(g, ms, from);
      VarsTrip(g, ms, from + 1, n, rest, depth);
    }
  }

  lemma NameUnbound(g: Globals, ms: seq<Member>, from: nat, name: Bytes)
    requires Distinct(ms) && VarName(ms, from) == Some(name)
    requires forall i {:trigger VarName(ms, i)} :: 0 <= i <= from ==> VarName(ms, i).Some?
    ensures Lookup(ms, name).Some? && Lookup(NormMembers(g, ms) + Vars(ms, from), name) == None
  {
    VarNameFound(ms, from);
    LookupNorm(g, ms, name);
    LookupVars(ms, from, name);
    LookupAppend(NormMembers(g, ms), Vars(ms, from), name);
  }

  lemma VarStep(g: Globals, name: Bytes, tail: Bytes, done: seq<Member>, k: nat, index: nat)
    requires k > 0 && Short(name) && Lookup(done, name) == None
    ensures LoadVars(g, k, index, SaveString(name) + tail, done) == LoadVars(g, k - 1, index + 1, tail, done + [Member(name, Variable(index))])
  {
    hide LoadString, SaveString;
    String1(g.intern, name, tail);
    BindNew(done, name, Variable(index));
  }

  lemma {:induction false} ShortName(g: Globals, ms: seq<Member>, name: Bytes, depth: nat)
    requires LoadableMembers(g, ms, depth) && Lookup(ms, name).Some?
    ensures Short(name)
  {
    if ms[0].name != name {
      ShortName(g, ms[1..], name, depth);
    }
  }

  // What is loaded is the saved prototype: every field but the code, the constants and the prototypes inside is
  // unchanged, and those are what they were one by one.
  lemma NormKeeps(g: Globals, p: Proto)
    ensures var q := Norm(g, p);
            && q.name == p.name && q.source == p.source && q.argc == p.argc && q.nstack == p.nstack && q.varg == p.varg
            && q.upvals == p.upvals && |q.code| == |p.code| && |q.consts| == |p.consts| && |q.protos| == |p.protos|
            && (forall i :: 0 <= i < |p.code| ==> q.code[i] == FixCode(g, p.code[i]))
            && (forall i :: 0 <= i < |p.consts| ==> q.consts[i] == NormValue(g, p.consts[i]))
            && (forall i :: 0 <= i < |p.protos| ==> q.protos[i] == Norm(g, p.protos[i]))
  {
    hide FixCode, NormValue;
    FixedAt(g, p.code);
    ValuesAt(g, p.consts);
    ProtosAt(g, p.protos);
  }

  lemma {:induction false} FixedAt(g: Globals, code: seq<Long>)
    ensures |FixedCode(g, code)| == |code| && forall i :: 0 <= i < |code| ==> FixedCode(g, code)[i] == FixCode(g, code[i])
  {
    hide FixCode;
    if code != [] {
      FixedAt(g, code[1..]);
    }
  }

  lemma {:induction false} ValuesAt(g: Globals, vs: seq<Value>)
    ensures |NormValues(g, vs)| == |vs| && forall i :: 0 <= i < |vs| ==> NormValues(g, vs)[i] == NormValue(g, vs[i])
  {
    hide NormValue;
    if vs != [] {
      ValuesAt(g, vs[1..]);
    }
  }

  lemma {:induction false} ProtosAt(g: Globals, ps: seq<Proto>)
    ensures |NormProtos(g, ps)| == |ps| && forall i :: 0 <= i < |ps| ==> NormProtos(g, ps)[i] == Norm(g, ps[i])
  {
    hide Norm;
    if ps != [] {
      ProtosAt(g, ps[1..]);
    }
  }

  // Numbers, strings and nil are unchanged, a class keeps its name, and any other constant is nil.
  lemma ConstantKept(g: Globals, v: Value)
    ensures v.Nil? || v.Int? || v.Real? || v.Str? ==> NormValue(g, v) == v
    ensures v.Other? ==> NormValue(g, v) == Nil
    ensures v.Class? ==> NormValue(g, v).Class? && NormValue(g, v).c.name == v.c.name
  {
    hide NormMembers, Vars, VarCount;
  }

  // A method or a static closure is the loaded prototype, static unless it says it is a method.
  lemma MemberKept(g: Globals, v: MemberValue)
    ensures v.Method? || v.Closure? ==>
              NormMember(g, v) == Closure(Norm(g, v.proto), v.proto.varg / 2 % 2 == 0)
    ensures v.Variable? || v.NilStatic? ==> NormMember(g, v) == v
  {
    hide Norm;
  }

  // The loaded class answers every name as the saved one: the same variables at the same index, and
  // the methods as closures. A closure is static as before exactly when its flag agrees with its prototype.
  lemma NormClassFinds(g: Globals, c: ClassObj, name: Bytes, depth: nat)
    requires LoadableClass(g, c, depth)
    ensures var v := Lookup(c.members, name);
            Lookup(NormClass(g, c).members, name) == if v == None then None else Some(NormMember(g, v.value))
    ensures var v, w := Lookup(c.members, name), Lookup(NormClass(g, c).members, name);
            v.Some? && v.value.Closure? ==>
              w.Some? && w.value.Closure? && (w.value.isStatic == v.value.isStatic <==> v.value.isStatic != IsMethod(v.value.proto.varg))
  {
    var ms, n := c.members, VarCount(c);
    LookupNorm(g, ms, name);
    LookupVars(ms, n, name);
    LookupAppend(NormMembers(g, ms), Vars(ms, n), name);
    var v := Lookup(ms, name);
    if v.Some? && v.value.Variable? {
      VarIsNamed(ms, ms, n, name);
      var i := v.value.index;
      assert VarName(ms, i) == Some(name);
    }
  }

  lemma {:induction false} VarIsNamed(ms: seq<Member>, all: seq<Member>, n: int, name: Bytes)
    requires Indexed(ms, all, n) && Lookup(ms, name).Some? && Lookup(ms, name).value.Variable?
    ensures var i := Lookup(ms, name).value.index; i < n && VarName(all, i) == Some(name)
  {
    if ms[0].name != name {
      VarIsNamed(ms[1..], all, n, name);
    }
  }

  // ----- the format by example -----

  // A small prototype, byte by byte.
  lemma SampleProto(p: Proto)
    requires p.name == Some([0x61]) && p.source == Some([]) && p.argc == 1 && p.nstack == 2 && p.varg == 3
    requires p.code == [0x0102_0304] && p.consts == [Nil, Int(-2), Str([0x78])] && p.protos == []
    requires p.upvals == [Upvalue(5, 6)]
    ensures SaveProto(p) == [1, 0, 0x61,  0, 0,  1, 2, 3, 0,  1, 0, 0, 0,  4, 3, 2, 1]
                            + [3, 0, 0, 0,  0,  1, 254, 255, 255, 255, 255, 255, 255, 255,  16, 1, 0, 0x78,  0, 0, 0, 0,  1, 5, 6]
  {
    hide SaveName, SaveCode, Tables, SaveProto;
    SampleNames(p.name, p.source);
    SampleCode(p.code);
    SampleTables(p);
    ProtoIs(p);
    var t := Tables(p);
    assert Fields(p) + (SaveCode(p.code) + t) == [1, 2, 3, 0,  1, 0, 0, 0,  4, 3, 2, 1] + t;
    assert SaveName(p.source) + (Fields(p) + (SaveCode(p.code) + t)) == [0, 0,  1, 2, 3, 0,  1, 0, 0, 0,  4, 3, 2, 1] + t;
  }

  lemma SampleTables(p: Proto)
    requires p.consts == [Nil, Int(-2), Str([0x78])] && p.protos == [] && p.upvals == [Upvalue(5, 6)]
    ensures Tables(p) == [3, 0, 0, 0,  0,  1, 254, 255, 255, 255, 255, 255, 255, 255,  16, 1, 0, 0x78,  0, 0, 0, 0,  1, 5, 6]
  {
    hide SaveLong, SaveValues, SaveProtos, SaveUpvals;
    SampleConstants(p.consts);
    SampleRest(p.protos, p.upvals);
  }

  lemma SampleNames(name: Option<Bytes>, source: Option<Bytes>)
    requires name == Some([0x61]) && source == Some([])
    ensures SaveName(name) == [1, 0, 0x61] && SaveName(source) == [0, 0]
  {}

  lemma SampleRest(ps: seq<Proto>, us: seq<Upvalue>)
    requires ps == [] && us == [Upvalue(5, 6)]
    ensures SaveProtos(ps) == [] && SaveUpvals(us) == [1, 5, 6] && SaveLong(3) == [3, 0, 0, 0]
    ensures SaveLong(0) == [0, 0, 0, 0]
  {
    assert SavePairs(us) == [5, 6] + SavePairs(us[1..]);
  }

  lemma SampleCode(code: seq<Long>)
    requires code == [0x0102_0304]
    ensures SaveCode(code) == [1, 0, 0, 0, 4, 3, 2, 1]
  {
    assert SaveLongs(code) == SaveLong(code[0]) + SaveLongs(code[1..]);
    assert SaveLong(0x0102_0304) == [4, 3, 2, 1] && SaveLong(1) == [1, 0, 0, 0];
  }

  lemma SampleConstants(vs: seq<Value>)
    requires vs == [Nil, Int(-2), Str([0x78])]
    ensures SaveValues(vs) == [0,  1, 254, 255, 255, 255, 255, 255, 255, 255,  16, 1, 0, 0x78]
  {
    hide SaveValue;
    SampleValues(vs[0], vs[1], vs[2]);
    assert SaveValues(vs) == SaveValue(vs[0]) + SaveValues(vs[1..]) && SaveValues(vs[1..]) == SaveValue(vs[1]) + SaveValues(vs[2..]);
    assert SaveValues(vs[2..]) == SaveValue(vs[2]) + SaveValues(vs[3..]);
  }

  lemma SampleValues(a: Value, b: Value, c: Value)
    requires a == Nil && b == Int(-2) && c == Str([0x78])
    ensures SaveValue(a) == [0] && SaveValue(b) == [1, 254, 255, 255, 255, 255, 255, 255, 255]
    ensures SaveValue(c) == [16, 1, 0, 0x78]
  {
    assert SaveLong(0xFFFF_FFFE) == [254, 255, 255, 255] && SaveLong(0xFFFF_FFFF) == [255, 255, 255, 255];
    hide SaveClass;
  }

  // A class with a variable "v", a method "m" and a static nil "s": the counts of variables and of the other
  // members, those in their order, and last the names of the variables.
  lemma SampleClass(c: ClassObj, p: Proto)
    requires c.name == [0x43] && c.nvar == 2
    requires c.members == [Member([0x76], Variable(0)), Member([0x6D], Method(p)), Member([0x73], NilStatic)]
    ensures SaveClass(c) == [1, 0, 0x43,  1, 0, 0, 0,  2, 0, 0, 0,  1, 0, 0x6D] + SaveProto(p) + [1, 0, 0x73, 0, 0,  1, 0, 0x76]
  {
    hide SaveProto;
    var ms := c.members;
    SampleCounts(ms, p);
    SampleMembers(ms, p);
    assert SaveVars(ms, 0, 1) == SaveName(VarName(ms, 0)) + SaveVars(ms, 1, 1);
    assert SaveLong(1) == [1, 0, 0, 0] && SaveLong(2) == [2, 0, 0, 0] && SaveString(c.name) == [1, 0, 0x43];
    hide SaveLong, SaveMembers, SaveString, MethodCount;
  }

  lemma SampleCounts(ms: seq<Member>, p: Proto)
    requires ms == [Member([0x76], Variable(0)), Member([0x6D], Method(p)), Member([0x73], NilStatic)]
    ensures MethodCount(ms) == 1 && VarName(ms, 0) == Some([0x76])
  {
    assert MethodCount(ms[1..]) == 1 + MethodCount(ms[2..]) && MethodCount(ms[2..]) == MethodCount(ms[3..]) == 0;
    assert VarName(ms[1..], 0) == None by {
      assert VarName(ms[2..], 0) == None && ms[1..][1..] == ms[2..] by {
        assert VarName(ms[3..], 0) == None && ms[2..][1..] == ms[3..];
      }
    }
  }

  lemma SampleMembers(ms: seq<Member>, p: Proto)
    requires ms == [Member([0x76], Variable(0)), Member([0x6D], Method(p)), Member([0x73], NilStatic)]
    ensures SaveMembers(ms, 1) == [1, 0, 0x6D] + SaveProto(p) + [1, 0, 0x73, 0, 0]
  {
    hide SaveProto;
    assert SaveMember(ms[0]) == [] && SaveMember(ms[1]) == [1, 0, 0x6D] + SaveProto(p) && SaveMember(ms[2]) == [1, 0, 0x73, 0, 0];
    assert SaveMembers(ms, 1) == SaveMember(ms[0]) + SaveMembers(ms[1..], 1);
    assert SaveMembers(ms[1..], 1) == SaveMember(ms[1]) + SaveMembers(ms[2..], 1);
    assert SaveMembers(ms[2..], 1) == SaveMember(ms[2]) + SaveMembers(ms[3..], 1);
  }

  // ----- what does not survive -----

  // A prototype with an empty name is taken for a static member: nothing behind the name is read.
  lemma EmptyNameLost(g: Globals, p: Proto, rest: Bytes)
    requires p.name == Some([])
    ensures LoadProto(g, SaveProto(p) + rest).0 == None
    ensures LoadProto(g, SaveProto(p) + rest).1 == SaveProto(p)[2..] + rest
  {
    hide LoadCode, LoadTables, LoadLong, LoadByte, SaveValues, SaveProtos, SaveUpvals, SaveCode;
    var tail := SaveProto(p)[2..];
    assert SaveString([]) == SaveWord(0) + [];
    assert SaveProto(p) == SaveWord(0) + tail;
    Assoc(SaveWord(0), tail, rest);
    EmptyString(g.intern, tail + rest);
  }

  // A constant is read back whatever the machine holds if and only if its type has a saved value and it is
  // no string that the table of strings confuses with another.
  lemma ConstantSurvives(v: Value, rest: Bytes)
    requires !v.Class? && (v.Other? ==> v.kind !in {BE_INT, BE_REAL, BE_STRING, BE_CLASS})
    ensures (forall g: Globals :: LoadValue(g, SaveValue(v) + rest) == (v, rest)) <==> !v.Other? && (v.Str? ==> Short(v.s))
  {
    hide LoadString, SaveString, Short, LoadInt, LoadReal, LoadClass;
    if !v.Other? && (v.Str? ==> Short(v.s)) {
      forall g: Globals ensures LoadValue(g, SaveValue(v) + rest) == (v, rest) {
        ValueTrip(g, v, rest, 0);
      }
    } else if v.Other? {
      ValueTrip(Globals(0, [], [], (at, x) => x), v, rest, 0);
    } else {
      StringLost(v.s, rest);
    }
  }

  lemma StringLost(s: Bytes, rest: Bytes)
    requires !Short(s)
    ensures exists g: Globals :: LoadValue(g, SaveValue(Str(s)) + rest) != (Str(s), rest)
  {
    var intern := ConfusedBy(s);
    String1(intern, s, rest);
    hide LoadString, SaveString, Short;
    Assoc([BE_STRING], SaveString(s), rest);
    Byte1(BE_STRING, SaveString(s) + rest);
    var g := Globals(0, [], [], intern);
    assert LoadValue(g, SaveValue(Str(s)) + rest) != (Str(s), rest);
  }

  // ----- the writer -----

  // A file with its read position.
  class File {
    var data: Bytes
    var pos: nat

    constructor ()
      ensures data == [] && pos == 0
    {
      data, pos := [], 0;
    }

    predicate Valid()
      reads this
    {
      pos <= |data|
    }

    function Rest(): Bytes
      reads this
      requires Valid()
    {
      data[pos..]
    }

    // be_fwrite
    method Write(b: Bytes)
      modifies this`data
      ensures data == old(data) + b
    {
      data := data + b;
    }

    // be_fread: fewer bytes at the end of the file.
    method Read(n: nat) returns (b: Bytes)
      requires Valid()
      modifies this`pos
      ensures Valid() && |b| == if n <= |old(Rest())| then n else |old(Rest())|
      ensures old(Rest()) == b + Rest()
    {
      var m := if n <= |data| - pos then n else |data| - pos;
      b := data[pos..pos + m];
      pos := pos + m;
    }
  }

  method WriteLong(f: File, v: Long)
    modifies f`data
    ensures f.data == old(f.data) + SaveLong(v)
  {
    f.Write([v % 256, v / 256 % 256, v / 0x1_0000 % 256, v / 0x100_0000]);
  }

  method WriteString(f: File, s: Option<Bytes>)
    modifies f`data
    ensures f.data == old(f.data) + SaveName(s)
  {
    if s.Some? {
      var n := |s.value| % 0x1_0000;
      f.Write([n % 256, n / 256]);
      f.Write(s.value[..n]);
    }
  }

  // With named globals only, a word that is the number of GETGBL or SETGBL stops the saving.
  predicate Forbidden(named: bool, code: seq<Long>) {
    named && (OP_GETGBL in code || OP_SETGBL in code)
  }

  predicate Savable(named: bool, p: Proto)
    decreases p
  {
    !Forbidden(named, p.code) && SavableValues(named, p.consts) && SavableProtos(named, p.protos)
  }

  predicate SavableProtos(named: bool, ps: seq<Proto>)
    decreases ps
  {
    ps == [] || (Savable(named, ps[0]) && SavableProtos(named, ps[1..]))
  }

  predicate SavableValues(named: bool, vs: seq<Value>)
    decreases vs
  {
    vs == [] || (SavableValue(named, vs[0]) && SavableValues(named, vs[1..]))
  }

  predicate SavableValue(named: bool, v: Value)
    decreases v
  {
    v.Class? ==> SavableMembers(named, v.c.members, VarCount(v.c))
  }

  predicate SavableMembers(named: bool, ms: seq<Member>, nvar: int)
    decreases ms
  {
    ms == [] || (nvar == 0 && ms[0].value.Variable?) || (SavableMember(named, ms[0]) && SavableMembers(named, ms[1..], nvar))
  }

  predicate SavableMember(named: bool, m: Member)
    decreases m
  {
    match m.value
    case Method(p) => Savable(named, p)
    case Closure(p, _) => Savable(named, p)
    case Unsupported => false
    case _ => true
  }

  // The comparison is with the whole word, and a word that small has opcode 0.
  lemma SmallWordOp(ins: Long)
    requires ins < 64
    ensures Decoder.Op(ins) == 0
  {
    Decoder.GetIs(ins, Decoder.OP_POS, Decoder.OP_BITS);
    ShrIsDiv(ins, Decoder.OP_POS);
    assert Pow2(6) == 64;
    Pow2Sum(6, 20);
    ModUnique(ins, Pow2(Decoder.OP_POS), 0, ins);
    AndOnes(0, Decoder.OP_BITS);
  }

  // What the comparison is meant for is an access to a global. It is right about a word exactly when the
  // word is no access and is not one of the two numbers: it never stops at an access, and stops only at
  // words that are none.
  lemma GuardRightIff(ins: Long)
    ensures ((ins == OP_GETGBL || ins == OP_SETGBL) <==> GlobalAccess(ins))
            <==> !GlobalAccess(ins) && ins != OP_GETGBL && ins != OP_SETGBL
  {
    hide Decoder.Op;
    if ins == OP_GETGBL || ins == OP_SETGBL {
      SmallWordOp(ins);
    }
  }

  // So code of accesses alone is saved with named globals, whatever their indices, although the list of
  // names of such a file is empty.
  lemma {:induction false} AccessesSaved(code: seq<Long>)
    requires forall i :: 0 <= i < |code| ==> GlobalAccess(code[i])
    ensures !Forbidden(true, code)
  {
    hide Decoder.Op;
    forall i | 0 <= i < |code| ensures code[i] != OP_GETGBL && code[i] != OP_SETGBL {
      GuardRightIff(code[i]);
    }
  }

  // A file with an access beyond the builtins and the saved names is none that loads.
  lemma {:induction false} BeyondNames(code: seq<Long>, i: nat, bound: int)
    requires i < |code| && GlobalAccess(code[i]) && Decoder.Bx(code[i]) >= bound
    ensures !AccessesBelow(code, bound)
    decreases i
  {
    hide GlobalAccess, Decoder.Bx;
    if i > 0 {
      BeyondNames(code[1..], i - 1, bound);
    }
  }

  // Each writer either appends the whole encoding or stops with an error where one is due.
  method WriteCode(f: File, named: bool, code: seq<Long>) returns (ok: bool)
    modifies f`data
    ensures ok <==> !Forbidden(named, code)
    ensures ok ==> f.data == old(f.data) + SaveCode(code)
  {
    hide SaveLong;
    WriteLong(f, |code| % 0x1_0000_0000);
    ghost var start := f.data;
    for i := 0 to |code|
      invariant f.data + SaveLongs(code[i..]) == start + SaveLongs(code) && !Forbidden(named, code[..i])
    {
      assert code[i..][0] == code[i] && code[i..][1..] == code[i + 1..];
      Assoc(f.data, SaveLong(code[i]), SaveLongs(code[i + 1..]));
      WriteLong(f, code[i]);
      assert code[..i + 1] == code[..i] + [code[i]];
      if named && (code[i] == OP_GETGBL || code[i] == OP_SETGBL) {
        return false;
      }
    }
    assert code[|code|..] == [] && code[..|code|] == code && f.data + [] == f.data;
    Assoc(old(f.data), SaveLong(|code| % 0x1_0000_0000), SaveLongs(code));
    return true;
  }

  method WriteValue(f: File, named: bool, v: Value) returns (ok: bool)
    modifies f`data
    ensures ok <==> SavableValue(named, v)
    ensures ok ==> f.data == old(f.data) + SaveValue(v)
    decreases v
  {
    hide SaveInt, SaveReal, SaveClass, SaveLong, SaveString, SavableMembers, VarCount;
    f.Write([Kind(v)]);
    match v
    case Int(i) =>
      WriteLong(f, i % 0x1_0000_0000);
      WriteLong(f, i / 0x1_0000_0000 % 0x1_0000_0000);
      IntWritten(i);
      return true;
    case Real(r) =>
      WriteLong(f, r % 0x1_0000_0000);
      WriteLong(f, r / 0x1_0000_0000);
      RealWritten(r);
      return true;
    case Str(s) =>
      WriteString(f, Some(s));
      return true;
    case Class(c) =>
      ok := WriteClass(f, named, c);
    case _ =>
      return true;
  }

  lemma IntWritten(i: Int64)
    ensures SaveInt(i) == SaveLong(i % 0x1_0000_0000) + SaveLong(i / 0x1_0000_0000 % 0x1_0000_0000)
  {}

  lemma RealWritten(r: Double)
    ensures SaveReal(r) == SaveLong(r % 0x1_0000_0000) + SaveLong(r / 0x1_0000_0000)
  {}

  method WriteValues(f: File, named: bool, vs: seq<Value>) returns (ok: bool)
    modifies f`data
    ensures ok <==> SavableValues(named, vs)
    ensures ok ==> f.data == old(f.data) + SaveValues(vs)
    decreases vs
  {
    for i := 0 to |vs|
      invariant f.data + SaveValues(vs[i..]) == old(f.data) + SaveValues(vs)
      invariant SavableValues(named, vs[i..]) <==> SavableValues(named, vs)
    {
      hide SaveValue, SavableValue;
      assert vs[i..][0] == vs[i] && vs[i..][1..] == vs[i + 1..];
      Assoc(f.data, SaveValue(vs[i]), SaveValues(vs[i + 1..]));
      ok := WriteValue(f, named, vs[i]);
      if !ok {
        return;
      }
    }
    assert vs[|vs|..] == [];
    return true;
  }

  method WriteProtos(f: File, named: bool, ps: seq<Proto>) returns (ok: bool)
    modifies f`data
    ensures ok <==> SavableProtos(named, ps)
    ensures ok ==> f.data == old(f.data) + SaveProtos(ps)
    decreases ps
  {
    for i := 0 to |ps|
      invariant f.data + SaveProtos(ps[i..]) == old(f.data) + SaveProtos(ps)
      invariant SavableProtos(named, ps[i..]) <==> SavableProtos(named, ps)
    {
      hide SaveProto, Savable;
      assert ps[i..][0] == ps[i] && ps[i..][1..] == ps[i + 1..];
      Assoc(f.data, SaveProto(ps[i]), SaveProtos(ps[i + 1..]));
      ok := WriteProto(f, named, ps[i]);
      if !ok {
        return;
      }
    }
    assert ps[|ps|..] == [];
    return true;
  }

  method WriteUpvals(f: File, us: seq<Upvalue>)
    modifies f`data
    ensures f.data == old(f.data) + SaveUpvals(us)
  {
    f.Write([|us| % 256]);
    ghost var start := f.data;
    for i := 0 to |us|
      invariant f.data + SavePairs(us[i..]) == start + SavePairs(us)
    {
      assert us[i..][0] == us[i] && us[i..][1..] == us[i + 1..];
      Assoc(f.data, [us[i].instack, us[i].idx], SavePairs(us[i + 1..]));
      f.Write([us[i].instack, us[i].idx]);
    }
    assert us[|us|..] == [] && f.data + [] == f.data;
    Assoc(old(f.data), [|us| % 256], SavePairs(us));
  }

  // save_proto
  method WriteProto(f: File, named: bool, p: Proto) returns (ok: bool)
    modifies f`data
    ensures ok <==> Savable(named, p)
    ensures ok ==> f.data == old(f.data) + SaveProto(p)
    decreases p
  {
    hide SaveLong, SaveName, SaveCode, SaveValues, SaveProtos, SaveUpvals, SavableValues, SavableProtos, Forbidden, SaveProto,
         Fields;
    WriteString(f, p.name);
    WriteString(f, p.source);
    f.Write(Fields(p));
    ok := WriteCode(f, named, p.code);
    if !ok {
      return;
    }
    WriteLong(f, |p.consts| % 0x1_0000_0000);
    ok := WriteValues(f, named, p.consts);
    if !ok {
      return;
    }
    WriteLong(f, |p.protos| % 0x1_0000_0000);
    ok := WriteProtos(f, named, p.protos);
    if !ok {
      return;
    }
    WriteUpvals(f, p.upvals);
    ProtoWritten(p, old(f.data));
  }

  // The pieces one after the other are the encoding.
  lemma ProtoWritten(p: Proto, start: Bytes)
    ensures var s2 := start + SaveName(p.name) + SaveName(p.source);
            var s4 := s2 + Fields(p) + SaveCode(p.code);
            var s6 := s4 + SaveLong(|p.consts| % 0x1_0000_0000) + SaveValues(p.consts);
            var s8 := s6 + SaveLong(|p.protos| % 0x1_0000_0000) + SaveProtos(p.protos);
            s8 + SaveUpvals(p.upvals) == start + SaveProto(p)
  {
    hide SaveLong, SaveName, SaveCode, SaveValues, SaveProtos, SaveUpvals, Fields;
    var q := SaveProtos(p.protos) + SaveUpvals(p.upvals);
    var nq := SaveLong(|p.protos| % 0x1_0000_0000) + q;
    var v := SaveValues(p.consts) + nq;
    var nv := SaveLong(|p.consts| % 0x1_0000_0000) + v;
    var code := SaveCode(p.code) + nv;
    var fields := Fields(p) + code;
    var s2 := start + SaveName(p.name) + SaveName(p.source);
    var s4 := s2 + Fields(p) + SaveCode(p.code);
    var s6 := s4 + SaveLong(|p.consts| % 0x1_0000_0000) + SaveValues(p.consts);
    ProtoIs(p);
    Assoc(start, SaveName(p.name), SaveName(p.source) + fields);
    Assoc(start + SaveName(p.name), SaveName(p.source), fields);
    Assoc(s2, Fields(p), code);
    Assoc(s2 + Fields(p), SaveCode(p.code), nv);
    Assoc(s4, SaveLong(|p.consts| % 0x1_0000_0000), v);
    Assoc(s4 + SaveLong(|p.consts| % 0x1_0000_0000), SaveValues(p.consts), nq);
    Assoc(s6, SaveLong(|p.protos| % 0x1_0000_0000), q);
    Assoc(s6 + SaveLong(|p.protos| % 0x1_0000_0000), SaveProtos(p.protos), SaveUpvals(p.upvals));
  }

  lemma ProtoIs(p: Proto)
    ensures SaveProto(p) == SaveName(p.name) + (SaveName(p.source) + (Fields(p) + (SaveCode(p.code) + Tables(p))))
  {}

  // The cache after the first members: the name of each variable by its index.
  predicate Cached(vars: seq<Option<Bytes>>, ms: seq<Member>) {
    forall k :: 0 <= k < |vars| ==> vars[k] == VarName(ms, k)
  }

  lemma {:induction false} VarNameSnoc(ms: seq<Member>, m: Member, k: nat)
    ensures VarName(ms + [m], k) == if m.value == Variable(k) then Some(m.name) else VarName(ms, k)
  {
    if ms == [] {
      assert ms + [m] == [m] && [m][1..] == [];
    } else {
      assert (ms + [m])[1..] == ms[1..] + [m];
      VarNameSnoc(ms[1..], m, k);
    }
  }

  // save_members: methods are written as they come, the names of variables are kept for later. Without
  // room for names it stops at a variable.
  method WriteMembers(f: File, named: bool, ms: seq<Member>, nvar: int) returns (ok: bool, vars: seq<Option<Bytes>>)
    modifies f`data
    ensures ok <==> SavableMembers(named, ms, nvar)
    ensures ok ==> f.data == old(f.data) + SaveMembers(ms, nvar)
    ensures ok ==> |vars| == (if nvar < 0 then 0 else nvar) && Cached(vars, ms)
    decreases ms
  {
    vars := seq(if nvar < 0 then 0 else nvar, i => None);
    ghost var n := |vars|;
    for i := 0 to |ms|
      invariant f.data + SaveMembers(ms[i..], nvar) == old(f.data) + SaveMembers(ms, nvar) && |vars| == n
      invariant Cached(vars, ms[..i])
      invariant SavableMembers(named, ms[i..], nvar) <==> SavableMembers(named, ms, nvar)
    {
      hide SaveMember, SavableMember;
      var m := ms[i];
      assert ms[i..][0] == m && ms[i..][1..] == ms[i + 1..];
      if m.value.Variable? && nvar == 0 {
        assert f.data + [] == f.data;
        return true, vars;
      }
      assert ms[..i + 1] == ms[..i] + [m];
      Assoc(f.data, SaveMember(m), SaveMembers(ms[i + 1..], nvar));
      forall k: nat ensures VarName(ms[..i + 1], k) == if m.value == Variable(k) then Some(m.name) else VarName(ms[..i], k) {
        VarNameSnoc(ms[..i], m, k);
      }
      ok := WriteMember(f, named, m);
      if !ok {
        return;
      }
      if m.value.Variable? && m.value.index < |vars| {
        vars := vars[m.value.index := Some(m.name)];
      }
    }
    assert ms[|ms|..] == [] && ms[..|ms|] == ms;
    ok := true;
  }

  method WriteMember(f: File, named: bool, m: Member) returns (ok: bool)
    modifies f`data
    ensures ok <==> SavableMember(named, m)
    ensures ok ==> f.data == old(f.data) + SaveMember(m)
    decreases m
  {
    hide SaveProto, Savable;
    match m.value
    case Variable(_) =>
      return true;
    case Method(p) =>
      WriteString(f, Some(m.name));
      ok := WriteProto(f, named, p);
    case Closure(p, _) =>
      WriteString(f, Some(m.name));
      ok := WriteProto(f, named, p);
    case NilStatic =>
      WriteString(f, Some(m.name));
      f.Write([0, 0]);
      return true;
    case Unsupported =>
      WriteString(f, Some(m.name));
      return false;
  }

  // save_class
  method WriteClass(f: File, named: bool, c: ClassObj) returns (ok: bool)
    modifies f`data
    ensures ok <==> SavableMembers(named, c.members, VarCount(c))
    ensures ok ==> f.data == old(f.data) + SaveClass(c)
    decreases c
  {
    hide SaveLong, SaveString, SaveMembers, SavableMembers;
    var n := VarCount(c);
    WriteString(f, Some(c.name));
    WriteLong(f, n % 0x1_0000_0000);
    WriteLong(f, (|c.members| - n) % 0x1_0000_0000);
    var vars: seq<Option<Bytes>>;
    ok, vars := WriteMembers(f, named, c.members, n);
    if !ok {
      return;
    }
    ghost var start := f.data;
    ClassWritten(c, old(f.data));
    var i := 0;
    while i < n
      invariant 0 <= i && (n >= 0 ==> i <= n)
      invariant f.data + SaveVars(c.members, i, n) == start + SaveVars(c.members, 0, n)
    {
      Assoc(f.data, SaveName(vars[i]), SaveVars(c.members, i + 1, n));
      WriteString(f, vars[i]);
      i := i + 1;
    }
    assert SaveVars(c.members, i, n) == [];
  }

  lemma ClassWritten(c: ClassObj, start: Bytes)
    ensures start + SaveString(c.name) + SaveLong(VarCount(c) % 0x1_0000_0000) + SaveLong((|c.members| - VarCount(c)) % 0x1_0000_0000)
            + SaveMembers(c.members, VarCount(c)) + SaveVars(c.members, 0, VarCount(c)) == start + SaveClass(c)
  {
    hide SaveLong, SaveString, SaveMembers, SaveVars, VarCount;
  }

  // ----- the reader -----

  method ReadByte(f: File) returns (v: Byte)
    requires f.Valid()
    modifies f`pos
    ensures f.Valid() && (v, f.Rest()) == LoadByte(old(f.Rest()))
  {
    var b := f.Read(1);
    v := if |b| == 1 then b[0] else 0;
  }

  method ReadWord(f: File) returns (v: Word)
    requires f.Valid()
    modifies f`pos
    ensures f.Valid() && (v, f.Rest()) == LoadWord(old(f.Rest()))
  {
    var b := f.Read(2);
    v := if |b| == 2 then Join(b[0], b[1]) else 0;
  }

  method ReadLong(f: File) returns (v: Long)
    requires f.Valid()
    modifies f`pos
    ensures f.Valid() && (v, f.Rest()) == LoadLong(old(f.Rest()))
  {
    var b := f.Read(4);
    v := if |b| == 4 then Join(b[0], b[1]) + 0x1_0000 * Join(b[2], b[3]) else 0;
  }

  // load_string
  method ReadString(f: File, intern: Intern) returns (s: Bytes)
    requires f.Valid()
    modifies f`pos
    ensures f.Valid() && (s, f.Rest()) == LoadString(intern, old(f.Rest()))
  {
    hide LoadWord;
    var n := ReadWord(f);
    ghost var b1 := f.Rest();
    if n > 0 {
      var b := f.Read(n);
      assert |b1| >= n ==> b == b1[..n] && f.Rest() == b1[n..];
      assert |b1| < n ==> b == b1 && f.Rest() == [];
      s := b + seq(n - |b|, i => 0);
      assert n == |b| ==> s == b;
      s := Interned(intern, |f.data| - f.pos + |b|, s);
    } else {
      s := [];
      assert b1[..0] == [] && b1[0..] == b1;
    }
  }

  // load_bytecode
  method ReadCode(f: File, g: Globals) returns (code: seq<Long>)
    requires f.Valid()
    modifies f`pos
    ensures f.Valid() && var (n, b) := LoadLong(old(f.Rest())); (code, f.Rest()) == LoadCode(g, n, b)
  {
    hide LoadLong, FixCode;
    var n := ReadLong(f);
    code := [];
    ghost var b0 := f.Rest();
    assert [] + LoadCode(g, n, b0).0 == LoadCode(g, n, b0).0;
    for i := 0 to n
      invariant f.Valid()
      invariant code + LoadCode(g, n - i, f.Rest()).0 == LoadCode(g, n, b0).0
      invariant LoadCode(g, n - i, f.Rest()).1 == LoadCode(g, n, b0).1
    {
      ghost var was := code;
      var ins := ReadLong(f);
      code := code + [FixCode(g, ins)];
      Snoc(was, FixCode(g, ins), LoadCode(g, n - i - 1, f.Rest()).0);
    }
    assert code + [] == code;
  }

  method ReadUpvals(f: File) returns (us: seq<Upvalue>)
    requires f.Valid()
    modifies f`pos
    ensures f.Valid() && var (n, b) := LoadByte(old(f.Rest())); (us, f.Rest()) == LoadUpvals(n, b)
  {
    hide LoadByte;
    var n := ReadByte(f);
    us := [];
    ghost var b0 := f.Rest();
    assert [] + LoadUpvals(n, b0).0 == LoadUpvals(n, b0).0;
    for i := 0 to n
      invariant f.Valid()
      invariant us + LoadUpvals(n - i, f.Rest()).0 == LoadUpvals(n, b0).0
      invariant LoadUpvals(n - i, f.Rest()).1 == LoadUpvals(n, b0).1
    {
      ghost var was := us;
      var instack := ReadByte(f);
      var idx := ReadByte(f);
      us := us + [Upvalue(instack, idx)];
      Snoc(was, Upvalue(instack, idx), LoadUpvals(n - i - 1, f.Rest()).0);
    }
    assert us + [] == us;
  }

  // load_value
  method ReadValue(f: File, g: Globals) returns (v: Value)
    requires f.Valid()
    modifies f`pos
    ensures f.Valid() && (v, f.Rest()) == LoadValue(g, old(f.Rest()))
    decreases |f.Rest()|, 1, 0
  {
    hide LoadString, LoadLong, LoadClass;
    var kind := ReadByte(f);
    if kind == BE_INT {
      var lo := ReadLong(f);
      var hi := ReadLong(f);
      v := Int(Signed(lo, hi));
    } else if kind == BE_REAL {
      var lo := ReadLong(f);
      var hi := ReadLong(f);
      v := Real(Unsigned(lo, hi));
    } else if kind == BE_STRING {
      var s := ReadString(f, g.intern);
      v := Str(s);
    } else if kind == BE_CLASS {
      var c := ReadClass(f, g);
      v := Class(c);
    } else {
      v := Nil;
    }
  }

  // load_constant
  method ReadValues(f: File, g: Globals, n: nat) returns (vs: seq<Value>)
    requires f.Valid()
    modifies f`pos
    ensures f.Valid() && (vs, f.Rest()) == LoadValues(g, n, old(f.Rest()))
    decreases |f.Rest()|, 2, n
  {
    hide LoadValue;
    vs := [];
    ghost var b0 := f.Rest();
    assert [] + LoadValues(g, n, b0).0 == LoadValues(g, n, b0).0;
    for i := 0 to n
      invariant f.Valid() && |f.Rest()| <= |b0|
      invariant vs + LoadValues(g, n - i, f.Rest()).0 == LoadValues(g, n, b0).0
      invariant LoadValues(g, n - i, f.Rest()).1 == LoadValues(g, n, b0).1
    {
      ghost var was := vs;
      var v := ReadValue(f, g);
      vs := vs + [v];
      Snoc(was, v, LoadValues(g, n - i - 1, f.Rest()).0);
    }
    assert vs + [] == vs;
  }

  // load_proto_table
  method ReadProtos(f: File, g: Globals, n: nat) returns (ps: seq<Proto>)
    requires f.Valid()
    modifies f`pos
    ensures f.Valid() && (ps, f.Rest()) == LoadProtos(g, n, old(f.Rest()))
    decreases |f.Rest()|, 2, n
  {
    hide LoadProto;
    ps := [];
    ghost var b0 := f.Rest();
    assert [] + LoadProtos(g, n, b0).0 == LoadProtos(g, n, b0).0;
    for i := 0 to n
      invariant f.Valid() && |f.Rest()| <= |b0|
      invariant ps + LoadProtos(g, n - i, f.Rest()).0 == LoadProtos(g, n, b0).0
      invariant LoadProtos(g, n - i, f.Rest()).1 == LoadProtos(g, n, b0).1
    {
      ghost var was := ps;
      var p := ReadProto(f, g);
      var q := if p.Some? then p.value else NoProto();
      ps := ps + [q];
      Snoc(was, q, LoadProtos(g, n - i - 1, f.Rest()).0);
    }
    assert ps + [] == ps;
  }

  // load_proto
  method ReadProto(f: File, g: Globals) returns (p: Option<Proto>)
    requires f.Valid()
    modifies f`pos
    ensures f.Valid() && (p, f.Rest()) == LoadProto(g, old(f.Rest()))
    decreases |f.Rest()|, 1, 0
  {
    NameShortens(g.intern, f.Rest());
    hide LoadString, LoadByte, LoadLong, LoadCode, LoadTables;
    var name := ReadString(f, g.intern);
    if name == [] {
      return None;
    }
    var source := ReadString(f, g.intern);
    var argc := ReadByte(f);
    var nstack := ReadByte(f);
    var varg := ReadByte(f);
    var reserved := ReadByte(f);
    var code := ReadCode(f, g);
    var consts, protos, upvals := ReadTables(f, g);
    return Some(Proto(Some(name), Some(source), argc, nstack, varg, code, consts, protos, upvals));
  }

  // Constants, nested prototypes and upvalues.
  method ReadTables(f: File, g: Globals) returns (consts: seq<Value>, protos: seq<Proto>, upvals: seq<Upvalue>)
    requires f.Valid()
    modifies f`pos
    ensures f.Valid() && (consts, protos, upvals, f.Rest()) == LoadTables(g, old(f.Rest()))
    decreases |f.Rest()|, 4
  {
    hide LoadByte, LoadLong, LoadValues, LoadProtos, LoadUpvals;
    var nconst := ReadLong(f);
    consts := ReadValues(f, g, nconst);
    var nproto := ReadLong(f);
    protos := ReadProtos(f, g, nproto);
    upvals := ReadUpvals(f);
  }

  lemma NameShortens(intern: Intern, b: Bytes)
    ensures LoadString(intern, b).0 != [] ==> |LoadString(intern, b).1| < |b|
  {}

  // load_class
  method ReadClass(f: File, g: Globals) returns (c: ClassObj)
    requires f.Valid()
    modifies f`pos
    ensures f.Valid() && (c, f.Rest()) == LoadClass(g, old(f.Rest()))
    decreases |f.Rest()|, 3, 0
  {
    hide LoadString, LoadLong, LoadProto, Bind, Bound;
    var name := ReadString(f, g.intern);
    var nvar := ReadLong(f);
    var count := ReadLong(f);
    var ms: seq<Member> := [];
    ghost var b3 := f.Rest();
    for i := 0 to count
      invariant f.Valid() && |f.Rest()| <= |b3|
      invariant LoadMethods(g, count - i, f.Rest(), ms) == LoadMethods(g, count, b3, [])
    {
      var mname := ReadString(f, g.intern);
      var p := ReadProto(f, g);
      ms := Bind(ms, mname, Bound(p));
    }
    ghost var b4, ms4 := f.Rest(), ms;
    for i := 0 to nvar
      invariant f.Valid() && LoadVars(g, nvar - i, i, f.Rest(), ms) == LoadVars(g, nvar, 0, b4, ms4)
    {
      var vname := ReadString(f, g.intern);
      ms := Bind(ms, vname, Variable(i));
    }
    c := ClassObj(name, nvar, ms);
  }

  // ----- whole files -----

  // Magic number, version 4, and the sizes of integers and reals.
  const HEADER: Bytes := [0xBE, 0xCD, 0xFE, 4, 3, 0, 0, 0]

  function SaveStrings(names: seq<Bytes>): Bytes {
    if names == [] then [] else SaveString(names[0]) + SaveStrings(names[1..])
  }

  // With named globals the names of the globals are left out.
  function SaveFile(named: bool, builtins: nat, globals: seq<Bytes>, p: Proto): Bytes {
    var names := if named then [] else globals;
    HEADER + (SaveLong(builtins % 0x1_0000_0000) + (SaveLong(|names| % 0x1_0000_0000) + (SaveStrings(names) + SaveProto(p))))
  }

  function LoadStrings(intern: Intern, n: nat, b: Bytes): (r: (seq<Bytes>, Bytes)) {
    if n == 0 then ([], b)
    else
      var (name, b1) := LoadString(intern, b);
      var (rest, b2) := LoadStrings(intern, n - 1, b1);
      ([name] + rest, b2)
  }

  // be_global_new
  function DeclareOne(table: seq<Bytes>, name: Bytes): seq<Bytes> {
    if name in table then table else table + [name]
  }

  function Declare(table: seq<Bytes>, names: seq<Bytes>): seq<Bytes>
    decreases names
  {
    if names == [] then table else Declare(DeclareOne(table, names[0]), names[1..])
  }

  // A machine before loading: its number of builtins, its globals, and its strings.
  datatype Machine = Machine(builtins: nat, table: seq<Bytes>, intern: Intern)

  function Linked(m: Machine, names: seq<Bytes>): Globals {
    Globals(m.builtins, names, Declare(m.table, names), m.intern)
  }

  datatype Loaded = Loaded(table: seq<Bytes>, proto: Option<Proto>, rest: Bytes) | BadHeader | TooManyBuiltins

  // be_bytecode_load
  function LoadFile(m: Machine, b: Bytes): Loaded {
    if |b| < 5 || b[0] != 0xBE || b[1] != 0xCD || b[2] != 0xFE || b[3] != 4 || b[4] != 3 then BadHeader
    else
      var (bcnt, b1) := LoadLong(if |b| < 8 then [] else b[8..]);
      var (gcnt, b2) := LoadLong(b1);
      if bcnt > m.builtins then TooManyBuiltins
      else
        var (names, b3) := LoadStrings(m.intern, gcnt, b2);
        var (p, b4) := LoadProto(Linked(m, names), b3);
        Loaded(Declare(m.table, names), p, b4)
  }

  // A file begins with its magic number, the version 4, and the sizes of integers and of reals.
  lemma FileHead(named: bool, builtins: nat, globals: seq<Bytes>, p: Proto)
    ensures |SaveFile(named, builtins, globals, p)| >= 8
    ensures SaveFile(named, builtins, globals, p)[..8] == [0xBE, 0xCD, 0xFE, 4, 3, 0, 0, 0]
  {
    hide SaveLong, SaveStrings, SaveProto;
  }

  // Any other head is refused, and so is a file with more builtins than the machine has.
  lemma RefusedIff(m: Machine, b: Bytes)
    ensures LoadFile(m, b) == BadHeader <==> !([0xBE, 0xCD, 0xFE, 4, 3] <= b)
    ensures LoadFile(m, b) == TooManyBuiltins <==>
              [0xBE, 0xCD, 0xFE, 4, 3] <= b && |b| >= 12
              && b[8] as int + 0x100 * (b[9] as int) + 0x1_0000 * (b[10] as int) + 0x100_0000 * (b[11] as int) > m.builtins
  {
    hide LoadProto, LoadStrings, Declare;
  }

  predicate AllShort(names: seq<Bytes>) {
    names == [] || (Short(names[0]) && AllShort(names[1..]))
  }

  lemma {:induction false} StringsTrip(intern: Intern, names: seq<Bytes>, rest: Bytes)
    requires AllShort(names)
    ensures LoadStrings(intern, |names|, SaveStrings(names) + rest) == (names, rest)
    decreases names
  {
    hide LoadString, SaveString, Short;
    if names == [] {
      assert SaveStrings(names) + rest == rest;
    } else {
      Assoc(SaveString(names[0]), SaveStrings(names[1..]), rest);
      String1(intern, names[0], SaveStrings(names[1..]) + rest);
      StringsTrip(intern, names[1..], rest);
      assert names == [names[0]] + names[1..];
    }
  }

  // A saved file loads on a machine with at least as many builtins: the same globals are declared, the
  // same prototype comes back linked to them, and no byte is left over.
  lemma FileTrip(named: bool, saved: nat, globals: seq<Bytes>, p: Proto, m: Machine)
    requires saved <= m.builtins && Countable(saved) && Countable(|globals|) && AllShort(globals)
    requires Loadable(Linked(m, if named then [] else globals), p, 0)
    ensures var names := if named then [] else globals;
            LoadFile(m, SaveFile(named, saved, globals, p)) == Loaded(Declare(m.table, names), Some(Norm(Linked(m, names), p)), [])
  {
    hide Loadable, LoadLong, SaveLong, LoadStrings, SaveStrings, SaveProto, LoadProto, Norm, Declare;
    var names := if named then [] else globals;
    var b3 := SaveStrings(names) + SaveProto(p);
    var b2 := SaveLong(|names|) + b3;
    assert SaveFile(named, saved, globals, p)[8..] == SaveLong(saved) + b2;
    Long1(saved, b2);
    Long1(|names|, b3);
    StringsTrip(m.intern, names, SaveProto(p));
    ProtoTrip(Linked(m, names), p, [], 0);
    assert SaveProto(p) + [] == SaveProto(p);
  }

  // A file saved with more builtins than the machine has is refused.
  lemma BuiltinsRefused(named: bool, saved: nat, globals: seq<Bytes>, p: Proto, m: Machine)
    requires m.builtins < saved && Countable(saved)
    ensures LoadFile(m, SaveFile(named, saved, globals, p)) == TooManyBuiltins
  {
    hide LoadLong, SaveLong, LoadStrings, SaveStrings, SaveProto, LoadProto, Declare;
    var names := if named then [] else globals;
    var b2 := SaveLong(|names| % 0x1_0000_0000) + (SaveStrings(names) + SaveProto(p));
    assert SaveFile(named, saved, globals, p)[8..] == SaveLong(saved) + b2;
    Long1(saved, b2);
  }

  // ----- linking globals -----

  // The name of the global with an index, on a machine with these builtins and these globals.
  function GlobalName(builtins: seq<Bytes>, table: seq<Bytes>, idx: int): Option<Bytes> {
    if 0 <= idx < |builtins| then Some(builtins[idx])
    else if 0 <= idx - |builtins| < |table| then Some(table[idx - |builtins|])
    else None
  }

  predicate NoRepeat(names: seq<Bytes>) {
    forall i, j :: 0 <= i < j < |names| ==> names[i] != names[j]
  }

  lemma {:induction false} IndexInFinds(table: seq<Bytes>, name: Bytes)
    requires name in table
    ensures IndexIn(table, name) < |table| && table[IndexIn(table, name)] == name
  {
    if table[0] != name {
      assert table == [table[0]] + table[1..];
      IndexInFinds(table[1..], name);
    }
  }

  // Declaring keeps the index of every global the machine has, and has room for each of the names.
  lemma {:induction false} Declared(table: seq<Bytes>, names: seq<Bytes>)
    ensures table <= Declare(table, names)
    ensures forall name :: name in names || name in table ==> name in Declare(table, names)
    ensures forall name :: name in Declare(table, names) ==> name in names || name in table
    ensures NoRepeat(table) ==> NoRepeat(Declare(table, names))
    decreases names
  {
    if names != [] {
      assert names == [names[0]] + names[1..];
      Declared(DeclareOne(table, names[0]), names[1..]);
    }
  }

  // The instruction does the same with the global of the same name.
  predicate SameGlobal(g: Globals, here: seq<Bytes>, there: seq<Bytes>, ins: Long) {
    var r := FixCode(g, ins);
    && Decoder.Op(r) == Decoder.Op(ins) && Decoder.RA(r) == Decoder.RA(ins)
    && GlobalName(here, g.table, Decoder.Bx(r)) == GlobalName(there, g.names, Decoder.Bx(ins))
  }

  lemma FixedAccess(g: Globals, here: seq<Bytes>, ins: Long)
    requires g.builtins == |here| && |here| + |g.table| <= 0x4_0000 && forall name :: name in g.names ==> name in g.table
    requires GlobalAccess(ins)
    ensures var r, idx := FixCode(g, ins), Decoder.Bx(ins);
            && Decoder.Op(r) == Decoder.Op(ins) && Decoder.RA(r) == Decoder.RA(ins)
            && GlobalName(here, g.table, Decoder.Bx(r))
               == if |here| <= idx < |here| + |g.names| then Some(g.names[idx - |here|]) else GlobalName(here, g.table, idx)
  {
    hide Decoder.Op, Decoder.RA, Decoder.Bx, Decoder.WithSBx;
    var idx := Decoder.Bx(ins);
    if |here| <= idx < |here| + |g.names| {
      var name := g.names[idx - |here|];
      IndexInFinds(g.table, name);
      Decoder.WithSBxFields(ins, FindGlobal(g, name) - Decoder.IsBx_MAX);
    }
  }

  lemma LinkedRight(m: Machine, here: seq<Bytes>, there: seq<Bytes>, names: seq<Bytes>, ins: Long)
    requires m.builtins == |here| && |here| + |Declare(m.table, names)| <= 0x4_0000
    requires there == here || there + names <= here
    requires GlobalAccess(ins) && Decoder.Bx(ins) < |there| + |names|
    ensures SameGlobal(Linked(m, names), here, there, ins)
  {
    hide GlobalAccess, Decoder.Op, Decoder.RA, Decoder.Bx, FixCode, Declare;
    Declared(m.table, names);
    FixedAccess(Linked(m, names), here, ins);
    var idx := Decoder.Bx(ins);
    if there != here && idx >= |there| {
      assert (there + names)[idx] == here[idx];
    }
  }

  // The index of an access that goes astray.
  lemma LinkedWrong(m: Machine, here: seq<Bytes>, there: seq<Bytes>, names: seq<Bytes>)
    requires m.builtins == |here| && |there| <= |here| && NoRepeat(names)
    requires |here| + |Declare(m.table, names)| <= 0x4_0000
    requires there != here && !(there + names <= here)
    ensures exists ins: Long :: GlobalAccess(ins) && Decoder.Bx(ins) < |there| + |names| && !SameGlobal(Linked(m, names), here, there, ins)
  {
    hide Decoder.Op, Decoder.RA, Decoder.Bx, Decoder.MakeABx, FixCode, Declare;
    var saved := there + names;
    Declared(m.table, names);
    var k: nat := |here|;
    if j: nat :| j < |saved| && j < |here| && saved[j] != here[j] {
      k := j;
    } else {
      assert |saved| > |here| > |there|;
      assert names[0] in Declare(m.table, names);
    }
    var ins := Decoder.MakeABx(OP_GETGBL, 0, k);
    FixedAccess(Linked(m, names), here, ins);
    assert GlobalAccess(ins) && Decoder.Bx(ins) < |saved|;
    assert GlobalName(there, names, k) == Some(saved[k]);
    assert !SameGlobal(Linked(m, names), here, there, ins);
  }

  // With the same builtins the loaded code does the same word by word: other instructions are kept, and each
  // access refers to the global of the same name.
  lemma {:induction false} CodeLinked(m: Machine, here: seq<Bytes>, names: seq<Bytes>, code: seq<Long>, i: nat)
    requires m.builtins == |here| && |here| + |Declare(m.table, names)| <= 0x4_0000
    requires i < |code| && (GlobalAccess(code[i]) ==> Decoder.Bx(code[i]) < |here| + |names|)
    ensures var g := Linked(m, names);
            && |FixedCode(g, code)| == |code| && FixedCode(g, code)[i] == FixCode(g, code[i])
            && if GlobalAccess(code[i]) then SameGlobal(g, here, here, code[i]) else FixedCode(g, code)[i] == code[i]
    decreases code
  {
    hide GlobalAccess, Decoder.Bx, Declare;
    FixedLength(Linked(m, names), code);
    if i > 0 {
      CodeLinked(m, here, names, code[1..], i - 1);
    } else if GlobalAccess(code[0]) {
      LinkedRight(m, here, here, names, code[0]);
    }
  }

  lemma {:induction false} FixedLength(g: Globals, code: seq<Long>)
    ensures |FixedCode(g, code)| == |code|
  {
    if code != [] {
      FixedLength(g, code[1..]);
    }
  }

  // Every access to a saved global refers to the global of the same name after loading, if and only if both
  // machines have the same builtins, or the saved builtins and globals all begin the loader's builtins.
  // With the same number of builtins but other names, or with more of them, accesses go astray.
  lemma LinkedIffSameBuiltins(m: Machine, here: seq<Bytes>, there: seq<Bytes>, names: seq<Bytes>)
    requires m.builtins == |here| && |there| <= |here| && NoRepeat(names)
    requires |here| + |Declare(m.table, names)| <= 0x4_0000
    ensures (forall ins: Long :: GlobalAccess(ins) && Decoder.Bx(ins) < |there| + |names| ==> SameGlobal(Linked(m, names), here, there, ins))
            <==> there == here || there + names <= here
  {
    hide SameGlobal, GlobalAccess, Decoder.Bx, FixCode, Declare;
    if there == here || there + names <= here {
      forall ins: Long | GlobalAccess(ins) && Decoder.Bx(ins) < |there| + |names| ensures SameGlobal(Linked(m, names), here, there, ins) {
        LinkedRight(m, here, there, names, ins);
      }
    } else {
      LinkedWrong(m, here, there, names);
    }
  }

  // be_bytecode_save
  method WriteFile(f: File, named: bool, builtins: nat, globals: seq<Bytes>, p: Proto) returns (ok: bool)
    requires f.data == []
    modifies f`data
    ensures ok <==> Savable(named, p)
    ensures ok ==> f.data == SaveFile(named, builtins, globals, p)
  {
    hide SaveLong, SaveProto, Savable, SaveString;
    f.Write(HEADER);
    WriteLong(f, builtins % 0x1_0000_0000);
    var names := if named then [] else globals;
    WriteLong(f, |names| % 0x1_0000_0000);
    ghost var start := f.data;
    for i := 0 to |names|
      invariant f.data + SaveStrings(names[i..]) == start + SaveStrings(names)
    {
      assert names[i..][0] == names[i] && names[i..][1..] == names[i + 1..];
      Assoc(f.data, SaveString(names[i]), SaveStrings(names[i + 1..]));
      WriteString(f, Some(names[i]));
    }
    assert names[|names|..] == [] && f.data + [] == f.data;
    ok := WriteProto(f, named, p);
    FileWritten(builtins, names, p);
  }

  lemma FileWritten(builtins: nat, names: seq<Bytes>, p: Proto)
    ensures HEADER + SaveLong(builtins % 0x1_0000_0000) + SaveLong(|names| % 0x1_0000_0000) + SaveStrings(names) + SaveProto(p)
            == HEADER + (SaveLong(builtins % 0x1_0000_0000) + (SaveLong(|names| % 0x1_0000_0000) + (SaveStrings(names) + SaveProto(p))))
  {
    hide SaveLong, SaveProto, SaveStrings;
    var a, b, c, d := SaveLong(builtins % 0x1_0000_0000), SaveLong(|names| % 0x1_0000_0000), SaveStrings(names), SaveProto(p);
    Assoc(HEADER, a, b + (c + d));
    Assoc(HEADER + a, b, c + d);
    Assoc(HEADER + a + b, c, d);
  }

  lemma {:induction false} DeclareSnoc(table: seq<Bytes>, names: seq<Bytes>, name: Bytes)
    ensures Declare(table, names + [name]) == DeclareOne(Declare(table, names), name)
    decreases names
  {
    if names != [] {
      assert (names + [name])[1..] == names[1..] + [name];
      DeclareSnoc(DeclareOne(table, names[0]), names[1..], name);
    }
  }

  // be_bytecode_load
  method ReadFile(f: File, m: Machine) returns (r: Loaded)
    requires f.pos == 0
    modifies f`pos
    ensures r == LoadFile(m, f.data)
  {
    hide LoadLong, LoadString, LoadProto, DeclareOne;
    assert f.data[0..] == f.data;
    var head := f.Read(8);
    if |head| < 5 || head[0] != 0xBE || head[1] != 0xCD || head[2] != 0xFE || head[3] != 4 || head[4] != 3 {
      return BadHeader;
    }
    assert f.Rest() == if |f.data| < 8 then [] else f.data[8..];
    var bcnt := ReadLong(f);
    var gcnt := ReadLong(f);
    if bcnt > m.builtins {
      return TooManyBuiltins;
    }
    var names: seq<Bytes>, table := [], m.table;
    ghost var b2 := f.Rest();
    assert [] + LoadStrings(m.intern, gcnt, b2).0 == LoadStrings(m.intern, gcnt, b2).0;
    for i := 0 to gcnt
      invariant f.Valid() && names + LoadStrings(m.intern, gcnt - i, f.Rest()).0 == LoadStrings(m.intern, gcnt, b2).0
      invariant LoadStrings(m.intern, gcnt - i, f.Rest()).1 == LoadStrings(m.intern, gcnt, b2).1
      invariant table == Declare(m.table, names)
    {
      ghost var was := names;
      var name := ReadString(f, m.intern);
      names := names + [name];
      table := DeclareOne(table, name);
      DeclareSnoc(m.table, was, name);
      Snoc(was, name, LoadStrings(m.intern, gcnt - i - 1, f.Rest()).0);
    }
    assert names + [] == names;
    var p := ReadProto(f, Globals(m.builtins, names, table, m.intern));
    return Loaded(table, p, f.Rest());
  }
}
