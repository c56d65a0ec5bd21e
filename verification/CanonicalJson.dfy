/** Canonical JSON, the input of every signature (akt_canonical.c): members sorted by name at every
    depth, no white space, one spelling for each string and each number. */
module CanonicalJson {
  import opened Wrappers
  import opened Json

  // ----- strings -----

  // A lower-case hexadecimal digit.
  function Hex(n: int): char
    requires 0 <= n < 16
  {
    if n < 10 then ('0' as int + n) as char else ('a' as int + n - 10) as char
  }

  // How one byte of a string is written.
  function Escape(c: Char): string {
    if c == '"' then "\\\""
    else if c == '\\' then "\\\\"
    else if c as int == 8 then "\\b"
    else if c as int == 12 then "\\f"
    else if c as int == 10 then "\\n"
    else if c as int == 13 then "\\r"
    else if c as int == 9 then "\\t"
    else if c as int < 0x20 then "\\u00" + [Hex(c as int / 16), Hex(c as int % 16)]
    else [c]
  }

  function Escaped(s: Text): string {
    if s == [] then [] else Escape(s[0]) + Escaped(s[1..])
  }

  function Quoted(s: Text): string {
    "\"" + Escaped(s) + "\""
  }

  // No byte's spelling is the start of another's, and none starts with a quote.
  lemma EscapePrefix(a: Char, b: Char, x: string, y: string)
    requires Escape(a) + x == Escape(b) + y
    ensures a == b && x == y
  {
    var s, t := Escape(a) + x, Escape(b) + y;
    assert s[0] == Escape(a)[0] && t[0] == Escape(b)[0];
    if s[0] == '\\' {
      assert s[1] == Escape(a)[1] && t[1] == Escape(b)[1];
      if s[1] == 'u' {
        assert s[4] == Hex(a as int / 16) && t[4] == Hex(b as int / 16);
        assert s[5] == Hex(a as int % 16) && t[5] == Hex(b as int % 16);
        assert a as int == 16 * (a as int / 16) + a as int % 16;
        assert b as int == 16 * (b as int / 16) + b as int % 16;
      }
    }
    assert a == b;
    assert x == s[|Escape(a)|..] && y == t[|Escape(b)|..];
  }

  // The rest of a quoted string: the closing quote and what follows.
  function Closed(s: Text, x: string): string {
    Escaped(s) + ("\"" + x)
  }

  lemma ClosedUnfolds(s: Text, x: string)
    ensures s == [] ==> Closed(s, x) == "\"" + x
    ensures s != [] ==> Closed(s, x) == Escape(s[0]) + Closed(s[1..], x) && Closed(s, x)[0] == Escape(s[0])[0] != '"'
  {}

  // A byte below 32, a quote or a backslash is escaped; any other byte stands for itself.
  lemma EscapeIs(c: Char)
    ensures Escape(c) == match c
                         case '"' => "\\\""
                         case '\\' => "\\\\"
                         case '\n' => "\\n"
                         case '\r' => "\\r"
                         case '\t' => "\\t"
                         case _ =>
                           if c as int == 8 then "\\b" else if c as int == 12 then "\\f"
                           else if c < ' ' then "\\u00" + ["0123456789abcdef"[c as int / 16], "0123456789abcdef"[c as int % 16]]
                           else [c]
  {}

  lemma {:induction false} EscapedAppend(s: Text, t: Text)
    ensures Escaped(s + t) == Escaped(s) + Escaped(t)
    decreases |s|
  {
    hide Escape;
    if s == [] {
      assert s + t == t;
    } else {
      EscapedAppend(s[1..], t);
      assert (s + t)[1..] == s[1..] + t;
    }
  }

  lemma {:induction false} EscapedPrefix(s: Text, t: Text, x: string, y: string)
    requires Closed(s, x) == Closed(t, y)
    ensures s == t && x == y
    decreases |s|
  {
    ClosedUnfolds(s, x);
    ClosedUnfolds(t, y);
    if s == [] || t == [] {
      assert x == Closed(s, x)[1..] && y == Closed(t, y)[1..];
    } else {
      EscapePrefix(s[0], t[0], Closed(s[1..], x), Closed(t[1..], y));
      EscapedPrefix(s[1..], t[1..], x, y);
      assert s == [s[0]] + s[1..] && t == [t[0]] + t[1..];
    }
  }

  lemma QuotedPrefix(s: Text, t: Text, x: string, y: string)
    requires Quoted(s) + x == Quoted(t) + y
    ensures s == t && x == y
  {
    assert (Quoted(s) + x)[1..] == Closed(s, x) && (Quoted(t) + y)[1..] == Closed(t, y);
    EscapedPrefix(s, t, x, y);
  }

  // ----- numbers -----

  function Digits(n: nat): string {
    (if n < 10 then [] else Digits(n / 10)) + [Hex(n % 10)]
  }

  // "%lld"
  function Decimal(n: int): string {
    if n < 0 then "-" + Digits(-n) else Digits(n)
  }

  predicate IsDigit(c: char) {
    '0' <= c <= '9'
  }

  predicate AllDigits(s: string) {
    forall i :: 0 <= i < |s| ==> IsDigit(s[i])
  }

  // What may follow a number without becoming part of it.
  predicate NotDigit(x: string) {
    x == [] || !IsDigit(x[0])
  }

  function ValueOf(s: string): nat
    requires AllDigits(s)
  {
    if s == [] then 0 else 10 * ValueOf(s[..|s| - 1]) + (s[|s| - 1] as int - '0' as int)
  }

  lemma ValueSnoc(d: string, c: char)
    requires AllDigits(d) && IsDigit(c)
    ensures AllDigits(d + [c]) && ValueOf(d + [c]) == 10 * ValueOf(d) + (c as int - '0' as int)
  {
    assert (d + [c])[..|d|] == d && (d + [c])[|d|] == c;
  }

  lemma {:induction false} DigitsValue(n: nat)
    ensures AllDigits(Digits(n)) && Digits(n) != [] && ValueOf(Digits(n)) == n
  {
    hide AllDigits;
    if n >= 10 {
      DigitsValue(n / 10);
      ValueSnoc(Digits(n / 10), Hex(n % 10));
    } else {
      NoDigits();
      ValueSnoc([], Hex(n));
      assert [] + [Hex(n)] == Digits(n);
    }
  }

  lemma NoDigits()
    ensures AllDigits([]) && ValueOf([]) == 0
  {}

  // No number is written with a leading zero.
  lemma {:induction false} NoLeadingZero(n: nat)
    ensures Digits(n) != [] && (Digits(n)[0] == '0' <==> n == 0) && (n < 10 ==> |Digits(n)| == 1)
  {
    if n >= 10 {
      NoLeadingZero(n / 10);
    }
  }

  // A negative number is its digits with a minus sign in front.
  lemma DecimalIs(n: int)
    ensures AllDigits(Digits(if n < 0 then -n else n)) && ValueOf(Digits(if n < 0 then -n else n)) == if n < 0 then -n else n
    ensures Decimal(n) == if n < 0 then "-" + Digits(-n) else Digits(n)
  {
    DigitsValue(if n < 0 then -n else n);
  }

  // How many digits a text starts with.
  function Run(s: string): nat {
    if s == [] || !IsDigit(s[0]) then 0 else 1 + Run(s[1..])
  }

  lemma {:induction false} RunOf(d: string, x: string)
    requires AllDigits(d) && NotDigit(x)
    ensures Run(d + x) == |d|
    decreases |d|
  {
    if d == [] {
      assert d + x == x;
    } else {
      RunOf(d[1..], x);
      assert (d + x)[1..] == d[1..] + x;
    }
  }

  lemma SplitAt(a: string, b: string, x: string, y: string)
    requires a + x == b + y && |a| == |b|
    ensures a == b && x == y
  {
    assert a == (a + x)[..|a|] && b == (b + y)[..|a|] && x == (a + x)[|a|..] && y == (b + y)[|a|..];
  }

  lemma DigitsPrefix(m: nat, n: nat, x: string, y: string)
    requires Digits(m) + x == Digits(n) + y && NotDigit(x) && NotDigit(y)
    ensures m == n && x == y
  {
    DigitsValue(m);
    DigitsValue(n);
    RunOf(Digits(m), x);
    RunOf(Digits(n), y);
    SplitAt(Digits(m), Digits(n), x, y);
  }

  lemma DecimalHead(n: int, x: string)
    ensures Decimal(n) + x != [] && var c := (Decimal(n) + x)[0]; if n < 0 then c == '-' else IsDigit(c)
    ensures n < 0 ==> (Decimal(n) + x)[1..] == Digits(-n) + x
  {
    DigitsValue(if n < 0 then -n else n);
    if n < 0 {
      assert Decimal(n) + x == "-" + (Digits(-n) + x);
    } else {
      assert (Digits(n) + x)[0] == Digits(n)[0];
    }
  }

  lemma DecimalPrefix(m: int, n: int, x: string, y: string)
    requires Decimal(m) + x == Decimal(n) + y && NotDigit(x) && NotDigit(y)
    ensures m == n && x == y
  {
    DecimalHead(m, x);
    DecimalHead(n, y);
    if m < 0 {
      DigitsPrefix(-m, -n, x, y);
    } else {
      DigitsPrefix(m, n, x, y);
    }
  }

  // The numbers written as integers.
  predicate Integral(d: real) {
    d == d.Floor as real && -9200000000000000000.0 < d < 9200000000000000000.0
  }

  // general stands for the "%.17g" of the C library, which is used for every other number.
  function NumText(d: real, general: real -> string): string {
    if Integral(d) then Decimal(d.Floor) else general(d)
  }

  // ----- sorting members by name -----

  // strcmp(a, b) < 0
  predicate Less(a: Text, b: Text) {
    b != [] && (a == [] || a[0] < b[0] || (a[0] == b[0] && Less(a[1..], b[1..])))
  }

  // The earlier name is a proper prefix of the other, or has the smaller byte where they first differ.
  lemma {:induction false} LessIff(a: Text, b: Text)
    ensures Less(a, b) <==> (|a| < |b| && a == b[..|a|])
                            || exists k :: 0 <= k < |a| && k < |b| && a[k] < b[k] && a[..k] == b[..k]
    decreases |a|
  {
    if a != [] && b != [] {
      LessIff(a[1..], b[1..]);
      forall k: nat | k < |a| && k < |b|
        ensures a[..k] == b[..k] <==> k == 0 || (a[0] == b[0] && a[1..][..k - 1] == b[1..][..k - 1])
      {
        if k > 0 {
          PrefixStep(a, b, k);
        }
      }
      LessTail(a, b);
    }
  }

  lemma PrefixStep(a: Text, b: Text, k: nat)
    requires 0 < k <= |a| && k <= |b|
    ensures a[..k] == b[..k] <==> a[0] == b[0] && a[1..][..k - 1] == b[1..][..k - 1]
  {
    assert a[..k] == [a[0]] + a[1..][..k - 1] && b[..k] == [b[0]] + b[1..][..k - 1];
    if a[..k] == b[..k] {
      assert a[0] == a[..k][0] && b[0] == b[..k][0];
      assert a[1..][..k - 1] == a[..k][1..] && b[1..][..k - 1] == b[..k][1..];
    }
  }

  lemma LessTail(a: Text, b: Text)
    requires a != [] && b != []
    requires forall k :: 0 <= k < |a| && k < |b| ==>
               (a[..k] == b[..k] <==> k == 0 || (a[0] == b[0] && a[1..][..k - 1] == b[1..][..k - 1]))
    ensures (exists k :: 0 <= k < |a| && k < |b| && a[k] < b[k] && a[..k] == b[..k]) <==>
              a[0] < b[0] || (a[0] == b[0]
                              && exists k :: 0 <= k < |a[1..]| && k < |b[1..]| && a[1..][k] < b[1..][k] && a[1..][..k] == b[1..][..k])
    ensures (|a| < |b| && a == b[..|a|]) <==> a[0] == b[0] && |a[1..]| < |b[1..]| && a[1..] == b[1..][..|a[1..]|]
  {
    var x, y := a[1..], b[1..];
    if k :| 0 <= k < |x| && k < |y| && x[k] < y[k] && x[..k] == y[..k] && a[0] == b[0] {
      assert a[k + 1] < b[k + 1] && a[..k + 1] == b[..k + 1];
    }
    if k :| 0 <= k < |a| && k < |b| && a[k] < b[k] && a[..k] == b[..k] {
      if k > 0 {
        assert x[k - 1] < y[k - 1] && x[..k - 1] == y[..k - 1];
      }
    }
    if a[0] < b[0] {
      assert a[..0] == b[..0];
    }
    if a[0] == b[0] && |x| < |y| && x == y[..|x|] {
      assert b[..|a|] == [b[0]] + y[..|x|] && a == [a[0]] + x;
    }
    if |a| < |b| && a == b[..|a|] {
      assert x == b[..|a|][1..] == y[..|x|];
    }
  }

  lemma {:induction false} LessOrder(a: Text, b: Text)
    ensures !(Less(a, b) && Less(b, a))
    ensures a == b || Less(a, b) || Less(b, a)
    ensures a == b ==> !Less(a, b)
    decreases |a|
  {
    if a != [] && b != [] {
      LessOrder(a[1..], b[1..]);
      if a[1..] == b[1..] && a[0] == b[0] {
        assert a == [a[0]] + a[1..] && b == [b[0]] + b[1..];
      }
    }
  }

  lemma {:induction false} LessTransitive(a: Text, b: Text, c: Text)
    requires Less(a, b) && Less(b, c)
    ensures Less(a, c)
    decreases |a|
  {
    if a != [] && a[0] == b[0] == c[0] {
      LessTransitive(a[1..], b[1..], c[1..]);
    }
  }

  function Insert(name: Text, value: Json, m: Members): Members {
    if m.NoMember? || !Less(m.name, name) then Member(name, value, m)
    else Member(m.name, m.value, Insert(name, value, m.next))
  }

  // The members in the order of their names.
  function Sort(m: Members): Members {
    if m.NoMember? then NoMember else Insert(m.name, m.value, Sort(m.next))
  }

  ghost function Names(m: Members): set<Text> {
    if m.NoMember? then {} else {m.name} + Names(m.next)
  }

  predicate Distinct(m: Members) {
    m.NoMember? || (Find(m.next, m.name) == None && Distinct(m.next))
  }

  predicate StrictlySorted(m: Members) {
    m.NoMember? || m.next.NoMember? || (Less(m.name, m.next.name) && StrictlySorted(m.next))
  }

  lemma {:induction false} InsertFinds(name: Text, value: Json, m: Members, key: Text)
    requires Find(m, name) == None
    ensures Find(Insert(name, value, m), key) == if key == name then Some(value) else Find(m, key)
    decreases m
  {
    if m.Member? && Less(m.name, name) {
      InsertFinds(name, value, m.next, key);
    }
  }

  lemma {:induction false} SortFinds(m: Members, key: Text)
    requires Distinct(m)
    ensures Find(Sort(m), key) == Find(m, key)
    decreases m
  {
    if m.Member? {
      SortFinds(m.next, key);
      SortFinds(m.next, m.name);
      InsertFinds(m.name, m.value, Sort(m.next), key);
    }
  }

  lemma {:induction false} InsertSorted(name: Text, value: Json, m: Members)
    requires StrictlySorted(m) && Find(m, name) == None
    ensures StrictlySorted(Insert(name, value, m))
    decreases m
  {
    if m.Member? {
      LessOrder(m.name, name);
      if Less(m.name, name) {
        InsertSorted(name, value, m.next);
      }
    }
  }

  lemma {:induction false} SortSorts(m: Members)
    requires Distinct(m)
    ensures StrictlySorted(Sort(m))
    decreases m
  {
    if m.Member? {
      SortSorts(m.next);
      SortFinds(m.next, m.name);
      InsertSorted(m.name, m.value, Sort(m.next));
    }
  }

  lemma {:induction false} SortedPairs(m: Members)
    requires StrictlySorted(m)
    ensures forall i, j :: 0 <= i < j < |Children(m)| ==> Less(Children(m)[i].0, Children(m)[j].0)
    decreases m
  {
    if m.Member? {
      var c, d := Children(m), Children(m.next);
      SortedPairs(m.next);
      forall i, j | 0 <= i < j < |c| ensures Less(c[i].0, c[j].0) {
        assert c[j] == d[j - 1];
        if i == 0 {
          assert d[0] == (m.next.name, m.next.value);
          if j > 1 {
            LessTransitive(m.name, m.next.name, c[j].0);
          }
        } else {
          assert c[i] == d[i - 1];
        }
      }
    }
  }

  // The members of a sorted object, by any two of them: the earlier name is a proper prefix of the later
  // one, or has the smaller byte where they first differ.
  lemma SortAscends(m: Members, i: nat, j: nat)
    requires Distinct(m) && i < j < |Children(Sort(m))|
    ensures var a, b := Children(Sort(m))[i].0, Children(Sort(m))[j].0;
            (|a| < |b| && a == b[..|a|]) || exists k :: 0 <= k < |a| && k < |b| && a[k] < b[k] && a[..k] == b[..k]
  {
    SortSorts(m);
    SortedPairs(Sort(m));
    LessIff(Children(Sort(m))[i].0, Children(Sort(m))[j].0);
    hide Less, Sort;
  }

  lemma {:induction false} InsertChildren(name: Text, value: Json, m: Members)
    ensures multiset(Children(Insert(name, value, m))) == multiset{(name, value)} + multiset(Children(m))
    decreases m
  {
    if m.Member? && Less(m.name, name) {
      InsertChildren(name, value, m.next);
    }
  }

  // Sorting keeps every member, as often as it occurs.
  lemma {:induction false} SortChildren(m: Members)
    ensures multiset(Children(Sort(m))) == multiset(Children(m))
    decreases m
  {
    if m.Member? {
      SortChildren(m.next);
      InsertChildren(m.name, m.value, Sort(m.next));
    }
  }

  // In a sorted list nothing in front of the head's name is found.
  lemma {:induction false} BelowHead(m: Members, key: Text)
    requires StrictlySorted(m) && m.Member? && Less(key, m.name)
    ensures Find(m, key) == None
    decreases m
  {
    LessOrder(key, m.name);
    if m.next.Member? {
      LessTransitive(key, m.name, m.next.name);
      BelowHead(m.next, key);
    }
  }

  lemma TailFinds(m: Members, key: Text)
    requires StrictlySorted(m) && m.Member?
    ensures Find(m.next, key) == if key == m.name then None else Find(m, key)
  {
    if key == m.name && m.next.Member? {
      BelowHead(m.next, key);
    }
  }

  // A sorted member list is determined by what is found in it.
  lemma {:induction false} SortedUnique(m: Members, n: Members)
    requires StrictlySorted(m) && StrictlySorted(n) && forall key :: Find(m, key) == Find(n, key)
    ensures m == n
    decreases m
  {
    if m.Member? || n.Member? {
      var key := if m.Member? then m.name else n.name;
      assert Find(m, key) == Find(n, key);
      if m.Member? && n.Member? {
        SameHead(m, n);
        forall key ensures Find(m.next, key) == Find(n.next, key) {
          TailFinds(m, key);
          TailFinds(n, key);
        }
        SortedUnique(m.next, n.next);
      }
    }
  }

  lemma SameHead(m: Members, n: Members)
    requires StrictlySorted(m) && StrictlySorted(n) && m.Member? && n.Member?
    requires forall key :: Find(m, key) == Find(n, key)
    ensures m.name == n.name && m.value == n.value
  {
    assert Find(n, m.name) == Some(m.value) && Find(m, n.name) == Some(n.value) by {
      assert Find(m, m.name) == Find(n, m.name) && Find(m, n.name) == Find(n, n.name);
    }
    LessOrder(m.name, n.name);
    if Less(m.name, n.name) {
      BelowHead(n, m.name);
    } else if Less(n.name, m.name) {
      BelowHead(m, n.name);
    }
  }

  // ----- the text of a value -----

  // Members sorted by name at every depth.
  function Norm(j: Json): Json {
    match j
    case Arr(items) => Arr(NormItems(items))
    case Obj(members) => Obj(Sort(NormMembers(members)))
    case _ => j
  }

  function NormItems(c: Items): Items {
    if c.NoItem? then c else Item(Norm(c.value), NormItems(c.next))
  }

  function NormMembers(m: Members): Members {
    if m.NoMember? then m else Member(m.name, Norm(m.value), NormMembers(m.next))
  }

  // A value without white space, members in the order they are in.
  function Print(j: Json, general: real -> string): string {
    match j
    case Null => "null"
    case False => "false"
    case True => "true"
    case Num(value) => NumText(value, general)
    case Str(str) => Quoted(str)
    case Arr(items) => "[" + (PrintItems(items, true, general) + "]")
    case Obj(members) => "{" + (PrintMembers(members, true, general) + "}")
  }

  function PrintItems(c: Items, first: bool, general: real -> string): string {
    if c.NoItem? then []
    else (if first then [] else ",") + (Print(c.value, general) + PrintItems(c.next, false, general))
  }

  function PrintMembers(m: Members, first: bool, general: real -> string): string {
    if m.NoMember? then []
    else (if first then [] else ",")
         + (Quoted(m.name) + (":" + (Print(m.value, general) + PrintMembers(m.next, false, general))))
  }

  // What akt_canonical_json returns.
  function Canonical(j: Json, general: real -> string): string {
    Print(Norm(j), general)
  }

  // ----- the text, piece by piece -----

  // The parts with commas between them.
  ghost function Listed(parts: seq<string>): string {
    if parts == [] then ""
    else if |parts| == 1 then parts[0]
    else Listed(parts[..|parts| - 1]) + "," + parts[|parts| - 1]
  }

  // The same with a comma in front of every part.
  ghost function Commas(parts: seq<string>): string {
    if parts == [] then "" else "," + parts[0] + Commas(parts[1..])
  }

  lemma {:induction false} CommasSnoc(parts: seq<string>, last: string)
    ensures Commas(parts + [last]) == Commas(parts) + "," + last
    decreases |parts|
  {
    if parts == [] {
      assert Commas([last]) == "," + last + Commas([]);
    } else {
      CommasSnoc(parts[1..], last);
      assert (parts + [last])[1..] == parts[1..] + [last];
    }
  }

  lemma {:induction false} ListedIs(parts: seq<string>)
    requires parts != []
    ensures Listed(parts) == parts[0] + Commas(parts[1..])
    decreases |parts|
  {
    if |parts| > 1 {
      var n := |parts| - 1;
      ListedIs(parts[..n]);
      CommasSnoc(parts[..n][1..], parts[n]);
      assert parts[1..] == parts[..n][1..] + [parts[n]];
    }
  }

  ghost function ItemTexts(c: Items, general: real -> string): seq<string> {
    seq(|List(c)|, i requires 0 <= i < |List(c)| => Canonical(List(c)[i], general))
  }

  ghost function MemberTexts(m: Members, general: real -> string): seq<string> {
    seq(|Children(m)|, i requires 0 <= i < |Children(m)| =>
          "\"" + Escaped(Children(m)[i].0) + "\":" + Canonical(Children(m)[i].1, general))
  }

  lemma {:induction false} ItemsListed(c: Items, general: real -> string)
    ensures PrintItems(NormItems(c), false, general) == Commas(ItemTexts(c, general))
    decreases c
  {
    hide Print, Norm;
    if c.Item? {
      ItemsListed(c.next, general);
      var t := ItemTexts(c, general);
      assert t[0] == Canonical(c.value, general) && t[1..] == ItemTexts(c.next, general);
    }
  }

  lemma {:induction false} MembersListed(m: Members, general: real -> string)
    ensures PrintMembers(NormMembers(m), false, general) == Commas(MemberTexts(m, general))
    decreases m
  {
    hide Print, Norm, Escaped;
    if m.Member? {
      MembersListed(m.next, general);
      var t := MemberTexts(m, general);
      assert t[0] == "\"" + Escaped(m.name) + "\":" + Canonical(m.value, general) && t[1..] == MemberTexts(m.next, general);
    }
  }

  // The text of an array: the texts of its items, in order.
  lemma ArrayText(c: Items, general: real -> string)
    ensures Canonical(Arr(c), general) == "[" + Listed(ItemTexts(c, general)) + "]"
  {
    hide Print, Norm;
    ArrIs(c, general);
    if c.Item? {
      var t := ItemTexts(c, general);
      ItemsListed(c.next, general);
      assert t[0] == Canonical(c.value, general) && t[1..] == ItemTexts(c.next, general);
      ListedIs(t);
    }
  }

  lemma ArrIs(c: Items, general: real -> string)
    ensures Canonical(Arr(c), general) == "[" + PrintItems(NormItems(c), true, general) + "]"
  {}

  // The text of an object: its members, sorted, each with its name in quotes and a colon.
  lemma ObjectText(m: Members, general: real -> string)
    ensures Canonical(Obj(m), general) == "{" + Listed(MemberTexts(Sort(m), general)) + "}"
  {
    hide Print, Norm, Sort, Escaped;
    var s := Sort(m);
    SortNorm(m);
    ObjIs(m, general);
    if s.Member? {
      var t := MemberTexts(s, general);
      MembersListed(s.next, general);
      assert t[0] == "\"" + Escaped(s.name) + "\":" + Canonical(s.value, general) && t[1..] == MemberTexts(s.next, general);
      ListedIs(t);
    }
  }

  lemma ObjIs(m: Members, general: real -> string)
    ensures Canonical(Obj(m), general) == "{" + PrintMembers(Sort(NormMembers(m)), true, general) + "}"
  {}

  // The text of everything else.
  lemma LeafText(j: Json, general: real -> string)
    ensures j.Null? ==> Canonical(j, general) == "null"
    ensures j.False? ==> Canonical(j, general) == "false"
    ensures j.True? ==> Canonical(j, general) == "true"
    ensures j.Str? ==> Canonical(j, general) == "\"" + Escaped(j.str) + "\""
    ensures var whole := j.Num? && j.value == j.value.Floor as real && -9200000000000000000.0 < j.value < 9200000000000000000.0;
            && (whole ==> Canonical(j, general) == Decimal(j.value.Floor))
            && (j.Num? && !whole ==> Canonical(j, general) == general(j.value))
  {}

  // A sample: the members change places, and the newline is escaped.
  lemma SampleText(a: Json, b: Json, general: real -> string)
    requires a == Arr(Item(True, Item(Str("x\n"), NoItem))) && b == Num(-20.0)
    ensures Canonical(Obj(Member("b", b, Member("a", a, NoMember))), general) == "{\"a\":[true,\"x\\n\"],\"b\":-20}"
  {
    hide Print, Norm, Sort, Escaped, ItemTexts, Listed, NumText;
    var m := Member("b", b, Member("a", a, NoMember));
    ObjectText(m, general);
    SampleMembers(a, b, general);
    ArrayText(a.items, general);
    SampleItems(a, general);
    SampleNumber(b, general);
  }

  lemma SampleMembers(a: Json, b: Json, g: real -> string)
    ensures Listed(MemberTexts(Sort(Member("b", b, Member("a", a, NoMember))), g))
            == "\"a\":" + Canonical(a, g) + ",\"b\":" + Canonical(b, g)
  {
    hide Print, Norm, Less, Sort, Insert, Escaped, Listed;
    SampleSorted("a", a, "b", b);
    var m := Member("a", a, Member("b", b, NoMember));
    SampleName("a");
    SampleName("b");
    assert Children(m) == [("a", a)] + ([("b", b)] + Children(NoMember));
    SamplePair(MemberTexts(m, g));
  }

  lemma SampleName(name: Text)
    requires |name| == 1 && name[0] in "ab"
    ensures Escaped(name) == name
  {
    assert Escaped(name) == Escape(name[0]) + Escaped(name[1..]);
  }

  lemma SamplePair(parts: seq<string>)
    requires |parts| == 2
    ensures Listed(parts) == parts[0] + "," + parts[1]
  {
    assert parts[..1] == [parts[0]] && Listed(parts[..1]) == parts[0];
  }

  lemma SampleSorted(x: Text, a: Json, y: Text, b: Json)
    requires x == "a" && y == "b"
    ensures Sort(Member(y, b, Member(x, a, NoMember))) == Member(x, a, Member(y, b, NoMember))
  {
    assert Less(x, y);
    assert Sort(NoMember) == NoMember && Sort(Member(x, a, NoMember)) == Member(x, a, NoMember);
    assert Insert(y, b, NoMember) == Member(y, b, NoMember);
  }

  lemma SampleItems(a: Json, g: real -> string)
    requires a == Arr(Item(True, Item(Str("x\n"), NoItem)))
    ensures Listed(ItemTexts(a.items, g)) == "true,\"x\\n\""
  {
    var s: Text := "x\n";
    assert List(a.items) == [True] + ([Str(s)] + List(NoItem));
    assert s[1..] == "\n" && Escaped(s[1..]) == "\\n" + Escaped([]) && Escaped(s) == "x" + Escaped(s[1..]);
    var t := ItemTexts(a.items, g);
    assert t[0] == "true" && t[1] == "\"" + Escaped(s) + "\"" == "\"x\\n\"";
    SamplePair(t);
  }

  lemma SampleNumber(b: Json, g: real -> string)
    requires b == Num(-20.0)
    ensures Canonical(b, g) == "-20"
  {
    assert Integral(-20.0) && (-20.0).Floor == -20;
    assert Digits(2) == "2" && Digits(20) == "20";
  }

  // ----- the text determines the sorted value -----

  // Every number is an integer the format writes exactly.
  predicate Exact(j: Json) {
    match j
    case Num(value) => Integral(value)
    case Arr(items) => ExactItems(items)
    case Obj(members) => ExactMembers(members)
    case _ => true
  }

  predicate ExactItems(c: Items) {
    c.NoItem? || (Exact(c.value) && ExactItems(c.next))
  }

  predicate ExactMembers(m: Members) {
    m.NoMember? || (Exact(m.value) && ExactMembers(m.next))
  }

  // The first byte tells the type apart.
  predicate Opens(j: Json, c: char) {
    match j
    case Null => c == 'n'
    case False => c == 'f'
    case True => c == 't'
    case Num(_) => c == '-' || IsDigit(c)
    case Str(_) => c == '"'
    case Arr(_) => c == '['
    case Obj(_) => c == '{'
  }

  lemma PrintOpens(j: Json, general: real -> string, x: string)
    requires Exact(j)
    ensures Print(j, general) + x != [] && Opens(j, (Print(j, general) + x)[0])
  {
    if j.Num? {
      DecimalHead(j.value.Floor, x);
    }
  }

  lemma OpensApart(a: Json, b: Json, c: char)
    requires Opens(a, c) && Opens(b, c)
    ensures (a.Null? <==> b.Null?) && (a.False? <==> b.False?) && (a.True? <==> b.True?) && (a.Num? <==> b.Num?)
    ensures (a.Str? <==> b.Str?) && (a.Arr? <==> b.Arr?) && (a.Obj? <==> b.Obj?)
  {}

  lemma ArrBody(c: Items, g: real -> string, x: string)
    ensures Print(Arr(c), g) + x == "[" + (PrintItems(c, true, g) + ("]" + x))
  {}

  lemma ObjBody(m: Members, g: real -> string, x: string)
    ensures Print(Obj(m), g) + x == "{" + (PrintMembers(m, true, g) + ("}" + x))
  {}

  lemma {:induction false} PrintPrefix(a: Json, b: Json, g: real -> string, x: string, y: string)
    requires Exact(a) && Exact(b) && NotDigit(x) && NotDigit(y) && Print(a, g) + x == Print(b, g) + y
    ensures a == b && x == y
    decreases a
  {
    PrintOpens(a, g, x);
    PrintOpens(b, g, y);
    OpensApart(a, b, (Print(a, g) + x)[0]);
    if a.Num? {
      DecimalPrefix(a.value.Floor, b.value.Floor, x, y);
    } else if a.Str? {
      QuotedPrefix(a.str, b.str, x, y);
    } else if a.Arr? {
      ArrBody(a.items, g, x);
      ArrBody(b.items, g, y);
      SplitAt("[", "[", PrintItems(a.items, true, g) + ("]" + x), PrintItems(b.items, true, g) + ("]" + y));
      ItemsPrefix(a.items, b.items, true, g, x, y);
    } else if a.Obj? {
      ObjBody(a.members, g, x);
      ObjBody(b.members, g, y);
      SplitAt("{", "{", PrintMembers(a.members, true, g) + ("}" + x), PrintMembers(b.members, true, g) + ("}" + y));
      MembersPrefix(a.members, b.members, true, g, x, y);
    } else {
      SplitAt(Print(a, g), Print(b, g), x, y);
    }
  }

  // The items of an array, from the one after the first on with a comma in front.
  lemma ItemsUnfold(c: Items, first: bool, g: real -> string, x: string)
    requires ExactItems(c)
    ensures var s := PrintItems(c, first, g) + ("]" + x);
            s != []
            && (c.NoItem? ==> s == "]" + x)
            && (c.Item? ==> var rest := PrintItems(c.next, false, g) + ("]" + x);
                            NotDigit(rest) && (if first then s else s[1..]) == Print(c.value, g) + rest
                            && if first then Opens(c.value, s[0]) else s[0] == ',')
  {
    hide Print, Exact;
    if c.Item? {
      var rest := PrintItems(c.next, false, g) + ("]" + x);
      PrintOpens(c.value, g, rest);
      var s, body := PrintItems(c, first, g) + ("]" + x), Print(c.value, g) + rest;
      assert s == (if first then [] else ",") + body;
      assert rest[0] == if c.next.NoItem? then ']' else ',';
    }
  }

  lemma {:induction false} ItemsPrefix(c: Items, d: Items, first: bool, g: real -> string, x: string, y: string)
    requires ExactItems(c) && ExactItems(d)
    requires PrintItems(c, first, g) + ("]" + x) == PrintItems(d, first, g) + ("]" + y)
    ensures c == d && x == y
    decreases c
  {
    hide Print, Exact, PrintItems;
    ItemsUnfold(c, first, g, x);
    ItemsUnfold(d, first, g, y);
    if c.Item? && d.Item? {
      PrintPrefix(c.value, d.value, g, PrintItems(c.next, false, g) + ("]" + x), PrintItems(d.next, false, g) + ("]" + y));
      ItemsPrefix(c.next, d.next, false, g, x, y);
    } else {
      SplitAt("]", "]", x, y);
    }
  }

  lemma MembersUnfold(m: Members, first: bool, g: real -> string, x: string)
    requires ExactMembers(m)
    ensures var s := PrintMembers(m, first, g) + ("}" + x);
            s != []
            && (m.NoMember? ==> s == "}" + x)
            && (m.Member? ==> var rest := PrintMembers(m.next, false, g) + ("}" + x);
                              NotDigit(rest) && (if first then s else s[1..]) == Quoted(m.name) + (":" + (Print(m.value, g) + rest))
                              && s[0] == if first then '"' else ',')
  {
    hide Print, Exact, Escaped;
    if m.Member? {
      var rest := PrintMembers(m.next, false, g) + ("}" + x);
      var s := PrintMembers(m, first, g) + ("}" + x);
      var body := Quoted(m.name) + (":" + (Print(m.value, g) + rest));
      assert s == (if first then [] else ",") + body;
      assert body[0] == '"';
      assert rest[0] == if m.next.NoMember? then '}' else ',';
    }
  }

  lemma {:induction false} MembersPrefix(m: Members, n: Members, first: bool, g: real -> string, x: string, y: string)
    requires ExactMembers(m) && ExactMembers(n)
    requires PrintMembers(m, first, g) + ("}" + x) == PrintMembers(n, first, g) + ("}" + y)
    ensures m == n && x == y
    decreases m
  {
    hide Print, Exact, PrintMembers, Escaped;
    MembersUnfold(m, first, g, x);
    MembersUnfold(n, first, g, y);
    if m.Member? && n.Member? {
      var mx, ny := PrintMembers(m.next, false, g) + ("}" + x), PrintMembers(n.next, false, g) + ("}" + y);
      QuotedPrefix(m.name, n.name, ":" + (Print(m.value, g) + mx), ":" + (Print(n.value, g) + ny));
      SplitAt(":", ":", Print(m.value, g) + mx, Print(n.value, g) + ny);
      PrintPrefix(m.value, n.value, g, mx, ny);
      MembersPrefix(m.next, n.next, false, g, x, y);
    } else {
      SplitAt("}", "}", x, y);
    }
  }

  // ----- equality up to the order of members -----

  predicate DistinctNames(j: Json) {
    match j
    case Arr(items) => DistinctItems(items)
    case Obj(members) => Distinct(members) && DistinctMembers(members)
    case _ => true
  }

  predicate DistinctItems(c: Items) {
    c.NoItem? || (DistinctNames(c.value) && DistinctItems(c.next))
  }

  predicate DistinctMembers(m: Members) {
    m.NoMember? || (DistinctNames(m.value) && DistinctMembers(m.next))
  }

  // Equal up to reordering the members of objects at any depth.
  predicate Same(a: Json, b: Json)
    decreases a
  {
    match a
    case Arr(items) => b.Arr? && SameItems(items, b.items)
    case Obj(members) => b.Obj? && Included(members, b.members) && Count(members) == Count(b.members)
    case _ => a == b
  }

  predicate SameItems(c: Items, d: Items)
    decreases c
  {
    if c.NoItem? then d.NoItem? else d.Item? && Same(c.value, d.value) && SameItems(c.next, d.next)
  }

  // Every member of m is found in n with the same value.
  predicate Included(m: Members, n: Members)
    decreases m
  {
    m.NoMember? || (var v := Find(n, m.name); v.Some? && Same(m.value, v.value) && Included(m.next, n))
  }

  function Count(m: Members): nat {
    if m.NoMember? then 0 else 1 + Count(m.next)
  }

  // ----- the text determines the value up to the order of members, and nothing else -----

  lemma {:induction false} InsertExact(name: Text, value: Json, m: Members)
    requires Exact(value) && ExactMembers(m)
    ensures ExactMembers(Insert(name, value, m))
    decreases m
  {
    if m.Member? && Less(m.name, name) {
      InsertExact(name, value, m.next);
    }
  }

  lemma {:induction false} SortExact(m: Members)
    requires ExactMembers(m)
    ensures ExactMembers(Sort(m))
    decreases m
  {
    if m.Member? {
      SortExact(m.next);
      InsertExact(m.name, m.value, Sort(m.next));
    }
  }

  lemma {:induction false} NormExact(j: Json)
    requires Exact(j)
    ensures Exact(Norm(j))
    decreases j
  {
    if j.Arr? {
      NormItemsExact(j.items);
    } else if j.Obj? {
      NormMembersExact(j.members);
      SortExact(NormMembers(j.members));
    }
  }

  lemma {:induction false} NormItemsExact(c: Items)
    requires ExactItems(c)
    ensures ExactItems(NormItems(c))
    decreases c
  {
    if c.Item? {
      NormExact(c.value);
      NormItemsExact(c.next);
    }
  }

  lemma {:induction false} NormMembersExact(m: Members)
    requires ExactMembers(m)
    ensures ExactMembers(NormMembers(m))
    decreases m
  {
    if m.Member? {
      NormExact(m.value);
      NormMembersExact(m.next);
    }
  }

  function MapNorm(v: Option<Json>): Option<Json> {
    if v.Some? then Some(Norm(v.value)) else None
  }

  lemma {:induction false} FindNorm(m: Members, key: Text)
    ensures Find(NormMembers(m), key) == MapNorm(Find(m, key))
    decreases m
  {
    if m.Member? {
      FindNorm(m.next, key);
    }
  }

  lemma {:induction false} NormDistinct(m: Members)
    requires Distinct(m)
    ensures Distinct(NormMembers(m))
    decreases m
  {
    if m.Member? {
      NormDistinct(m.next);
      FindNorm(m.next, m.name);
    }
  }

  lemma SortedFinds(m: Members, key: Text)
    requires Distinct(m)
    ensures Find(Sort(NormMembers(m)), key) == MapNorm(Find(m, key))
  {
    NormDistinct(m);
    SortFinds(NormMembers(m), key);
    FindNorm(m, key);
  }

  lemma {:induction false} InsertCount(name: Text, value: Json, m: Members)
    ensures Count(Insert(name, value, m)) == Count(m) + 1
    decreases m
  {
    if m.Member? && Less(m.name, name) {
      InsertCount(name, value, m.next);
    }
  }

  lemma {:induction false} SortCount(m: Members)
    ensures Count(Sort(NormMembers(m))) == Count(m)
    decreases m
  {
    if m.Member? {
      SortCount(m.next);
      InsertCount(m.name, Norm(m.value), Sort(NormMembers(m.next)));
    }
  }

  lemma {:induction false} FoundDistinct(m: Members, key: Text)
    requires DistinctMembers(m) && Find(m, key).Some?
    ensures DistinctNames(Find(m, key).value)
    decreases m
  {
    if m.name != key {
      FoundDistinct(m.next, key);
    }
  }

  lemma {:induction false} NormSame(a: Json, b: Json)
    requires DistinctNames(a) && DistinctNames(b) && Norm(a) == Norm(b)
    ensures Same(a, b)
    decreases a
  {
    if a.Arr? {
      NormSameItems(a.items, b.items);
    } else if a.Obj? {
      var m, n := a.members, b.members;
      SortCount(m);
      SortCount(n);
      forall key ensures MapNorm(Find(m, key)) == MapNorm(Find(n, key)) {
        SortedFinds(m, key);
        SortedFinds(n, key);
      }
      NormIncluded(m, n);
    }
  }

  lemma {:induction false} NormSameItems(c: Items, d: Items)
    requires DistinctItems(c) && DistinctItems(d) && NormItems(c) == NormItems(d)
    ensures SameItems(c, d)
    decreases c
  {
    if c.Item? {
      NormSame(c.value, d.value);
      NormSameItems(c.next, d.next);
    }
  }

  lemma {:induction false} NormIncluded(m: Members, n: Members)
    requires Distinct(m) && DistinctMembers(m) && DistinctMembers(n)
    requires forall key {:trigger Find(m, key)} :: Find(m, key).Some? ==> MapNorm(Find(m, key)) == MapNorm(Find(n, key))
    ensures Included(m, n)
    decreases m
  {
    if m.Member? {
      assert Find(m, m.name) == Some(m.value);
      FoundDistinct(n, m.name);
      NormSame(m.value, Find(n, m.name).value);
      forall key {:trigger Find(m.next, key)} | Find(m.next, key).Some?
        ensures MapNorm(Find(m.next, key)) == MapNorm(Find(n, key))
      {
        assert Find(m, key) == Find(m.next, key);
      }
      NormIncluded(m.next, n);
    }
  }

  lemma {:induction false} SameNorm(a: Json, b: Json)
    requires DistinctNames(a) && DistinctNames(b) && Same(a, b)
    ensures Norm(a) == Norm(b)
    decreases a
  {
    if a.Arr? {
      SameNormItems(a.items, b.items);
    } else if a.Obj? {
      var m, n := a.members, b.members;
      SameNames(m, n);
      forall key ensures Find(Sort(NormMembers(m)), key) == Find(Sort(NormMembers(n)), key) {
        SortedFinds(m, key);
        SortedFinds(n, key);
        InNames(m, key);
        InNames(n, key);
        if Find(m, key).Some? {
          IncludedNorm(m, n, key);
        }
      }
      NormDistinct(m);
      NormDistinct(n);
      SortSorts(NormMembers(m));
      SortSorts(NormMembers(n));
      SortedUnique(Sort(NormMembers(m)), Sort(NormMembers(n)));
    }
  }

  lemma {:induction false} SameNormItems(c: Items, d: Items)
    requires DistinctItems(c) && DistinctItems(d) && SameItems(c, d)
    ensures NormItems(c) == NormItems(d)
    decreases c
  {
    if c.Item? {
      SameNorm(c.value, d.value);
      SameNormItems(c.next, d.next);
    }
  }

  lemma {:induction false} IncludedNorm(m: Members, n: Members, key: Text)
    requires Included(m, n) && DistinctMembers(m) && DistinctMembers(n) && Find(m, key).Some?
    ensures MapNorm(Find(n, key)) == MapNorm(Find(m, key))
    decreases m
  {
    if m.name == key {
      FoundDistinct(n, key);
      SameNorm(m.value, Find(n, key).value);
    } else {
      IncludedNorm(m.next, n, key);
    }
  }

  lemma {:induction false} InNames(m: Members, key: Text)
    ensures key in Names(m) <==> Find(m, key).Some?
    decreases m
  {
    if m.Member? {
      InNames(m.next, key);
    }
  }

  lemma {:induction false} NamesCount(m: Members)
    requires Distinct(m)
    ensures |Names(m)| == Count(m)
    decreases m
  {
    if m.Member? {
      NamesCount(m.next);
      InNames(m.next, m.name);
    }
  }

  lemma {:induction false} IncludedNames(m: Members, n: Members)
    requires Included(m, n)
    ensures Names(m) <= Names(n)
    decreases m
  {
    if m.Member? {
      IncludedNames(m.next, n);
      InNames(n, m.name);
    }
  }

  lemma SubsetOfSameSize(s: set<Text>, t: set<Text>)
    requires s <= t && |s| == |t|
    ensures s == t
  {
    assert |t - s| == |t| - |s|;
  }

  lemma SameNames(m: Members, n: Members)
    requires Distinct(m) && Distinct(n) && Included(m, n) && Count(m) == Count(n)
    ensures Names(m) == Names(n)
  {
    NamesCount(m);
    NamesCount(n);
    IncludedNames(m, n);
    SubsetOfSameSize(Names(m), Names(n));
  }

  // Canonical texts are equal exactly when the values are equal up to the order of members.
  lemma CanonicalEqualIffSame(a: Json, b: Json, general: real -> string)
    requires DistinctNames(a) && DistinctNames(b) && Exact(a) && Exact(b)
    ensures Canonical(a, general) == Canonical(b, general) <==> Same(a, b)
  {
    if Same(a, b) {
      SameNorm(a, b);
    }
    if Canonical(a, general) == Canonical(b, general) {
      NormExact(a);
      NormExact(b);
      assert Canonical(a, general) + [] == Canonical(b, general) + [];
      PrintPrefix(Norm(a), Norm(b), general, [], []);
      NormSame(a, b);
    }
  }

  // ----- the writer -----

  function Size(j: Json): nat {
    match j
    case Arr(items) => 1 + ItemsSize(items)
    case Obj(members) => 1 + MembersSize(members)
    case _ => 1
  }

  function ItemsSize(c: Items): nat {
    if c.NoItem? then 0 else Size(c.value) + ItemsSize(c.next)
  }

  function MembersSize(m: Members): nat {
    if m.NoMember? then 0 else Size(m.value) + MembersSize(m.next)
  }

  lemma {:induction false} InsertSize(name: Text, value: Json, m: Members)
    ensures MembersSize(Insert(name, value, m)) == Size(value) + MembersSize(m)
    decreases m
  {
    if m.Member? && Less(m.name, name) {
      InsertSize(name, value, m.next);
    }
  }

  lemma {:induction false} SortSize(m: Members)
    ensures MembersSize(Sort(m)) == MembersSize(m)
    decreases m
  {
    if m.Member? {
      SortSize(m.next);
      InsertSize(m.name, m.value, Sort(m.next));
    }
  }

  lemma {:induction false} InsertNorm(name: Text, value: Json, m: Members)
    ensures NormMembers(Insert(name, value, m)) == Insert(name, Norm(value), NormMembers(m))
    decreases m
  {
    if m.Member? && Less(m.name, name) {
      InsertNorm(name, value, m.next);
    }
  }

  // Sorting first and then the values gives the same members as the other way round.
  lemma {:induction false} SortNorm(m: Members)
    ensures NormMembers(Sort(m)) == Sort(NormMembers(m))
    decreases m
  {
    if m.Member? {
      SortNorm(m.next);
      InsertNorm(m.name, m.value, Sort(m.next));
    }
  }

  // A pointer on the 32-bit target.
  const POINTER_SIZE := 4

  lemma {:induction false} MembersLength(m: Members, first: bool, general: real -> string)
    ensures |PrintMembers(m, first, general)| >= 3 * Count(m)
    decreases m
  {
    if m.Member? {
      MembersLength(m.next, false, general);
    }
  }

  // An object's text has at least three bytes for each member.
  lemma TextLength(members: Members, general: real -> string)
    ensures |Print(Obj(Sort(NormMembers(members))), general)| >= 3 * Count(members)
  {
    MembersLength(Sort(NormMembers(members)), true, general);
    SortCount(members);
  }

  // How much memory is always enough for a text of n bytes and its terminator.
  function Need(n: nat): nat {
    128 + 2 * (n + 2)
  }

  // The growable byte buffer. An allocation above limit bytes fails, and then err stays set.
  class Buffer {
    const limit: nat
    const general: real -> string
    var buf: array<char>
    var len: nat
    var err: bool

    ghost predicate Valid()
      reads this
    {
      len <= buf.Length
    }

    ghost function Contents(): string
      reads this, buf
      requires Valid()
    {
      buf[..len]
    }

    constructor (limit: nat, general: real -> string)
      ensures Valid() && !err && Contents() == [] && fresh(buf) && this.limit == limit && this.general == general
    {
      this.limit, this.general := limit, general;
      buf := new char[0];
      len, err := 0, false;
    }

    // The whole text is being written, and rest is still to come; or there was no room for it.
    ghost predicate Writing(text: string, rest: string)
      reads this, buf
    {
      Valid() && if err then limit < Need(|text|) else Contents() + rest == text
    }

    method Reserve(extra: nat, ghost text: string, ghost rest: string)
      requires Writing(text, rest) && extra <= |rest| + 1
      modifies this`buf, this`err
      ensures Writing(text, rest) && (buf == old(buf) || fresh(buf))
      ensures !err ==> !old(err) && len + extra < buf.Length
    {
      if err || len + extra + 1 <= buf.Length {
        return;
      }
      var cap := if buf.Length > 0 then buf.Length else 128;
      while cap < len + extra + 1
        invariant 0 < cap && (cap <= 128 || cap == buf.Length || cap < 2 * (len + extra + 1))
        decreases len + extra + 1 - cap
      {
        cap := 2 * cap;
      }
      if cap > limit {
        assert |Contents() + rest| == len + |rest|;
        err := true;
        return;
      }
      var old' := buf;
      buf := new char[cap](i reads this, old' => if 0 <= i < len && i < old'.Length then old'[i] else '\0');
      assert Contents() == old(Contents());
    }

    method PutChar(c: char, ghost text: string, ghost rest: string)
      requires Writing(text, [c] + rest)
      modifies this, buf
      ensures Writing(text, rest) && (buf == old(buf) || fresh(buf))
    {
      Reserve(1, text, [c] + rest);
      if !err {
        Regroup(Contents(), [c], rest);
        buf[len] := c;
        len := len + 1;
      }
    }

    method Write(s: string, ghost text: string, ghost rest: string)
      requires Writing(text, s + rest)
      modifies this, buf
      ensures Writing(text, rest) && (buf == old(buf) || fresh(buf))
    {
      Reserve(|s|, text, s + rest);
      if !err {
        ghost var before := Contents();
        Regroup(before, s, rest);
        forall i | 0 <= i < |s| {
          buf[len + i] := s[i];
        }
        len := len + |s|;
        assert Contents() == before + s;
      }
    }

    // write_json_string
    method WriteString(s: Text, ghost text: string, ghost rest: string)
      requires Writing(text, Quoted(s) + rest)
      modifies this, buf
      ensures Writing(text, rest) && (buf == old(buf) || fresh(buf))
    {
      assert Quoted(s) + rest == ['"'] + Closed(s, rest);
      PutChar('"', text, Closed(s, rest));
      assert s[0..] == s;
      for i := 0 to |s|
        invariant Writing(text, Closed(s[i..], rest)) && (buf == old(buf) || fresh(buf))
      {
        ClosedUnfolds(s[i..], rest);
        assert s[i..][0] == s[i] && s[i..][1..] == s[i + 1..];
        WriteEscape(s[i], text, Closed(s[i + 1..], rest));
      }
      ClosedUnfolds([], rest);
      PutChar('"', text, rest);
    }

    // The switch on one byte of a string.
    method WriteEscape(c: Char, ghost text: string, ghost rest: string)
      requires Writing(text, Escape(c) + rest)
      modifies this, buf
      ensures Writing(text, rest) && (buf == old(buf) || fresh(buf))
    {
      if c == '"' {
        Write("\\\"", text, rest);
      } else if c == '\\' {
        Write("\\\\", text, rest);
      } else if c as int == 8 {
        Write("\\b", text, rest);
      } else if c as int == 12 {
        Write("\\f", text, rest);
      } else if c as int == 10 {
        Write("\\n", text, rest);
      } else if c as int == 13 {
        Write("\\r", text, rest);
      } else if c as int == 9 {
        Write("\\t", text, rest);
      } else if c as int < 0x20 {
        Write("\\u00" + [Hex(c as int / 16), Hex(c as int % 16)], text, rest);
      } else {
        PutChar(c, text, rest);
      }
    }

    // write_json_number
    method WriteNumber(d: real, ghost text: string, ghost rest: string)
      requires Writing(text, NumText(d, general) + rest)
      modifies this, buf
      ensures Writing(text, rest) && (buf == old(buf) || fresh(buf))
    {
      if Integral(d) {
        Write(Decimal(d.Floor), text, rest);
      } else {
        Write(general(d), text, rest);
      }
    }

    // emit
    method Emit(item: Json, ghost text: string, ghost rest: string)
      requires Writing(text, Print(Norm(item), general) + rest)
      modifies this, buf
      ensures Writing(text, rest) && (buf == old(buf) || fresh(buf))
      decreases Size(item), 2
    {
      if err {
        return;
      }
      match item
      case Null => Write("null", text, rest);
      case False => Write("false", text, rest);
      case True => Write("true", text, rest);
      case Num(value) => WriteNumber(value, text, rest);
      case Str(str) => WriteString(str, text, rest);
      case Arr(items) => EmitItems(items, text, rest);
      case Obj(members) => EmitMembers(members, text, rest);
    }

    method EmitItems(items: Items, ghost text: string, ghost rest: string)
      requires Writing(text, Print(Arr(NormItems(items)), general) + rest)
      modifies this, buf
      ensures Writing(text, rest) && (buf == old(buf) || fresh(buf))
      decreases ItemsSize(items) + 1, 0
    {
      ArrBody(NormItems(items), general, rest);
      PutChar('[', text, PrintItems(NormItems(items), true, general) + ("]" + rest));
      var c, first := items, true;
      while c.Item?
        invariant Writing(text, PrintItems(NormItems(c), first, general) + ("]" + rest))
        invariant (buf == old(buf) || fresh(buf))
        invariant ItemsSize(c) <= ItemsSize(items)
        decreases c
      {
        ghost var tail := PrintItems(NormItems(c.next), false, general) + ("]" + rest);
        ItemsStep(NormItems(c), first, general, rest);
        if !first {
          PutChar(',', text, Print(Norm(c.value), general) + tail);
        }
        first := false;
        Emit(c.value, text, tail);
        c := c.next;
      }
      assert PrintItems(NormItems(c), first, general) + ("]" + rest) == "]" + rest;
      PutChar(']', text, rest);
    }

    // The text is long enough to bound the array of its members.
    lemma NoRoom(text: string, rest: string, members: Members)
      requires Writing(text, Print(Obj(Sort(NormMembers(members))), general) + rest) && !err
      requires Count(members) * POINTER_SIZE > limit
      requires |Print(Obj(Sort(NormMembers(members))), general)| >= 3 * Count(members)
      ensures limit < Need(|text|)
    {
      assert |text| == |Contents()| + |Print(Obj(Sort(NormMembers(members))), general)| + |rest|;
    }

    // The object case of emit: the array of children is allocated first.
    method EmitMembers(members: Members, ghost text: string, ghost rest: string)
      requires !err && Writing(text, Print(Obj(Sort(NormMembers(members))), general) + rest)
      modifies this, buf
      ensures Writing(text, rest) && (buf == old(buf) || fresh(buf))
      decreases MembersSize(members) + 1, 1
    {
      var n := 0;
      var m := members;
      while m.Member?
        invariant n + Count(m) == Count(members)
        decreases m
      {
        n, m := n + 1, m.next;
      }
      if n > 0 && n * POINTER_SIZE > limit {
        TextLength(members, general);
        NoRoom(text, rest, members);
        err := true;
      } else {
        EmitKids(members, text, rest);
      }
    }

    method EmitKids(members: Members, ghost text: string, ghost rest: string)
      requires Writing(text, Print(Obj(Sort(NormMembers(members))), general) + rest)
      modifies this, buf
      ensures Writing(text, rest) && (buf == old(buf) || fresh(buf))
      decreases MembersSize(members) + 1, 0
    {
      var kids := Sort(members);
      SortNorm(members);
      SortSize(members);
      ObjBody(NormMembers(kids), general, rest);
      PutChar('{', text, PrintMembers(NormMembers(kids), true, general) + ("}" + rest));
      var c, first := kids, true;
      while c.Member?
        invariant Writing(text, PrintMembers(NormMembers(c), first, general) + ("}" + rest))
        invariant (buf == old(buf) || fresh(buf))
        invariant MembersSize(c) <= MembersSize(kids)
        decreases c
      {
        ghost var tail := PrintMembers(NormMembers(c.next), false, general) + ("}" + rest);
        ghost var value := Print(Norm(c.value), general) + tail;
        MembersStep(NormMembers(c), first, general, rest);
        if !first {
          PutChar(',', text, Quoted(c.name) + ([':'] + value));
        }
        first := false;
        WriteString(c.name, text, [':'] + value);
        PutChar(':', text, value);
        Emit(c.value, text, tail);
        c := c.next;
      }
      assert PrintMembers(NormMembers(c), first, general) + ("}" + rest) == "}" + rest;
      PutChar('}', text, rest);
    }
  }

  lemma Regroup(a: string, b: string, c: string)
    ensures a + (b + c) == (a + b) + c
  {}

  lemma ItemsIs(c: Items, first: bool, g: real -> string)
    requires c.Item?
    ensures PrintItems(c, first, g) == (if first then [] else ",") + (Print(c.value, g) + PrintItems(c.next, false, g))
  {
    hide Print;
  }

  lemma ItemsStep(c: Items, first: bool, g: real -> string, rest: string)
    requires c.Item?
    ensures var body := Print(c.value, g) + (PrintItems(c.next, false, g) + ("]" + rest));
            PrintItems(c, first, g) + ("]" + rest) == if first then body else [','] + body
  {
    hide Print, PrintItems;
    var p, tail, end := Print(c.value, g), PrintItems(c.next, false, g), "]" + rest;
    ItemsIs(c, first, g);
    Regroup(p, tail, end);
    Regroup(if first then [] else ",", p + tail, end);
  }

  lemma MembersIs(m: Members, first: bool, g: real -> string)
    requires m.Member?
    ensures PrintMembers(m, first, g)
            == (if first then [] else ",") + (Quoted(m.name) + (":" + (Print(m.value, g) + PrintMembers(m.next, false, g))))
  {
    hide Print, Quoted;
  }

  lemma MembersStep(m: Members, first: bool, g: real -> string, rest: string)
    requires m.Member?
    ensures var body := Quoted(m.name) + ([':'] + (Print(m.value, g) + (PrintMembers(m.next, false, g) + ("}" + rest))));
            PrintMembers(m, first, g) + ("}" + rest) == if first then body else [','] + body
  {
    hide Print, Quoted, PrintMembers;
    var q, p, tail, end := Quoted(m.name), Print(m.value, g), PrintMembers(m.next, false, g), "}" + rest;
    MembersIs(m, first, g);
    Regroup(p, tail, end);
    Regroup(":", p + tail, end);
    Regroup(q, ":" + (p + tail), end);
    Regroup(if first then [] else ",", q + (":" + (p + tail)), end);
  }

  // akt_canonical_json: the canonical text, unless memory runs out; enough memory is always enough.
  method CanonicalText(j: Json, limit: nat, general: real -> string) returns (r: Option<string>)
    ensures r.Some? ==> r.value == Canonical(j, general)
    ensures r == None ==> limit < Need(|Canonical(j, general)|) == 132 + 2 * |Canonical(j, general)|
  {
    ghost var text := Canonical(j, general);
    var sb := new Buffer(limit, general);
    assert [] + (text + []) == text;
    sb.Emit(j, text, []);
    if sb.err {
      return None;
    }
    assert sb.Contents() == text;
    sb.Reserve(1, text, []);
    if sb.err {
      return None;
    }
    sb.buf[sb.len] := '\0';
    return Some(sb.buf[..sb.len]);
  }
}
