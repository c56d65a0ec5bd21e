/** How the string table compares short strings (be_string.c): by length and `strncmp`, which stops at the
    first NUL. */
module ShortStrings {
  import opened Bits

  // Longer strings are not interned.
  const SHORT_STR_MAX_LEN := 64

  // !strncmp(a, b, n) for two strings of n bytes: they agree up to the first NUL.
  predicate StrnEq(a: seq<Byte>, b: seq<Byte>)
    requires |a| == |b|
    decreases a
  {
    a == [] || (a[0] == b[0] && (a[0] == 0 || StrnEq(a[1..], b[1..])))
  }

  lemma {:induction false} StrnEqRefl(a: seq<Byte>)
    ensures StrnEq(a, a)
    decreases a
  {
    if a != [] {
      StrnEqRefl(a[1..]);
    }
  }

  // A NUL in front of the last byte is what the comparison cannot see past.
  predicate NoInnerNul(a: seq<Byte>) {
    forall i :: 0 <= i < |a| - 1 ==> a[i] != 0
  }

  lemma {:induction false} StrnEqIsEqual(a: seq<Byte>, b: seq<Byte>)
    requires |a| == |b| && NoInnerNul(a) && StrnEq(a, b)
    ensures a == b
    decreases a
  {
    if a != [] {
      assert a == [a[0]] + a[1..] && b == [b[0]] + b[1..];
      if a[0] == 0 {
        assert |a| == 1;
      } else {
        forall i | 0 <= i < |a[1..]| - 1 ensures a[1..][i] != 0 {
          assert a[1..][i] == a[i + 1];
        }
        StrnEqIsEqual(a[1..], b[1..]);
      }
    }
  }

  lemma {:induction false} InnerNulHides(a: seq<Byte>) returns (b: seq<Byte>)
    requires !NoInnerNul(a)
    ensures |b| == |a| && b != a && StrnEq(a, b)
    decreases a
  {
    if a[0] == 0 {
      var last: int := a[|a| - 1];
      b := a[|a| - 1 := if last == 0 then 1 else 0];
    } else {
      var i :| 0 <= i < |a| - 1 && a[i] == 0;
      assert a[1..][i - 1] == 0;
      var t := InnerNulHides(a[1..]);
      b := [a[0]] + t;
      assert a == [a[0]] + a[1..] && b[1..] == t;
    }
  }

  // What the comparison sees: every byte with no NUL in front of it.
  lemma {:induction false} StrnEqIff(a: seq<Byte>, b: seq<Byte>)
    requires |a| == |b|
    ensures StrnEq(a, b) <==> forall i :: 0 <= i < |a| && (forall j :: 0 <= j < i ==> a[j] != 0) ==> a[i] == b[i]
    decreases a
  {
    if a != [] {
      var x, y := a[1..], b[1..];
      StrnEqIff(x, y);
      assert forall i :: 0 <= i < |x| ==> x[i] == a[i + 1] && y[i] == b[i + 1];
      if a[0] == b[0] && a[0] != 0 {
        if StrnEq(x, y) {
          forall i | 0 <= i < |a| && (forall j :: 0 <= j < i ==> a[j] != 0) ensures a[i] == b[i] {
            if i > 0 {
              assert forall j :: 0 <= j < i - 1 ==> x[j] != 0;
              assert x[i - 1] == y[i - 1];
            }
          }
        }
        if forall i :: 0 <= i < |a| && (forall j :: 0 <= j < i ==> a[j] != 0) ==> a[i] == b[i] {
          forall i | 0 <= i < |x| && (forall j :: 0 <= j < i ==> x[j] != 0) ensures x[i] == y[i] {
            assert forall j :: 0 <= j < i + 1 ==> a[j] != 0 by {
              forall j | 0 < j < i + 1 ensures a[j] != 0 {
                assert x[j - 1] != 0;
              }
            }
            assert a[i + 1] == b[i + 1];
          }
        }
      }
    }
  }

  // Interning compares names exactly if and only if the name has no NUL before its last byte.
  lemma ComparisonExact(a: seq<Byte>)
    ensures (forall b: seq<Byte> :: |b| == |a| && StrnEq(a, b) ==> b == a) <==> forall i :: 0 <= i < |a| - 1 ==> a[i] != 0
    ensures NoInnerNul(a) <==> forall i :: 0 <= i < |a| - 1 ==> a[i] != 0
  {
    if NoInnerNul(a) {
      forall b: seq<Byte> | |b| == |a| && StrnEq(a, b) ensures b == a {
        StrnEqIsEqual(a, b);
      }
    } else {
      var b := InnerNulHides(a);
    }
  }
}
