/** Base64 of a Berry `bytes()` buffer (be_byteslib.c): the alphabet of section 4 of RFC 4648,
    written and read through byte arrays that end in a NUL. */
module Base64 {
  // binary_to_base64
  function ToChar(v: bv8): bv8 {
    if v < 26 then v + 65
    else if v < 52 then v + 71
    else if v < 62 then v - 4
    else if v == 62 then 43
    else if v == 63 then 47
    else 64
  }

  // base64_to_binary
  function FromChar(c: bv8): bv8 {
    if 65 <= c <= 90 then c - 65
    else if 97 <= c <= 122 then c - 71
    else if 48 <= c <= 57 then c + 4
    else if c == 43 then 62
    else if c == 47 then 63
    else 255
  }

  const PAD: bv8 := 61

  lemma CharRoundTrip(v: bv8)
    requires v < 64
    ensures FromChar(ToChar(v)) == v && ToChar(v) != 0 && ToChar(v) != PAD
  {}

  // The alphabet: A-Z, a-z, 0-9, + and /.
  lemma Alphabet(v: bv8)
    requires v < 64
    ensures v < 26 ==> ToChar(v) == 0x41 + v
    ensures 26 <= v < 52 ==> ToChar(v) == 0x61 + (v - 26)
    ensures 52 <= v < 62 ==> ToChar(v) == 0x30 + (v - 52)
    ensures (v == 62 ==> ToChar(v) == 0x2B) && (v == 63 ==> ToChar(v) == 0x2F)
  {}

  // A character is read as one of 64 values exactly when it is the one that is written for it.
  lemma InAlphabet(c: bv8)
    ensures FromChar(c) < 64 <==> exists v: bv8 :: v < 64 && ToChar(v) == c
    ensures FromChar(c) < 64 ==> ToChar(FromChar(c)) == c
  {
    if FromChar(c) < 64 {
      var v := FromChar(c);
      assert ToChar(v) == c;
    }
    if v: bv8 :| v < 64 && ToChar(v) == c {
      CharRoundTrip(v);
    }
  }

  // The six-bit groups of three bytes and of an incomplete tail.
  function Group0(a: bv8): bv8 { a >> 2 }
  function Group1(a: bv8, b: bv8): bv8 { ((a & 0x03) << 4) | (b >> 4) }
  function Group2(b: bv8, c: bv8): bv8 { ((b & 0x0F) << 2) | (c >> 6) }
  function Group3(c: bv8): bv8 { c & 0x3F }

  // The bytes that adjacent groups make up.
  function Byte0(p: bv8, q: bv8): bv8 { (p << 2) | (q >> 4) }
  function Byte1(q: bv8, r: bv8): bv8 { (q << 4) | (r >> 2) }
  function Byte2(r: bv8, s: bv8): bv8 { (r << 6) | s }

  lemma GroupsAreSextets(a: bv8, b: bv8, c: bv8)
    ensures Group0(a) < 64 && Group1(a, b) < 64 && Group2(b, c) < 64 && Group3(c) < 64
  {}

  lemma GroupsRoundTrip(a: bv8, b: bv8, c: bv8)
    ensures Byte0(Group0(a), Group1(a, b)) == a
    ensures Byte1(Group1(a, b), Group2(b, c)) == b
    ensures Byte2(Group2(b, c), Group3(c)) == c
  {}

  // ----- what the two routines compute, as functions on sequences -----

  function Encoded(s: seq<bv8>): seq<bv8> {
    if |s| == 0 then []
    else if |s| == 1 then [ToChar(Group0(s[0])), ToChar(Group1(s[0], 0)), PAD, PAD]
    else if |s| == 2 then [ToChar(Group0(s[0])), ToChar(Group1(s[0], s[1])), ToChar(Group2(s[1], 0)), PAD]
    else FirstGroup(s) + Encoded(s[3..])
  }

  // The length of the leading run of alphabet characters.
  function RunLength(s: seq<bv8>): (n: nat)
    ensures n <= |s|
  {
    if |s| > 0 && FromChar(s[0]) < 64 then 1 + RunLength(s[1..]) else 0
  }

  function DecodedLength(run: nat): nat {
    run / 4 * 3 + (if run % 4 == 2 then 1 else if run % 4 == 3 then 2 else 0)
  }

  // The bytes of a run of alphabet characters.
  function Decoded(s: seq<bv8>): seq<bv8> {
    if |s| < 2 then []
    else if |s| == 2 then [Byte0(FromChar(s[0]), FromChar(s[1]))]
    else if |s| == 3 then
      [Byte0(FromChar(s[0]), FromChar(s[1])), Byte1(FromChar(s[1]), FromChar(s[2]))]
    else FirstBytes(s) + Decoded(s[4..])
  }

  // The first group of an encoding, and the first three bytes of a decoding.
  function FirstGroup(s: seq<bv8>): seq<bv8>
    requires |s| >= 3
  {
    [ToChar(Group0(s[0])), ToChar(Group1(s[0], s[1])), ToChar(Group2(s[1], s[2])), ToChar(Group3(s[2]))]
  }

  function FirstBytes(s: seq<bv8>): seq<bv8>
    requires |s| >= 4
  {
    [Byte0(FromChar(s[0]), FromChar(s[1])), Byte1(FromChar(s[1]), FromChar(s[2])), Byte2(FromChar(s[2]), FromChar(s[3]))]
  }

  lemma FirstGroupSize(s: seq<bv8>)
    requires |s| >= 3
    ensures |FirstGroup(s)| == 4
  {}

  lemma EncodedStep(done: seq<bv8>, s: seq<bv8>)
    requires |s| >= 3
    ensures done + Encoded(s) == (done + FirstGroup(s)) + Encoded(s[3..])
    ensures |Encoded(s)| == 4 + |Encoded(s[3..])|
  {
    assert Encoded(s) == FirstGroup(s) + Encoded(s[3..]);
  }

  lemma DecodedStep(done: seq<bv8>, s: seq<bv8>)
    requires |s| >= 4
    ensures done + Decoded(s) == (done + FirstBytes(s)) + Decoded(s[4..])
    ensures |Decoded(s)| == 3 + |Decoded(s[4..])|
  {
    assert Decoded(s) == FirstBytes(s) + Decoded(s[4..]);
  }

  function EncodeLength(n: nat): nat { (n + 2) / 3 * 4 }

  lemma {:induction false} SizeEncoded(s: seq<bv8>)
    ensures |Encoded(s)| == EncodeLength(|s|)
  {
    if |s| >= 3 {
      SizeEncoded(s[3..]);
    }
  }

  lemma {:induction false} SizeDecoded(s: seq<bv8>)
    ensures |Decoded(s)| == DecodedLength(|s|)
  {
    if |s| >= 4 {
      SizeDecoded(s[4..]);
    }
  }

  // The test vectors of section 10 of RFC 4648 for "f", "fo", "foo" and "foob": "Zg==", "Zm8=", "Zm9v" and "Zm9vYg==".
  lemma Vectors()
    ensures Encoded([0x66]) == [0x5A, 0x67, 0x3D, 0x3D]
    ensures Encoded([0x66, 0x6F]) == [0x5A, 0x6D, 0x38, 0x3D]
    ensures Encoded([0x66, 0x6F, 0x6F]) == [0x5A, 0x6D, 0x39, 0x76]
    ensures Encoded([0x66, 0x6F, 0x6F, 0x62]) == [0x5A, 0x6D, 0x39, 0x76, 0x59, 0x67, 0x3D, 0x3D]
  {
    var foob: seq<bv8> := [0x66, 0x6F, 0x6F, 0x62];
    assert foob[3..] == [0x62];
  }

  // ----- the routines -----

  // The bytes of s stand at position o; nothing before o or behind them has changed.
  twostate predicate Wrote(output: array<bv8>, o: nat, s: seq<bv8>)
    reads output
  {
    && o + |s| <= output.Length
    && output[..o] == old(output[..o])
    && output[o..o + |s|] == s
    && forall k :: o + |s| <= k < output.Length ==> output[k] == old(output[k])
  }

  // The four assignments that write one group of characters at o.
  method PutGroup(output: array<bv8>, o: nat, c0: bv8, c1: bv8, c2: bv8, c3: bv8)
    requires o + 4 <= output.Length
    modifies output
    ensures Wrote(output, o, [c0, c1, c2, c3])
  {
    output[o] := c0;
    output[o + 1] := c1;
    output[o + 2] := c2;
    output[o + 3] := c3;
  }

  // The full sets of three bytes.
  method EncodeSets(input: array<bv8>, output: array<bv8>) returns (ghost done: seq<bv8>)
    requires input != output && output.Length > |Encoded(input[..])|
    modifies output
    ensures |done| == 4 * (input.Length / 3) && Wrote(output, 0, done)
    ensures Encoded(input[..]) == done + Encoded(input[3 * (input.Length / 3)..])
  {
    hide Encoded, FirstGroup;
    var fullSets := input.Length / 3;
    ghost var s := input[..];
    done := [];
    for i := 0 to fullSets
      invariant Encoded(s) == done + Encoded(s[3 * i..])
      invariant |done| == 4 * i && output[..4 * i] == done
      invariant forall k :: 4 * i <= k < output.Length ==> output[k] == old(output[k])
    {
      ghost var t := s[3 * i..];
      EncodedStep(done, t);
      FirstGroupSize(t);
      PutFullSet(input, 3 * i, output, 4 * i, t);
      assert output[..4 * i + 4] == output[..4 * i] + output[4 * i..4 * i + 4];
      assert t[3..] == s[3 * (i + 1)..];
      done := done + FirstGroup(t);
    }
    assert input[3 * fullSets..] == s[3 * fullSets..];
  }

  method Encode(input: array<bv8>, output: array<bv8>) returns (length: nat)
    requires input != output && output.Length > |Encoded(input[..])|
    modifies output
    ensures length == |Encoded(input[..])|
    ensures Wrote(output, 0, Encoded(input[..]) + [0])
  {
    hide Encoded;
    ghost var s := input[..];
    ghost var done := EncodeSets(input, output);
    var fullSets := input.Length / 3;
    ghost var tail := Encoded(input[3 * fullSets..]);
    EncodeTail(input, 3 * fullSets, output, 4 * fullSets);
    assert output[..|done| + |tail| + 1] == output[..|done|] + output[|done|..|done| + |tail| + 1];
    assert Encoded(s) + [0] == done + (tail + [0]);
    length := EncodeLength(input.Length);
    assert length == |Encoded(s)| by {
      SizeEncoded(s);
    }
  }

  // One full group of 24 bits.
  method PutFullSet(input: array<bv8>, p: nat, output: array<bv8>, o: nat, ghost t: seq<bv8>)
    requires input != output && o + 4 <= output.Length
    requires |t| >= 3 && p + 3 <= input.Length && t[..3] == input[p..p + 3]
    modifies output
    ensures Wrote(output, o, FirstGroup(t))
  {
    assert t[0] == t[..3][0] && t[1] == t[..3][1] && t[2] == t[..3][2];
    PutGroup(output, o, ToChar(Group0(input[p])), ToChar(Group1(input[p], input[p + 1])),
             ToChar(Group2(input[p + 1], input[p + 2])), ToChar(Group3(input[p + 2])));
  }

  // The padded last group, if any, and the terminator.
  method EncodeTail(input: array<bv8>, p: nat, output: array<bv8>, o: nat)
    requires input != output && p <= input.Length < p + 3 && o + |Encoded(input[p..])| < output.Length
    modifies output
    ensures Wrote(output, o, Encoded(input[p..]) + [0])
  {
    if p == input.Length {
      output[o] := 0;
    } else {
      if input.Length == p + 1 {
        PutGroup(output, o, ToChar(Group0(input[p])), ToChar(Group1(input[p], 0)), PAD, PAD);
      } else {
        PutGroup(output, o, ToChar(Group0(input[p])), ToChar(Group1(input[p], input[p + 1])),
                 ToChar(Group2(input[p + 1], 0)), PAD);
      }
      assert output[o..o + 4] == Encoded(input[p..]);
      output[o + 4] := 0;
      assert output[o..o + 5] == output[o..o + 4] + [0];
    }
  }

  // decode_base64_length: the input must hold a character outside the alphabet (its NUL).
  method DecodeLength(input: array<bv8>) returns (length: nat)
    requires RunLength(input[..]) < input.Length
    ensures length == |Decoded(input[..RunLength(input[..])])|
  {
    SizeDecoded(input[..RunLength(input[..])]);
    var n := 0;
    while FromChar(input[n]) < 64
      invariant n < input.Length && RunLength(input[..]) == n + RunLength(input[n..])
      decreases input.Length - n
    {
      assert input[n..][1..] == input[n + 1..];
      n := n + 1;
    }
    var outputLength := n / 4 * 3;
    if n % 4 == 2 {
      return outputLength + 1;
    } else if n % 4 == 3 {
      return outputLength + 2;
    } else {
      return outputLength;
    }
  }

  method Decode(input: array<bv8>, output: array<bv8>) returns (length: nat)
    requires input != output && RunLength(input[..]) < input.Length
    requires output.Length >= |Decoded(input[..RunLength(input[..])])|
    modifies output
    ensures length == |Decoded(input[..RunLength(input[..])])|
    ensures Wrote(output, 0, Decoded(input[..RunLength(input[..])]))
  {
    hide RunLength, Decoded, FromChar, Byte0, Byte1, Byte2;
    length := DecodeLength(input);
    ghost var s, done, rounds := input[..RunLength(input[..])], [], 0;
    var i, p, o := 2, 0, 0;
    while i < length
      invariant i == o + 2 && o == 3 * rounds && p <= |s| && length == o + |Decoded(s[p..])|
      invariant Decoded(s) == done + Decoded(s[p..])
      invariant |done| == o && output[..o] == done
      invariant forall k :: o <= k < output.Length ==> output[k] == old(output[k])
    {
      ghost var t := s[p..];
      ShortTail(t);
      DecodedStep(done, t);
      PutBytes(input, p, output, o, t);
      assert output[..o + 3] == output[..o] + output[o..o + 3];
      assert t[4..] == s[p + 4..];
      done, rounds := done + FirstBytes(t), rounds + 1;
      i, p, o := i + 3, p + 4, o + 3;
    }
    ShortTail(s[p..]);
    Mod3(length, rounds, |Decoded(s[p..])|);
    DecodeTail(input, p, output, o, length % 3, s[p..]);
    assert output[..length] == output[..o] + output[o..length];
  }

  // The three assignments that write one full group of bytes.
  method PutBytes(input: array<bv8>, p: nat, output: array<bv8>, o: nat, ghost t: seq<bv8>)
    requires input != output && o + 3 <= output.Length
    requires |t| >= 4 && p + 4 <= input.Length && t[..4] == input[p..p + 4]
    modifies output
    ensures Wrote(output, o, FirstBytes(t))
  {
    output[o] := Byte0(FromChar(input[p]), FromChar(input[p + 1]));
    output[o + 1] := Byte1(FromChar(input[p + 1]), FromChar(input[p + 2]));
    output[o + 2] := Byte2(FromChar(input[p + 2]), FromChar(input[p + 3]));
    assert t[0] == t[..4][0] && t[1] == t[..4][1] && t[2] == t[..4][2] && t[3] == t[..4][3];
  }

  // Fewer than four characters decode to at most two bytes, more to at least three.
  lemma ShortTail(s: seq<bv8>)
    ensures |s| < 4 <==> |Decoded(s)| <= 2
  {}

  lemma Mod3(n: nat, q: nat, r: nat)
    requires n == 3 * q + r && r < 3
    ensures n % 3 == r
  {}

  // The last one or two bytes.
  method DecodeTail(input: array<bv8>, p: nat, output: array<bv8>, o: nat, left: nat, ghost tail: seq<bv8>)
    requires input != output && p + |tail| <= input.Length && tail == input[p..p + |tail|] && |tail| < 4
    requires left == |Decoded(tail)| && o + left <= output.Length
    modifies output
    ensures Wrote(output, o, Decoded(tail))
  {
    if left == 1 {
      output[o] := Byte0(FromChar(input[p]), FromChar(input[p + 1]));
    } else if left == 2 {
      output[o] := Byte0(FromChar(input[p]), FromChar(input[p + 1]));
      output[o + 1] := Byte1(FromChar(input[p + 1]), FromChar(input[p + 2]));
    }
  }

  // ----- the round trip -----

  // The alphabet run at the front of an encoding decodes to the encoded bytes.
  lemma {:induction false} RunOfEncoding(s: seq<bv8>, end: seq<bv8>)
    requires end != [] && FromChar(end[0]) >= 64
    ensures var t := Encoded(s) + end;
            RunLength(t) < |t| && Decoded(t[..RunLength(t)]) == s
    decreases |s|
  {
    var t := Encoded(s) + end;
    if |s| == 0 {
      assert t == end;
    } else if |s| == 1 {
      assert s == [s[0]];
      OneByteTail(s[0], end);
    } else if |s| == 2 {
      assert s == [s[0], s[1]];
      TwoByteTail(s[0], s[1], end);
    } else {
      RunOfEncoding(s[3..], end);
      var rest := Encoded(s[3..]) + end;
      assert t == FirstGroup(s) + rest;
      GroupDecodes(s, rest);
    }
  }

  lemma PadEndsRun()
    ensures FromChar(PAD) >= 64
  {}

  lemma Run2(x: bv8, y: bv8, end: seq<bv8>)
    requires FromChar(x) < 64 && FromChar(y) < 64 && end != [] && FromChar(end[0]) >= 64
    ensures var t := [x, y] + end;
            RunLength(t) == 2 && t[..2] == [x, y]
  {
    ShortRun([x, y] + end, 2);
  }

  lemma Run3(x: bv8, y: bv8, z: bv8, end: seq<bv8>)
    requires FromChar(x) < 64 && FromChar(y) < 64 && FromChar(z) < 64 && end != [] && FromChar(end[0]) >= 64
    ensures var t := [x, y, z] + end;
            RunLength(t) == 3 && t[..3] == [x, y, z]
  {
    ShortRun([x, y, z] + end, 3);
  }

  lemma OneByteTail(a: bv8, end: seq<bv8>)
    ensures var t := Encoded([a]) + end;
            RunLength(t) == 2 && Decoded(t[..2]) == [a]
  {
    var p, q := Group0(a), Group1(a, 0);
    assert p < 64 && q < 64 && Byte0(p, q) == a by {
      GroupsAreSextets(a, 0, 0);
      GroupsRoundTrip(a, 0, 0);
    }
    OneByte(a, p, q, end);
  }

  lemma OneByte(a: bv8, p: bv8, q: bv8, end: seq<bv8>)
    requires p < 64 && q < 64 && Byte0(p, q) == a
    ensures var t := [ToChar(p), ToChar(q), PAD, PAD] + end;
            RunLength(t) == 2 && Decoded(t[..2]) == [a]
  {
    CharRoundTrip(p);
    CharRoundTrip(q);
    PadEndsRun();
    var x, y := ToChar(p), ToChar(q);
    assert [x, y, PAD, PAD] + end == [x, y] + ([PAD, PAD] + end);
    Run2(x, y, [PAD, PAD] + end);
  }

  lemma TwoByteTail(a: bv8, b: bv8, end: seq<bv8>)
    ensures var t := Encoded([a, b]) + end;
            RunLength(t) == 3 && Decoded(t[..3]) == [a, b]
  {
    var p, q, r := Group0(a), Group1(a, b), Group2(b, 0);
    assert p < 64 && q < 64 && r < 64 && Byte0(p, q) == a && Byte1(q, r) == b by {
      GroupsAreSextets(a, b, 0);
      GroupsRoundTrip(a, b, 0);
    }
    TwoBytes(a, b, p, q, r, end);
  }

  lemma TwoBytes(a: bv8, b: bv8, p: bv8, q: bv8, r: bv8, end: seq<bv8>)
    requires p < 64 && q < 64 && r < 64 && Byte0(p, q) == a && Byte1(q, r) == b
    ensures var t := [ToChar(p), ToChar(q), ToChar(r), PAD] + end;
            RunLength(t) == 3 && Decoded(t[..3]) == [a, b]
  {
    CharRoundTrip(p);
    CharRoundTrip(q);
    CharRoundTrip(r);
    PadEndsRun();
    var x, y, z := ToChar(p), ToChar(q), ToChar(r);
    assert [x, y, z, PAD] + end == [x, y, z] + ([PAD] + end);
    Run3(x, y, z, [PAD] + end);
  }

  lemma GroupDecodes(s: seq<bv8>, rest: seq<bv8>)
    requires |s| >= 3
    ensures var t := FirstGroup(s) + rest;
            RunLength(t) == 4 + RunLength(rest)
            && Decoded(t[..RunLength(t)]) == s[..3] + Decoded(rest[..RunLength(rest)])
  {
    var t := FirstGroup(s) + rest;
    var a, b, c := s[0], s[1], s[2];
    GroupsAreSextets(a, b, c);
    GroupsRoundTrip(a, b, c);
    CharRoundTrip(Group0(a));
    CharRoundTrip(Group1(a, b));
    CharRoundTrip(Group2(b, c));
    CharRoundTrip(Group3(c));
    assert t[4..] == rest;
    RunSkips4(t);
    var u := t[..RunLength(t)];
    assert u[4..] == rest[..RunLength(rest)];
    DecodedStep([], u);
    assert FirstBytes(u) == s[..3];
  }

  lemma {:induction false} ShortRun(t: seq<bv8>, n: nat)
    requires n < |t| && (forall i :: 0 <= i < n ==> FromChar(t[i]) < 64) && FromChar(t[n]) >= 64
    ensures RunLength(t) == n
  {
    if n > 0 {
      ShortRun(t[1..], n - 1);
    }
  }

  lemma RunSkips4(t: seq<bv8>)
    requires |t| >= 4 && forall i :: 0 <= i < 4 ==> FromChar(t[i]) < 64
    ensures RunLength(t) == 4 + RunLength(t[4..])
  {
    assert t[1..][1..] == t[2..] && t[2..][1..] == t[3..] && t[3..][1..] == t[4..];
    assert RunLength(t[3..]) == 1 + RunLength(t[4..]);
    assert RunLength(t[2..]) == 1 + RunLength(t[3..]);
    assert RunLength(t[1..]) == 1 + RunLength(t[2..]);
  }

  // Decoding what was encoded gives the bytes back, and the two length routines predict
  // both sizes. (A NUL ends the encoding.)
  lemma RoundTrip(s: seq<bv8>)
    ensures var t := Encoded(s) + [0];
            |Encoded(s)| == EncodeLength(|s|)
            && RunLength(t) < |t| && DecodedLength(RunLength(t)) == |s| && Decoded(t[..RunLength(t)]) == s
  {
    SizeEncoded(s);
    RunOfEncoding(s, [0]);
    var t := Encoded(s) + [0];
    SizeDecoded(t[..RunLength(t)]);
  }

  // Encoding loses nothing: different bytes have different encodings.
  lemma Injective(s: seq<bv8>, t: seq<bv8>)
    requires Encoded(s) == Encoded(t)
    ensures s == t
  {
    RoundTrip(s);
    RoundTrip(t);
  }
}
