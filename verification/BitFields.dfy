/** Bit fields of a Berry `bytes()` buffer (getbits and setbits in be_byteslib.c):
    up to 32 bits at any bit offset, least significant bit first, across byte boundaries. */
module BitFields {
  import opened Bits
  import opened Wrappers

  // Bit j of the buffer: bit j % 8 of byte j / 8.
  predicate BufBit(buf: seq<Byte>, j: nat)
    requires j < 8 * |buf|
  {
    Bit(buf[j / 8], j % 8)
  }

  // The number whose bits, lowest first, are the w buffer bits from off on.
  function Field(buf: seq<Byte>, off: nat, w: nat): nat
    requires off + w <= 8 * |buf|
    decreases w
  {
    if w == 0 then 0 else (if BufBit(buf, off) then 1 else 0) + 2 * Field(buf, off + 1, w - 1)
  }

  lemma {:induction false} FieldBits(buf: seq<Byte>, off: nat, w: nat, i: nat)
    requires off + w <= 8 * |buf|
    ensures Field(buf, off, w) < Pow2(w)
    ensures i < w ==> (Bit(Field(buf, off, w), i) <==> BufBit(buf, off + i))
    decreases w
  {
    if w > 0 {
      FieldBits(buf, off + 1, w - 1, if i > 0 then i - 1 else 0);
    }
  }

  lemma FieldUnfold(buf: seq<Byte>, off: nat, w: nat)
    requires 0 < w && off + w <= 8 * |buf|
    ensures Field(buf, off, w) == (if BufBit(buf, off) then 1 else 0) + 2 * Field(buf, off + 1, w - 1)
    ensures Pow2(w) == 2 * Pow2(w - 1)
  {}

  lemma FieldEmpty(buf: seq<Byte>, off: nat)
    requires off <= 8 * |buf|
    ensures Field(buf, off, 0) == 0 && Pow2(0) == 1
  {}

  lemma Doubled(p: nat, x: nat)
    ensures 2 * (p * x) == (2 * p) * x
  {}

  // A longer field is the shorter one with the bits that follow it on top.
  lemma {:induction false} FieldSplit(buf: seq<Byte>, off: nat, m: nat, n: nat)
    requires off + m + n <= 8 * |buf|
    ensures Field(buf, off, m + n) == Field(buf, off, m) + Pow2(m) * Field(buf, off + m, n)
    decreases m
  {
    hide BufBit, Bit, Field, Pow2;
    FieldEmpty(buf, off);
    if m > 0 {
      FieldSplit(buf, off + 1, m - 1, n);
      FieldUnfold(buf, off, m);
      FieldUnfold(buf, off, m + n);
      Doubled(Pow2(m - 1), Field(buf, off + m, n));
    }
  }

  lemma EightBits()
    ensures Pow2(8) == 256
  {
    assert Pow2(4) == 16;
    Pow2Sum(4, 4);
  }

  // The field of one byte is the byte.
  lemma ByteField(buf: seq<Byte>, k: nat)
    requires k < |buf|
    ensures Field(buf, 8 * k, 8) == buf[k]
  {
    hide Field, Bit, Pow2;
    EightBits();
    forall i | 0 <= i < 8 ensures Bit(buf[k], i) <==> BufBit(buf, 8 * k + i) {
      assert (8 * k + i) / 8 == k && (8 * k + i) % 8 == i;
    }
    FieldIs(buf, 8 * k, 8, buf[k]);
  }

  // Fields of whole bytes are little-endian numbers.
  lemma WordField(buf: seq<Byte>, k: nat)
    requires k + 4 <= |buf|
    ensures Field(buf, 8 * k, 32)
            == buf[k] as int + 256 * (buf[k + 1] as int) + 65536 * (buf[k + 2] as int) + 16777216 * (buf[k + 3] as int)
  {
    hide Field, Pow2, Bit, BufBit;
    EightBits();
    ByteField(buf, k);
    ByteField(buf, k + 1);
    ByteField(buf, k + 2);
    ByteField(buf, k + 3);
    FieldSplit(buf, 8 * k, 8, 24);
    FieldSplit(buf, 8 * k + 8, 8, 16);
    FieldSplit(buf, 8 * k + 16, 8, 8);
  }

  // A number below 2^w with the field's bits is the field.
  lemma FieldIs(buf: seq<Byte>, off: nat, w: nat, x: nat)
    requires off + w <= 8 * |buf| && x < Pow2(w)
    requires forall i :: 0 <= i < w ==> (Bit(x, i) <==> BufBit(buf, off + i))
    ensures Field(buf, off, w) == x
  {
    FieldBits(buf, off, w, 0);
    forall i | 0 <= i < w ensures Bit(x, i) <==> Bit(Field(buf, off, w), i) {
      FieldBits(buf, off, w, i);
    }
    SameBits(x, Field(buf, off, w), w);
  }

  // The bits getbits takes from one byte: n bits at position p, moved up to position shift.
  function Piece(b: Byte, p: nat, n: nat, shift: nat): (r: nat)
    ensures r < Pow2(shift + n)
  {
    MaskIs(n, p);
    var a := And(b, Shl(Ones(n), p));
    ShrIsDiv(a, p);
    DivBelow(a, Pow2(p), Pow2(n));
    ShlBelow(Shr(a, p), n, shift);
    Shl(Shr(a, p), shift)
  }

  lemma MaskIs(n: nat, p: nat)
    ensures Shl(Ones(n), p) == (Pow2(n) - 1) * Pow2(p) == Pow2(n + p) - Pow2(p) >= 0
  {
    ShlIsTimes(Ones(n), p);
    Pow2Sum(n, p);
    assert (Pow2(n) - 1) * Pow2(p) == Pow2(n) * Pow2(p) - Pow2(p);
    assert Ones(n) * Pow2(p) >= 0;
  }

  lemma ShlBelow(x: nat, n: nat, shift: nat)
    requires x < Pow2(n)
    ensures 0 <= Shl(x, shift) < Pow2(shift + n)
  {
    ShlIsTimes(x, shift);
    Pow2Sum(shift, n);
    TimesBelow(x, Pow2(n), Pow2(shift));
  }

  lemma TimesBelow(x: nat, y: nat, d: nat)
    requires x < y && d > 0
    ensures 0 <= x * d < d * y
  {
    MultipleSize(d, y - x);
    assert d * (y - x) == d * y - d * x;
  }

  lemma DivBelow(a: nat, d: nat, n: nat)
    requires d > 0 && n > 0 && a <= (n - 1) * d
    ensures 0 <= a / d < n
  {
    var q := a / d;
    assert a == d * q + a % d;
    assert d * (q - (n - 1)) == d * q - d * (n - 1);
    MultipleSize(d, q - (n - 1));
  }

  lemma PieceBit(b: Byte, p: nat, n: nat, shift: nat, i: nat)
    ensures Bit(Piece(b, p, n, shift), i) <==> shift <= i < shift + n && Bit(b, p + (i - shift))
  {
    MaskIs(n, p);
    var m: nat := Shl(Ones(n), p);
    var a := And(b, m);
    BitOfShl(Shr(a, p), shift, i);
    if i >= shift {
      BitOfShr(a, p, i - shift);
      BitOfAnd(b, m, i - shift + p);
      BitOfShl(Ones(n), p, i - shift + p);
      BitOfOnes(n, i - shift);
    }
  }

  // One byte of setbits: n bits of the value replace those at position p.
  function Patched(b: Byte, p: nat, n: nat, val: int): (r: Byte)
    requires p + n <= 8
  {
    MaskFits(p, n);
    ShlBelow(And(val, Ones(n)), n, p);
    Pow2Grows(n + p, 8);
    OrBelow(And(b, 0xFF - Shl(Ones(n), p)), Shl(And(val, Ones(n)), p), 8);
    Or(And(b, 0xFF - Shl(Ones(n), p)), Shl(And(val, Ones(n)), p))
  }

  lemma MaskFits(p: nat, n: nat)
    requires p + n <= 8
    ensures 0 <= Shl(Ones(n), p) <= 0xFF && Pow2(8) == 256
  {
    MaskIs(n, p);
    Pow2Grows(n + p, 8);
    assert Pow2(8) == 2 * Pow2(7) == 4 * Pow2(6) == 8 * Pow2(5) == 16 * Pow2(4) == 32 * Pow2(3) == 64 * Pow2(2);
    assert Pow2(2) == 4;
  }

  lemma PatchedBit(b: Byte, p: nat, n: nat, val: int, i: nat)
    requires p + n <= 8 && i < 8
    ensures Bit(Patched(b, p, n, val), i) <==> if p <= i < p + n then Bit(val, i - p) else Bit(b, i)
  {
    MaskFits(p, n);
    var m: nat := Shl(Ones(n), p);
    var keep: nat := 0xFF - m;
    var field := And(val, Ones(n));
    ShlBelow(field, n, p);
    BitOfOr(And(b, keep), Shl(field, p), i);
    BitOfAnd(b, keep, i);
    assert Ones(8) == 0xFF;
    BitOfComplement(m, 8, i);
    BitOfShl(Ones(n), p, i);
    BitOfShl(field, p, i);
    if i >= p {
      BitOfOnes(n, i - p);
      BitOfAnd(val, Ones(n), i - p);
    }
  }

  // One round of the getbits loop extends the gathered bits by n.
  lemma GatheredBit(buf: seq<Byte>, off: nat, ret: nat, shift: nat, n: nat, ob: nat, p: nat, i: nat)
    requires ob < |buf| && p + n <= 8 && 8 * ob + p == off + shift && off + shift + n <= 8 * |buf|
    requires ret < Pow2(shift) && i < shift + n && (i < shift ==> (Bit(ret, i) <==> BufBit(buf, off + i)))
    ensures Bit(Or(ret, Piece(buf[ob], p, n, shift)), i) <==> BufBit(buf, off + i)
  {
    hide Or, Pow2, Piece;
    BitOfOr(ret, Piece(buf[ob], p, n, shift), i);
    PieceBit(buf[ob], p, n, shift, i);
    if i >= shift {
      HighBitsClear(ret, shift, i);
      assert off + i == 8 * ob + (p + (i - shift));
    }
  }

  lemma Gathered(buf: seq<Byte>, off: nat, ret: nat, shift: nat, n: nat, ob: nat, p: nat)
    requires ob < |buf| && p + n <= 8 && 8 * ob + p == off + shift && off + shift + n <= 8 * |buf|
    requires ret < Pow2(shift) && forall i :: 0 <= i < shift ==> (Bit(ret, i) <==> BufBit(buf, off + i))
    ensures Or(ret, Piece(buf[ob], p, n, shift)) < Pow2(shift + n)
    ensures forall i :: 0 <= i < shift + n ==> (Bit(Or(ret, Piece(buf[ob], p, n, shift)), i) <==> BufBit(buf, off + i))
  {
    hide Or, Piece, Bit, BufBit;
    var piece := Piece(buf[ob], p, n, shift);
    Pow2Grows(shift, shift + n);
    OrBelow(ret, piece, shift + n);
    forall i | 0 <= i < shift + n ensures Bit(Or(ret, piece), i) <==> BufBit(buf, off + i) {
      GatheredBit(buf, off, ret, shift, n, ob, p, i);
    }
  }

  // getbits: the w bits at bit offset off, or no value for a width outside 1..32 (value_error).
  method GetBits(buf: array<Byte>, off: nat, w: int) returns (r: Option<nat>)
    requires 0 < w <= 32 ==> off + w <= 8 * buf.Length
    ensures r.None? <==> w <= 0 || w > 32
    ensures r.Some? ==> r.value == Field(buf[..], off, w)
  {
    if w <= 0 || w > 32 {
      return None;
    }
    var ret: nat := 0;
    ShrIsDiv(off, 3);
    assert Pow2(3) == 8;
    var offsetBytes := Shr(off, 3);
    var offsetBits := off % 8;
    var bitShift: nat := 0;
    var lenBits := w;
    while lenBits > 0
      invariant 0 <= lenBits && bitShift + lenBits == w && 0 <= offsetBits < 8
      invariant lenBits > 0 ==> 8 * offsetBytes + offsetBits == off + bitShift
      invariant offsetBytes >= 0 && ret < Pow2(bitShift)
      invariant forall i :: 0 <= i < bitShift ==> (Bit(ret, i) <==> BufBit(buf[..], off + i))
    {
      var blockBits := 8 - offsetBits;
      if blockBits > lenBits {
        blockBits := lenBits;
      }
      Gathered(buf[..], off, ret, bitShift, blockBits, offsetBytes, offsetBits);
      ret := Or(ret, Piece(buf[offsetBytes], offsetBits, blockBits, bitShift));
      bitShift := bitShift + blockBits;
      lenBits := lenBits - blockBits;
      offsetBits := 0;
      offsetBytes := offsetBytes + 1;
    }
    FieldIs(buf[..], off, w, ret);
    return Some(ret);
  }

  // The buffer after writing the low w bits of val at off: those bits and no others changed.
  ghost predicate Written(before: seq<Byte>, after: seq<Byte>, off: nat, w: nat, val: int)
    requires off + w <= 8 * |before|
  {
    && |after| == |before|
    && forall j :: 0 <= j < 8 * |before| ==>
         (BufBit(after, j) <==> if off <= j < off + w then Bit(val, j - off) else BufBit(before, j))
  }

  // One round of the setbits loop extends the written field by n bits.
  lemma WrittenMore(before: seq<Byte>, after: seq<Byte>, off: nat, w: nat, val: int, n: nat, ob: nat, p: nat)
    requires off + w + n <= 8 * |before| && Written(before, after, off, w, val)
    requires ob < |before| && p + n <= 8 && 8 * ob + p == off + w
    ensures Written(before, after[ob := Patched(after[ob], p, n, Shr(val, w))], off, w + n, val)
  {
    var after' := after[ob := Patched(after[ob], p, n, Shr(val, w))];
    forall j | 0 <= j < 8 * |before|
      ensures BufBit(after', j) <==> if off <= j < off + w + n then Bit(val, j - off) else BufBit(before, j)
    {
      assert BufBit(after, j) <==> if off <= j < off + w then Bit(val, j - off) else BufBit(before, j);
      if j / 8 == ob {
        PatchedBit(after[ob], p, n, Shr(val, w), j % 8);
        if p <= j % 8 < p + n {
          BitOfShr(val, w, j % 8 - p);
        }
      }
    }
  }

  // setbits: writes the low w bits of val at bit offset off; false is a value_error.
  method SetBits(buf: array<Byte>, off: nat, w: int, val: int) returns (ok: bool)
    requires 0 <= w <= 32 ==> off + w <= 8 * buf.Length
    modifies buf
    ensures ok <==> 0 <= w <= 32
    ensures !ok ==> buf[..] == old(buf[..])
    ensures ok ==> Written(old(buf[..]), buf[..], off, w, val)
  {
    if w < 0 || w > 32 {
      return false;
    }
    ShrIsDiv(off, 3);
    assert Pow2(3) == 8;
    var offsetBytes := Shr(off, 3);
    var offsetBits := off % 8;
    var lenBits, v := w, val;
    ghost var done: nat := 0;
    while lenBits > 0
      invariant 0 <= lenBits && done + lenBits == w && 0 <= offsetBits < 8
      invariant lenBits > 0 ==> 8 * offsetBytes + offsetBits == off + done
      invariant offsetBytes >= 0 && v == Shr(val, done)
      invariant Written(old(buf[..]), buf[..], off, done, val)
    {
      var blockBits := 8 - offsetBits;
      if blockBits > lenBits {
        blockBits := lenBits;
      }
      WrittenMore(old(buf[..]), buf[..], off, done, val, blockBits, offsetBytes, offsetBits);
      buf[offsetBytes] := Patched(buf[offsetBytes], offsetBits, blockBits, v);
      ShrTwice(val, done, blockBits);
      v := Shr(v, blockBits);
      done := done + blockBits;
      lenBits := lenBits - blockBits;
      offsetBits := 0;
      offsetBytes := offsetBytes + 1;
    }
    return true;
  }

  // What getbits reads back after setbits at the same place is the value modulo 2^w.
  lemma ReadBack(before: seq<Byte>, after: seq<Byte>, off: nat, w: nat, val: int)
    requires off + w <= 8 * |before| && Written(before, after, off, w, val)
    ensures Field(after, off, w) == val % Pow2(w)
  {
    AndOnes(val, w);
    forall i | 0 <= i < w ensures Bit(And(val, Ones(w)), i) <==> BufBit(after, off + i) {
      BitOfAnd(val, Ones(w), i);
      BitOfOnes(w, i);
    }
    FieldIs(after, off, w, And(val, Ones(w)));
  }

  // A field that does not overlap the written one reads as before.
  lemma {:induction false} OtherFieldsKept(before: seq<Byte>, after: seq<Byte>, off: nat, w: nat, val: int, o: nat, n: nat)
    requires off + w <= 8 * |before| && Written(before, after, off, w, val)
    requires o + n <= 8 * |before| && (o + n <= off || off + w <= o)
    ensures Field(after, o, n) == Field(before, o, n)
    decreases n
  {
    if n > 0 {
      OtherFieldsKept(before, after, off, w, val, o + 1, n - 1);
      assert BufBit(after, o) <==> BufBit(before, o);
    }
  }
}
