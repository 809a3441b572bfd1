/** Integer atoms.

    An integer is stored as the shortest big-endian two's-complement byte
    string that still reads back as the same value: zero is the empty atom,
    and a leading 00 (before a byte whose high bit is clear) or ff (before a
    byte whose high bit is set) never appears, because it only repeats the
    sign. */
module ClvmInt {
  import opened Clvm

  /** The value of a big-endian two's-complement byte string; the empty string is 0. */
  function Signed(b: seq<u8>): int
    decreases |b|
  {
    if |b| == 0 then 0
    else if |b| == 1 then (if b[0] < 0x80 then b[0] else b[0] - 0x100)
    else Signed(b[..|b| - 1]) * 0x100 + b[|b| - 1]
  }

  predicate FitsOneByte(v: int) {
    -0x80 <= v < 0x80
  }

  /** The magnitude bound of a k-byte two's-complement value, 2^(8k-1). */
  function SignBound(k: nat): (r: int)
    requires k >= 1
    ensures r >= 0x80
  {
    if k == 1 then 0x80 else 0x100 * SignBound(k - 1)
  }

  /** The two's complement of v in as few bytes as possible, but at least one. */
  function TwosComplement(v: int): (r: seq<u8>)
    ensures |r| >= 1
    ensures |r| == 1 <==> FitsOneByte(v)
    decreases if v < 0 then -v else v
  {
    if FitsOneByte(v) then [v % 0x100]
    else TwosComplement(v / 0x100) + [v % 0x100]
  }

  /** The atom of an integer: zero is the empty atom, any other value its minimal two's complement. */
  function EncodeInt(v: int): (r: seq<u8>)
    ensures r == [] <==> v == 0
  {
    if v == 0 then [] else TwosComplement(v)
  }

  /** No leading byte that merely repeats the sign of the byte after it. */
  predicate NoSignPadding(b: seq<u8>) {
    |b| < 2 || !((b[0] == 0x00 && b[1] < 0x80) || (b[0] == 0xff && b[1] >= 0x80))
  }

  /** The atoms that the encoder produces. */
  predicate IsCanonical(b: seq<u8>) {
    b != [0x00] && NoSignPadding(b)
  }

  lemma {:induction false} SignedTwosComplement(v: int)
    ensures Signed(TwosComplement(v)) == v
    decreases if v < 0 then -v else v
  {
    if !FitsOneByte(v) {
      var r := TwosComplement(v);
      assert r[..|r| - 1] == TwosComplement(v / 0x100);
      SignedTwosComplement(v / 0x100);
    }
  }

  /** Reading an encoded integer back gives the integer. */
  lemma DecodeEncodeInt(v: int)
    ensures Signed(EncodeInt(v)) == v
  {
    if v != 0 {
      SignedTwosComplement(v);
    }
  }

  lemma {:induction false} TwosComplementUnpadded(v: int)
    ensures NoSignPadding(TwosComplement(v))
    decreases if v < 0 then -v else v
  {
    if !FitsOneByte(v) {
      var q := v / 0x100;
      TwosComplementUnpadded(q);
      if FitsOneByte(q) {
        assert v == q * 0x100 + v % 0x100;
      }
    }
  }

  /** The encoder never pads and never writes zero as a byte. */
  lemma EncodeIntCanonical(v: int)
    ensures IsCanonical(EncodeInt(v))
  {
    if v != 0 {
      TwosComplementUnpadded(v);
    }
  }

  /** A string of two or more bytes without sign padding needs all of them. */
  lemma {:induction false} UnpaddedIsWide(b: seq<u8>)
    requires |b| >= 2 && NoSignPadding(b)
    ensures !FitsOneByte(Signed(b))
    decreases |b|
  {
    var p := b[..|b| - 1];
    if |b| > 2 {
      assert p[0] == b[0] && p[1] == b[1];
      UnpaddedIsWide(p);
    }
  }

  lemma {:induction false} TwosComplementSigned(b: seq<u8>)
    requires |b| >= 1 && NoSignPadding(b)
    ensures TwosComplement(Signed(b)) == b
    decreases |b|
  {
    if |b| >= 2 {
      var p := b[..|b| - 1];
      var v := Signed(b);
      UnpaddedIsWide(b);
      assert v / 0x100 == Signed(p) && v % 0x100 == b[|b| - 1];
      if |p| >= 2 {
        assert p[0] == b[0] && p[1] == b[1];
      }
      TwosComplementSigned(p);
      assert b == p + [b[|b| - 1]];
    }
  }

  /** Every canonical atom is the encoding of the integer it denotes, so the
      encoder is a bijection between integers and canonical atoms. */
  lemma EncodeSignedCanonical(b: seq<u8>)
    requires IsCanonical(b)
    ensures EncodeInt(Signed(b)) == b
  {
    if |b| == 1 {
      TwosComplementSigned(b);
    } else if |b| >= 2 {
      UnpaddedIsWide(b);
      TwosComplementSigned(b);
    }
  }

  /** A value within the k-byte two's-complement range needs at most k bytes. */
  lemma {:induction false} TwosComplementLength(v: int, k: nat)
    requires k >= 1 && -SignBound(k) <= v < SignBound(k)
    ensures |TwosComplement(v)| <= k
    decreases k
  {
    if !FitsOneByte(v) {
      assert k >= 2;
      TwosComplementLength(v / 0x100, k - 1);
    }
  }

  /** A k-byte two's-complement string denotes a value within the k-byte range. */
  lemma {:induction false} SignedRange(b: seq<u8>)
    requires |b| >= 1
    ensures -SignBound(|b|) <= Signed(b) < SignBound(|b|)
    decreases |b|
  {
    if |b| >= 2 {
      SignedRange(b[..|b| - 1]);
    }
  }

  /** Every unsigned 64-bit value fits an atom of at most nine bytes. */
  lemma U64AtomLength(v: int)
    requires 0 <= v < 0x1_0000_0000_0000_0000
    ensures |EncodeInt(v)| <= 9
  {
    if v != 0 {
      assert SignBound(9) == 0x80_0000_0000_0000_0000 by {
        assert SignBound(2) == 0x8000;
        assert SignBound(4) == 0x8000_0000;
        assert SignBound(6) == 0x8000_0000_0000;
        assert SignBound(8) == 0x8000_0000_0000_0000;
      }
      TwosComplementLength(v, 9);
    }
  }

  /** The integers of the tests and the shortest-form examples. */
  lemma IntegerVectors()
    ensures EncodeInt(0) == []
    ensures EncodeInt(52) == [0x34] && EncodeInt(94) == [0x5e] && EncodeInt(32) == [0x20]
    ensures EncodeInt(-32) == [0xe0] && EncodeInt(-72) == [0xb8] && EncodeInt(-1) == [0xff]
    ensures EncodeInt(42) == [0x2a] && EncodeInt(34) == [0x22] && EncodeInt(11) == [0x0b]
    ensures EncodeInt(128) == [0x00, 0x80] && EncodeInt(-129) == [0xff, 0x7f]
  {
    assert TwosComplement(0) == [0];
    assert TwosComplement(-1) == [0xff];
  }
}
