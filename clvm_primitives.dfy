/** Codecs of the built-in field types the derived codecs use: fixed-width
    integers, byte strings and 32-byte arrays.

    Decoding an integer reads the atom as two's complement and accepts it
    when that value lies in the target type's range; an atom with redundant
    sign bytes is therefore read as the value it denotes. */
module Primitives {
  import opened Clvm
  import opened ClvmInt

  type u64 = x: int | 0 <= x < 0x1_0000_0000_0000_0000
  type i32 = x: int | -0x8000_0000 <= x < 0x8000_0000

  /** A `[u8; 32]`. */
  type Bytes32 = b: seq<u8> | |b| == 32 witness seq(32, _ => 0)

  function EncodeInteger(v: int): (n: Node)
    ensures n.Atom? && Signed(n.bytes) == v && IsCanonical(n.bytes)
  {
    DecodeEncodeInt(v);
    EncodeIntCanonical(v);
    Atom(EncodeInt(v))
  }

  /** Decodes an integer of the range lo <= v < hi, a type `width` bytes wide. */
  function DecodeInteger(n: Node, lo: int, hi: int, width: nat): (r: Result<int>)
    ensures r.Ok? <==> n.Atom? && lo <= Signed(n.bytes) < hi
    ensures r.Ok? ==> r.value == Signed(n.bytes)
    ensures n.Pair? ==> r == Err(ExpectedAtom)
  {
    match n
    case Pair(_, _) => Err(ExpectedAtom)
    case Atom(b) =>
      var v := Signed(b);
      if lo <= v < hi then Ok(v) else Err(WrongAtomLength(width, |b|))
  }

  function DecodeU8(n: Node): (r: Result<u8>)
    ensures r.Ok? <==> n.Atom? && 0 <= Signed(n.bytes) < 0x100
    ensures r.Ok? ==> r.value == Signed(n.bytes)
  {
    match DecodeInteger(n, 0, 0x100, 1)
    case Ok(v) => Ok(v)
    case Err(e) => Err(e)
  }

  function DecodeU64(n: Node): (r: Result<u64>)
    ensures r.Ok? <==> n.Atom? && 0 <= Signed(n.bytes) < 0x1_0000_0000_0000_0000
    ensures r.Ok? ==> r.value == Signed(n.bytes)
  {
    match DecodeInteger(n, 0, 0x1_0000_0000_0000_0000, 8)
    case Ok(v) => Ok(v)
    case Err(e) => Err(e)
  }

  function DecodeI32(n: Node): (r: Result<i32>)
    ensures r.Ok? <==> n.Atom? && -0x8000_0000 <= Signed(n.bytes) < 0x8000_0000
    ensures r.Ok? ==> r.value == Signed(n.bytes)
  {
    match DecodeInteger(n, -0x8000_0000, 0x8000_0000, 4)
    case Ok(v) => Ok(v)
    case Err(e) => Err(e)
  }

  /** A byte string (the tests' `String`s, as their ASCII bytes) is its own atom. */
  function EncodeBytes(b: seq<u8>): (n: Node)
    ensures n.Atom? && n.bytes == b
  {
    Atom(b)
  }

  function DecodeBytes(n: Node): (r: Result<seq<u8>>)
    ensures r.Ok? <==> n.Atom?
    ensures r.Ok? ==> EncodeBytes(r.value) == n
  {
    match n
    case Atom(b) => Ok(b)
    case Pair(_, _) => Err(ExpectedAtom)
  }

  /** A fixed 32-byte array accepts an atom of exactly 32 bytes and nothing else. */
  function DecodeBytes32(n: Node): (r: Result<Bytes32>)
    ensures r.Ok? <==> n.Atom? && |n.bytes| == 32
    ensures r.Ok? ==> EncodeBytes(r.value) == n
    ensures n.Atom? && |n.bytes| != 32 ==> r == Err(WrongAtomLength(32, |n.bytes|))
  {
    match n
    case Pair(_, _) => Err(ExpectedAtom)
    case Atom(b) => if |b| == 32 then Ok(b) else Err(WrongAtomLength(32, |b|))
  }

  /** Each integer type gives back every value of its range. */
  lemma IntegerRoundTrip(v: int)
    ensures 0 <= v < 0x100 ==> DecodeU8(EncodeInteger(v)) == Ok(v)
    ensures 0 <= v < 0x1_0000_0000_0000_0000 ==> DecodeU64(EncodeInteger(v)) == Ok(v)
    ensures -0x8000_0000 <= v < 0x8000_0000 ==> DecodeI32(EncodeInteger(v)) == Ok(v)
  {
  }

  /** An integer decoder rejects exactly the values outside its type. */
  lemma IntegerOutOfRange(v: int)
    ensures !(0 <= v < 0x100) ==> DecodeU8(EncodeInteger(v)) == Err(WrongAtomLength(1, |EncodeInt(v)|))
    ensures !(0 <= v < 0x1_0000_0000_0000_0000) ==> DecodeU64(EncodeInteger(v)) == Err(WrongAtomLength(8, |EncodeInt(v)|))
    ensures !(-0x8000_0000 <= v < 0x8000_0000) ==> DecodeI32(EncodeInteger(v)) == Err(WrongAtomLength(4, |EncodeInt(v)|))
  {
  }

  lemma BytesRoundTrip(b: seq<u8>)
    ensures DecodeBytes(EncodeBytes(b)) == Ok(b)
    ensures |b| == 32 ==> DecodeBytes32(EncodeBytes(b)) == Ok(b)
  {
  }

  /** No unsigned 64-bit integer atom is long enough to pass as a 32-byte array. */
  lemma U64IsNotBytes32(v: u64)
    ensures |EncodeInteger(v).bytes| <= 9
    ensures DecodeBytes32(EncodeInteger(v)).Err?
  {
    U64AtomLength(v);
  }
}
