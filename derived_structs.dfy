/** The structs of the derive tests, each with a codec consistent with the
    crate documentation (lib.rs:10-16) and the golden vectors (lib.rs:90-205):
    the fields are encoded in declaration order and framed by the struct's
    representation; decoding unframes the declared number of field nodes
    and decodes each field in turn. */
module DerivedStructs {
  import opened Clvm
  import opened ClvmInt
  import opened Primitives
  import opened Representation

  /** The fields `{ a: u64, b: i32 }` shared by the tuple, list and curry
      test structs, which differ only in their representation. */
  datatype NumberStruct = NumberStruct(a: u64, b: i32)

  function EncodeNumberStruct(repr: Repr, s: NumberStruct): Node {
    Frame(repr, [EncodeInteger(s.a), EncodeInteger(s.b)])
  }

  function DecodeNumberStruct(repr: Repr, node: Node): Result<NumberStruct> {
    var fields :- Unframe(repr, node, 2);
    var a :- DecodeU64(fields[0]);
    var b :- DecodeI32(fields[1]);
    Ok(NumberStruct(a, b))
  }

  /** `struct UnnamedStruct(String, String)`, tuple-framed. */
  datatype UnnamedStruct = UnnamedStruct(0: seq<u8>, 1: seq<u8>)

  function EncodeUnnamedStruct(s: UnnamedStruct): Node {
    Frame(Tuple, [EncodeBytes(s.0), EncodeBytes(s.1)])
  }

  function DecodeUnnamedStruct(node: Node): Result<UnnamedStruct> {
    var fields :- Unframe(Tuple, node, 2);
    var first :- DecodeBytes(fields[0]);
    var second :- DecodeBytes(fields[1]);
    Ok(UnnamedStruct(first, second))
  }

  /** `struct NewTypeStruct(String)`, tuple-framed. */
  datatype NewTypeStruct = NewTypeStruct(0: seq<u8>)

  function EncodeNewTypeStruct(s: NewTypeStruct): Node {
    Frame(Tuple, [EncodeBytes(s.0)])
  }

  function DecodeNewTypeStruct(node: Node): Result<NewTypeStruct> {
    var fields :- Unframe(Tuple, node, 1);
    var value :- DecodeBytes(fields[0]);
    Ok(NewTypeStruct(value))
  }

  /** `struct Point { x: i32, y: i32 }` of the crate documentation, tuple-framed. */
  datatype Point = Point(x: i32, y: i32)

  function EncodePoint(p: Point): Node {
    Frame(Tuple, [EncodeInteger(p.x), EncodeInteger(p.y)])
  }

  function DecodePoint(node: Node): Result<Point> {
    var fields :- Unframe(Tuple, node, 2);
    var x :- DecodeI32(fields[0]);
    var y :- DecodeI32(fields[1]);
    Ok(Point(x, y))
  }

  lemma NumberStructRoundTrip(repr: Repr, s: NumberStruct)
    ensures DecodeNumberStruct(repr, EncodeNumberStruct(repr, s)) == Ok(s)
  {
    UnframeFrame(repr, [EncodeInteger(s.a), EncodeInteger(s.b)]);
    IntegerRoundTrip(s.a);
    IntegerRoundTrip(s.b);
  }

  /** What a successful decode has read: two integer atoms, framed by repr. */
  lemma DecodedNumberStruct(repr: Repr, node: Node)
    requires DecodeNumberStruct(repr, node).Ok?
    ensures Unframe(repr, node, 2).Ok?
    ensures var fields := Unframe(repr, node, 2).value;
            var s := DecodeNumberStruct(repr, node).value;
            && Frame(repr, fields) == node
            && fields[0].Atom? && Signed(fields[0].bytes) == s.a
            && fields[1].Atom? && Signed(fields[1].bytes) == s.b
  {
    FrameUnframe(repr, node, 2);
  }

  /** A decoded struct encodes back to the very node it came from exactly
      when that node's integer atoms carry no redundant sign bytes. */
  lemma NumberStructReencode(repr: Repr, node: Node)
    requires DecodeNumberStruct(repr, node).Ok?
    ensures var fields := Unframe(repr, node, 2).value;
            EncodeNumberStruct(repr, DecodeNumberStruct(repr, node).value) == node
            <==> IsCanonical(fields[0].bytes) && IsCanonical(fields[1].bytes)
  {
    DecodedNumberStruct(repr, node);
    var fields := Unframe(repr, node, 2).value;
    var s := DecodeNumberStruct(repr, node).value;
    var encoded := [EncodeInteger(s.a), EncodeInteger(s.b)];
    if IsCanonical(fields[0].bytes) && IsCanonical(fields[1].bytes) {
      EncodeSignedCanonical(fields[0].bytes);
      EncodeSignedCanonical(fields[1].bytes);
      assert encoded == fields;
    } else {
      UnframeFrame(repr, encoded);
    }
  }

  lemma UnnamedStructRoundTrip(s: UnnamedStruct)
    ensures DecodeUnnamedStruct(EncodeUnnamedStruct(s)) == Ok(s)
  {
    UnframeFrame(Tuple, [EncodeBytes(s.0), EncodeBytes(s.1)]);
  }

  lemma NewTypeStructRoundTrip(s: NewTypeStruct)
    ensures DecodeNewTypeStruct(EncodeNewTypeStruct(s)) == Ok(s)
  {
    UnframeFrame(Tuple, [EncodeBytes(s.0)]);
  }

  lemma PointRoundTrip(p: Point)
    ensures DecodePoint(EncodePoint(p)) == Ok(p)
  {
    UnframeFrame(Tuple, [EncodeInteger(p.x), EncodeInteger(p.y)]);
    IntegerRoundTrip(p.x);
    IntegerRoundTrip(p.y);
  }

  /** "ff3481e0" */
  const TupleStructVector: Node := Pair(Atom([0x34]), Atom([0xe0]))
  /** "ff34ff81e080" */
  const ListStructVector: Node := Pair(Atom([0x34]), Pair(Atom([0xe0]), Atom([])))
  /** "ff04ffff0134ffff04ffff0181e0ff018080" */
  const CurryStructVector: Node :=
    Pair(Atom([0x04]), Pair(Pair(Atom([0x01]), Atom([0x34])),
      Pair(Pair(Atom([0x04]), Pair(Pair(Atom([0x01]), Atom([0xe0])), Pair(Atom([0x01]), Atom([])))),
        Atom([]))))
  /** "ff4142" */
  const UnnamedStructVector: Node := Pair(Atom([0x41]), Atom([0x42]))
  /** "8358595a" */
  const NewTypeStructVector: Node := Atom([0x58, 0x59, 0x5a])

  /** The struct `{ a: 52, b: -32 }` under each framing, and the string structs. */
  lemma StructVectors()
    ensures EncodeNumberStruct(Tuple, NumberStruct(52, -32)) == TupleStructVector
    ensures EncodeNumberStruct(List, NumberStruct(52, -32)) == ListStructVector
    ensures EncodeNumberStruct(Curry, NumberStruct(52, -32)) == CurryStructVector
    ensures EncodeUnnamedStruct(UnnamedStruct([0x41], [0x42])) == UnnamedStructVector
    ensures EncodeNewTypeStruct(NewTypeStruct([0x58, 0x59, 0x5a])) == NewTypeStructVector
  {
    IntegerVectors();
  }
}
