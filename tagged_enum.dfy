/** The tagged enum of the derive tests,
    `enum Enum { A(i32), B { x: i32 }, C }` with tuple-framed payloads,
    under the two discriminant tables the tests give it: the defaults
    0, 1, 2 and the explicit `A = 42, B = 34, C = 11` of `#[repr(u8)]`. */
module TaggedEnum {
  import opened Clvm
  import opened ClvmInt
  import opened Primitives
  import opened Representation
  import opened EnumDispatch

  datatype Enum = A(0: i32) | B(x: i32) | C

  const DefaultTable: seq<int> := DefaultDiscriminants(3)
  const ExplicitTable: seq<int> := [42, 34, 11]

  /** The position of the variant in declaration order. */
  function VariantIndexOf(e: Enum): (i: nat)
    ensures i < 3
  {
    match e
    case A(_) => 0
    case B(_) => 1
    case C => 2
  }

  /** The variant's field nodes; the unit variant has none. */
  function Fields(e: Enum): seq<Node> {
    match e
    case A(v) => [EncodeInteger(v)]
    case B(x) => [EncodeInteger(x)]
    case C => []
  }

  function EncodeEnum(table: seq<int>, e: Enum): Node
    requires |table| == 3
  {
    EncodeTagged(table, VariantIndexOf(e), Frame(Tuple, Fields(e)))
  }

  function DecodeEnum(table: seq<int>, node: Node): Result<Enum>
    requires |table| == 3
  {
    var tagged :- DecodeTagged(table, node);
    var payload := tagged.1;
    if tagged.0 == 0 then
      var fields :- Unframe(Tuple, payload, 1);
      var v :- DecodeI32(fields[0]);
      Ok(A(v))
    else if tagged.0 == 1 then
      var fields :- Unframe(Tuple, payload, 1);
      var x :- DecodeI32(fields[0]);
      Ok(B(x))
    else
      var _ :- Unframe(Tuple, payload, 0);
      Ok(C)
  }

  lemma TablesValid()
    ensures ValidDiscriminants(DefaultTable) && ValidDiscriminants(ExplicitTable)
  {
  }

  lemma EnumRoundTrip(table: seq<int>, e: Enum)
    requires |table| == 3 && ValidDiscriminants(table)
    ensures DecodeEnum(table, EncodeEnum(table, e)) == Ok(e)
  {
    DecodeEncodeTagged(table, VariantIndexOf(e), Frame(Tuple, Fields(e)));
    UnframeFrame(Tuple, Fields(e));
    match e
    case A(v) => IntegerRoundTrip(v);
    case B(x) => IntegerRoundTrip(x);
    case C =>
  }

  /** A tag outside the table is an error, not the first or last variant. */
  lemma EnumUnknownTag(payload: Node)
    ensures DecodeEnum(DefaultTable, Pair(Atom([3]), payload)) == Err(WrongDiscriminant(3))
    ensures DecodeEnum(ExplicitTable, Pair(Atom([]), payload)) == Err(WrongDiscriminant(0))
  {
    UnknownDiscriminantRejected(DefaultTable, Pair(Atom([3]), payload));
    UnknownDiscriminantRejected(ExplicitTable, Pair(Atom([]), payload));
  }

  /** "ff8020", "ff0181b8", "ff0280" */
  const DefaultVectors: seq<Node> :=
    [Pair(Atom([]), Atom([0x20])), Pair(Atom([0x01]), Atom([0xb8])), Pair(Atom([0x02]), Atom([]))]
  /** "ff2a20", "ff2281b8", "ff0b80" */
  const ExplicitVectors: seq<Node> :=
    [Pair(Atom([0x2a]), Atom([0x20])), Pair(Atom([0x22]), Atom([0xb8])), Pair(Atom([0x0b]), Atom([]))]

  lemma EnumVectors()
    ensures [EncodeEnum(DefaultTable, A(32)), EncodeEnum(DefaultTable, B(-72)), EncodeEnum(DefaultTable, C)]
            == DefaultVectors
    ensures [EncodeEnum(ExplicitTable, A(32)), EncodeEnum(ExplicitTable, B(-72)), EncodeEnum(ExplicitTable, C)]
            == ExplicitVectors
  {
    IntegerVectors();
    assert EncodeInt(1) == [1] && EncodeInt(2) == [2];
  }
}
