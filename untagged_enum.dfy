/** The untagged enum of the derive tests:
    `#[clvm(tuple, untagged)] enum Enum { A(i32), #[clvm(list)] B { x: i32, y: i32 },
    #[clvm(curry)] C { curried_value: String } }`. A variant is encoded as
    its payload alone, each variant framed by its own representation. */
module UntaggedEnum {
  import opened Clvm
  import opened ClvmInt
  import opened Primitives
  import opened Representation
  import opened EnumDispatch

  datatype Enum = A(0: i32) | B(x: i32, y: i32) | C(curriedValue: seq<u8>)

  function EncodeEnum(e: Enum): Node {
    match e
    case A(v) => Frame(Tuple, [EncodeInteger(v)])
    case B(x, y) => Frame(List, [EncodeInteger(x), EncodeInteger(y)])
    case C(s) => Frame(Curry, [EncodeBytes(s)])
  }

  function DecodeA(node: Node): Result<Enum> {
    var fields :- Unframe(Tuple, node, 1);
    var v :- DecodeI32(fields[0]);
    Ok(A(v))
  }

  function DecodeB(node: Node): Result<Enum> {
    var fields :- Unframe(List, node, 2);
    var x :- DecodeI32(fields[0]);
    var y :- DecodeI32(fields[1]);
    Ok(B(x, y))
  }

  function DecodeC(node: Node): Result<Enum> {
    var fields :- Unframe(Curry, node, 1);
    var s :- DecodeBytes(fields[0]);
    Ok(C(s))
  }

  /** The variants are tried in declaration order. */
  function DecodeEnum(node: Node): Result<Enum> {
    FirstSuccess([DecodeA(node), DecodeB(node), DecodeC(node)])
  }

  lemma DecodeVariantOwnEncoding(e: Enum)
    ensures e.A? ==> DecodeA(EncodeEnum(e)) == Ok(e)
    ensures e.B? ==> DecodeB(EncodeEnum(e)) == Ok(e)
    ensures e.C? ==> DecodeC(EncodeEnum(e)) == Ok(e)
  {
    match e
    case A(v) =>
      UnframeFrame(Tuple, [EncodeInteger(v)]);
      IntegerRoundTrip(v);
    case B(x, y) =>
      UnframeFrame(List, [EncodeInteger(x), EncodeInteger(y)]);
      IntegerRoundTrip(x);
      IntegerRoundTrip(y);
    case C(s) =>
      UnframeFrame(Curry, [EncodeBytes(s)]);
  }

  /** Trial decoding in declaration order recovers the variant that was
      encoded: no earlier variant accepts a later variant's payload. */
  lemma EnumRoundTrip(e: Enum)
    ensures DecodeEnum(EncodeEnum(e)) == Ok(e)
  {
    DecodeVariantOwnEncoding(e);
    var n := EncodeEnum(e);
    var attempts := [DecodeA(n), DecodeB(n), DecodeC(n)];
    match e
    case A(_) =>
      FirstSuccessPicksFirst(attempts, 0);
    case B(_, _) =>
      assert DecodeA(n).Err?;
      FirstSuccessPicksFirst(attempts, 1);
    case C(s) =>
      assert DecodeA(n).Err?;
      assert Unlist(n, 2).Err?;
      FirstSuccessPicksFirst(attempts, 2);
  }

  /** "20" */
  const VectorA: Node := Atom([0x20])
  /** "ff81b8ff5e80" */
  const VectorB: Node := Pair(Atom([0xb8]), Pair(Atom([0x5e]), Atom([])))
  /** "ff04ffff018548656c6c6fff0180" */
  const VectorC: Node :=
    Pair(Atom([0x04]), Pair(Pair(Atom([0x01]), Atom([0x48, 0x65, 0x6c, 0x6c, 0x6f])), Pair(Atom([0x01]), Atom([]))))

  lemma EnumVectors()
    ensures EncodeEnum(A(32)) == VectorA
    ensures EncodeEnum(B(-72, 94)) == VectorB
    ensures EncodeEnum(C([0x48, 0x65, 0x6c, 0x6c, 0x6f])) == VectorC
  {
    IntegerVectors();
  }
}
