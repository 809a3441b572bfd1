/** The wallet's `Proof`: a lineage proof or an eve proof, each a
    list-framed struct, combined by a hand-written untagged codec. Encoding
    emits the inner proof's encoding unchanged; decoding tries
    `LineageProof` first and falls back to `EveProof`, whose result (an
    error included) is then the answer.

    Decoding is a function of the node alone, so the failed lineage attempt
    can leave nothing behind that the eve attempt could observe. */
module WalletProof {
  import opened Clvm
  import opened Primitives
  import opened Representation

  datatype LineageProof = LineageProof(parentCoinInfo: Bytes32, innerPuzzleHash: Bytes32, amount: u64)

  datatype EveProof = EveProof(parentCoinInfo: Bytes32, amount: u64)

  datatype Proof = Lineage(lineage: LineageProof) | Eve(eve: EveProof)

  function LineageFields(l: LineageProof): seq<Node> {
    [EncodeBytes(l.parentCoinInfo), EncodeBytes(l.innerPuzzleHash), EncodeInteger(l.amount)]
  }

  function EncodeLineageProof(l: LineageProof): Node {
    Frame(List, LineageFields(l))
  }

  function DecodeLineageProof(node: Node): Result<LineageProof> {
    var fields :- Unframe(List, node, 3);
    var parentCoinInfo :- DecodeBytes32(fields[0]);
    var innerPuzzleHash :- DecodeBytes32(fields[1]);
    var amount :- DecodeU64(fields[2]);
    Ok(LineageProof(parentCoinInfo, innerPuzzleHash, amount))
  }

  function EveFields(e: EveProof): seq<Node> {
    [EncodeBytes(e.parentCoinInfo), EncodeInteger(e.amount)]
  }

  function EncodeEveProof(e: EveProof): Node {
    Frame(List, EveFields(e))
  }

  function DecodeEveProof(node: Node): Result<EveProof> {
    var fields :- Unframe(List, node, 2);
    var parentCoinInfo :- DecodeBytes32(fields[0]);
    var amount :- DecodeU64(fields[1]);
    Ok(EveProof(parentCoinInfo, amount))
  }

  function EncodeProof(p: Proof): Node {
    match p
    case Lineage(l) => EncodeLineageProof(l)
    case Eve(e) => EncodeEveProof(e)
  }

  function DecodeProof(node: Node): Result<Proof> {
    DecodeLineageProof(node).Map(l => Lineage(l))
      .OrElse(DecodeEveProof(node).Map(e => Eve(e)))
  }

  lemma LineageProofRoundTrip(l: LineageProof)
    ensures DecodeLineageProof(EncodeLineageProof(l)) == Ok(l)
  {
    UnframeFrame(List, LineageFields(l));
    BytesRoundTrip(l.parentCoinInfo);
    BytesRoundTrip(l.innerPuzzleHash);
    IntegerRoundTrip(l.amount);
  }

  lemma EveProofRoundTrip(e: EveProof)
    ensures DecodeEveProof(EncodeEveProof(e)) == Ok(e)
  {
    UnframeFrame(List, EveFields(e));
    BytesRoundTrip(e.parentCoinInfo);
    IntegerRoundTrip(e.amount);
  }

  /** The second element of an eve proof is its amount, an atom of at most
      nine bytes, which can never be read as the 32-byte inner puzzle hash. */
  lemma EveAmountIsNotAHash(e: EveProof)
    ensures var second := EveFields(e)[1];
            second.Atom? && |second.bytes| <= 9 && DecodeBytes32(second).Err?
  {
    U64IsNotBytes32(e.amount);
  }

  /** No eve proof's encoding decodes as a lineage proof, whichever check
      comes first: it is a two-element list, not a three-element one, and
      its second element is not a 32-byte atom. */
  lemma EveIsNeverLineage(e: EveProof)
    ensures Unlist(EncodeEveProof(e), 3).Err?
    ensures DecodeBytes32(EveFields(e)[1]).Err?
    ensures DecodeLineageProof(EncodeEveProof(e)).Err?
  {
    EveAmountIsNotAHash(e);
    var f := EveFields(e);
    assert f[1..][1..] == [];
    assert ListOf(f[1..]) == Pair(f[1], Nil);
    assert EncodeEveProof(e) == Pair(f[0], Pair(f[1], Nil));
  }

  /** Decoding a proof's encoding gives back the same proof. */
  lemma ProofRoundTrip(p: Proof)
    ensures DecodeProof(EncodeProof(p)) == Ok(p)
  {
    match p
    case Lineage(l) =>
      LineageProofRoundTrip(l);
    case Eve(e) =>
      EveIsNeverLineage(e);
      EveProofRoundTrip(e);
  }

  /** The proof's encoding is the inner proof's list with no tag: three
      elements for a lineage proof, two for an eve proof. */
  lemma ProofListShape(p: Proof)
    ensures p.Lineage? ==> ListElements(EncodeProof(p)) == Some(LineageFields(p.lineage))
    ensures p.Eve? ==> ListElements(EncodeProof(p)) == Some(EveFields(p.eve))
  {
    match p
    case Lineage(l) => ListElementsOf(LineageFields(l));
    case Eve(e) => ListElementsOf(EveFields(e));
  }

  /** Whenever the lineage attempt succeeds, its result is the answer. */
  lemma LineageTriedFirst(node: Node)
    requires DecodeLineageProof(node).Ok?
    ensures DecodeProof(node) == Ok(Lineage(DecodeLineageProof(node).value))
  {
  }

  /** Once the lineage attempt fails, the answer is the eve attempt's,
      including its error when both fail. */
  lemma EveDecidesOtherwise(node: Node)
    requires DecodeLineageProof(node).Err?
    ensures DecodeEveProof(node).Ok? ==> DecodeProof(node) == Ok(Eve(DecodeEveProof(node).value))
    ensures DecodeEveProof(node).Err? ==> DecodeProof(node) == Err(DecodeEveProof(node).error)
  {
  }

  /** A node decodes as a lineage proof only if it is a three-element list,
      and as an eve proof only if it is a two-element list. */
  lemma DecodedProofShape(node: Node)
    requires DecodeProof(node).Ok?
    ensures ListElements(node).Some?
    ensures |ListElements(node).value| == if DecodeProof(node).value.Lineage? then 3 else 2
  {
    if DecodeLineageProof(node).Ok? {
      FrameUnframe(List, node, 3);
      ListElementsOf(Unframe(List, node, 3).value);
    } else {
      FrameUnframe(List, node, 2);
      ListElementsOf(Unframe(List, node, 2).value);
    }
  }
}
