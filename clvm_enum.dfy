/** Enum dispatch.

    A tagged enum encodes a variant as the pair `(discriminant . payload)`,
    the discriminant an integer atom read back as the enum's `repr` type
    (here `u8`). Discriminants are 0, 1, 2, ... in declaration order unless
    a variant gives its own with `= n`.

    An untagged enum encodes a variant as its payload alone; decoding tries
    the variants in declaration order, keeps the first success and otherwise
    reports the error of the last variant tried. */
module EnumDispatch {
  import opened Clvm
  import opened ClvmInt
  import opened Primitives

  /** The discriminants of an enum whose n variants give none of their own. */
  function DefaultDiscriminants(n: nat): (t: seq<int>)
    ensures |t| == n && forall i :: 0 <= i < n ==> t[i] == i
  {
    seq(n, i => i)
  }

  /** A discriminant table of a `#[repr(u8)]` enum: each value fits the
      repr type and no two variants share one. */
  predicate ValidDiscriminants(t: seq<int>) {
    && (forall i :: 0 <= i < |t| ==> 0 <= t[i] < 0x100)
    && (forall i, j :: 0 <= i < j < |t| ==> t[i] != t[j])
  }

  /** The first variant whose discriminant is d. */
  function VariantIndex(t: seq<int>, d: int): (r: Option<nat>)
    ensures r.Some? ==> r.value < |t| && t[r.value] == d && forall j :: 0 <= j < r.value ==> t[j] != d
    ensures r.None? <==> d !in t
    decreases |t|
  {
    if |t| == 0 then None
    else if t[0] == d then Some(0)
    else
      match VariantIndex(t[1..], d)
      case Some(i) => Some(i + 1)
      case None => None
  }

  /** The encoding of variant i with the given payload. */
  function EncodeTagged(t: seq<int>, i: nat, payload: Node): (n: Node)
    requires i < |t|
    ensures n.Pair? && n.rest == payload && n.first.Atom? && Signed(n.first.bytes) == t[i]
    ensures IsCanonical(n.first.bytes)
  {
    Pair(EncodeInteger(t[i]), payload)
  }

  /** The variant index and payload of a tagged node. */
  function DecodeTagged(t: seq<int>, node: Node): (r: Result<(nat, Node)>)
    ensures r.Ok? ==> && r.value.0 < |t| && node.Pair? && node.rest == r.value.1
                      && node.first.Atom? && Signed(node.first.bytes) == t[r.value.0]
  {
    match node
    case Atom(_) => Err(ExpectedPair)
    case Pair(tag, payload) =>
      var d :- DecodeU8(tag);
      match VariantIndex(t, d)
      case None => Err(WrongDiscriminant(d))
      case Some(i) => Ok((i, payload))
  }

  /** Decoding a tagged encoding recovers the variant and its payload. */
  lemma DecodeEncodeTagged(t: seq<int>, i: nat, payload: Node)
    requires ValidDiscriminants(t) && i < |t|
    ensures DecodeTagged(t, EncodeTagged(t, i, payload)) == Ok((i, payload))
  {
    IntegerRoundTrip(t[i]);
    assert VariantIndex(t, t[i]) == Some(i);
  }

  /** A discriminant of the repr type that names no variant is rejected,
      never taken as some default variant. */
  lemma UnknownDiscriminantRejected(t: seq<int>, node: Node)
    requires node.Pair? && node.first.Atom?
    requires 0 <= Signed(node.first.bytes) < 0x100 && Signed(node.first.bytes) !in t
    ensures DecodeTagged(t, node) == Err(WrongDiscriminant(Signed(node.first.bytes)))
  {
  }

  /** Untagged dispatch over the attempts of the variants in declaration
      order: the first success, otherwise the last attempt's error. */
  function FirstSuccess<T>(attempts: seq<Result<T>>): (r: Result<T>)
    requires |attempts| >= 1
    ensures r.Ok? ==> exists i :: 0 <= i < |attempts| && attempts[i] == r
                                  && forall j :: 0 <= j < i ==> attempts[j].Err?
    ensures r.Err? ==> r == attempts[|attempts| - 1] && forall j :: 0 <= j < |attempts| ==> attempts[j].Err?
    decreases |attempts|
  {
    if |attempts| == 1 || attempts[0].Ok? then attempts[0]
    else FirstSuccess(attempts[1..])
  }

  /** The attempt that wins is the first one to succeed. */
  lemma {:induction false} FirstSuccessPicksFirst<T>(attempts: seq<Result<T>>, i: nat)
    requires i < |attempts| && attempts[i].Ok?
    requires forall j :: 0 <= j < i ==> attempts[j].Err?
    ensures FirstSuccess(attempts) == attempts[i]
    decreases i
  {
    if i > 0 {
      FirstSuccessPicksFirst(attempts[1..], i - 1);
    }
  }
}
