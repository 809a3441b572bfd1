/** The three framings a derived codec can put around the ordered field
    nodes of a struct or enum variant:

    - tuple, an unterminated chain `(A . (B . C))`: the last field is not
      wrapped, and a single field is the field itself;
    - list, a proper list `(A B C)`, that is `(A . (B . (C . ())))`;
    - curry, curried arguments `(c (q . A) (c (q . B) (c (q . C) 1)))`,
      where `c` is the atom 04, `q` the atom 01 and the chain ends in the
      atom 01.

    Each framing has a decoder, given the declared field count, that inverts
    it exactly. */
module Representation {
  import opened Clvm

  datatype Repr = Tuple | List | Curry

  /** The cons operator `c`. */
  const OpCons: Node := Atom([4])
  /** The quote operator `q`. */
  const OpQuote: Node := Atom([1])
  /** The environment reference `1` that ends a curried chain. */
  const Environment: Node := Atom([1])

  function TupleOf(fields: seq<Node>): Node
    decreases |fields|
  {
    if |fields| == 0 then Nil
    else if |fields| == 1 then fields[0]
    else Pair(fields[0], TupleOf(fields[1..]))
  }

  function ListOf(fields: seq<Node>): Node
    decreases |fields|
  {
    if |fields| == 0 then Nil else Pair(fields[0], ListOf(fields[1..]))
  }

  function CurryOf(fields: seq<Node>): Node
    decreases |fields|
  {
    if |fields| == 0 then Environment
    else Pair(OpCons, Pair(Pair(OpQuote, fields[0]), Pair(CurryOf(fields[1..]), Nil)))
  }

  function Frame(repr: Repr, fields: seq<Node>): Node {
    match repr
    case Tuple => TupleOf(fields)
    case List => ListOf(fields)
    case Curry => CurryOf(fields)
  }

  /** Peels n - 1 pairs; what remains is the last field. No fields means nil. */
  function Untuple(node: Node, n: nat): (r: Result<seq<Node>>)
    ensures r.Ok? ==> |r.value| == n
    decreases n
  {
    if n == 0 then (if node == Nil then Ok([]) else Err(ExpectedNil))
    else if n == 1 then Ok([node])
    else match node
      case Atom(_) => Err(ExpectedPair)
      case Pair(f, rest) =>
        match Untuple(rest, n - 1)
        case Ok(fs) => Ok([f] + fs)
        case Err(e) => Err(e)
  }

  /** Peels n pairs and demands nil after them. */
  function Unlist(node: Node, n: nat): (r: Result<seq<Node>>)
    ensures r.Ok? ==> |r.value| == n
    decreases n
  {
    if n == 0 then (if node == Nil then Ok([]) else Err(ExpectedNil))
    else match node
      case Atom(_) => Err(ExpectedPair)
      case Pair(f, rest) =>
        match Unlist(rest, n - 1)
        case Ok(fs) => Ok([f] + fs)
        case Err(e) => Err(e)
  }

  /** Holds of `(c (q . f) acc)`, one layer of a curried chain. */
  predicate IsCurryLayer(node: Node) {
    && node.Pair? && node.first == OpCons
    && node.rest.Pair? && node.rest.first.Pair? && node.rest.first.first == OpQuote
    && node.rest.rest.Pair? && node.rest.rest.rest == Nil
  }

  /** Unwraps n curry layers and demands the environment atom after them. */
  function Uncurry(node: Node, n: nat): (r: Result<seq<Node>>)
    ensures r.Ok? ==> |r.value| == n
    decreases n
  {
    if n == 0 then (if node == Environment then Ok([]) else Err(InvalidCurryForm))
    else if !IsCurryLayer(node) then Err(InvalidCurryForm)
    else
      match Uncurry(node.rest.rest.first, n - 1)
      case Ok(fs) => Ok([node.rest.first.rest] + fs)
      case Err(e) => Err(e)
  }

  /** The field nodes of a struct with n fields framed by repr. */
  function Unframe(repr: Repr, node: Node, n: nat): (r: Result<seq<Node>>)
    ensures r.Ok? ==> |r.value| == n
  {
    match repr
    case Tuple => Untuple(node, n)
    case List => Unlist(node, n)
    case Curry => Uncurry(node, n)
  }

  lemma {:induction false} UntupleTupleOf(fields: seq<Node>)
    ensures Untuple(TupleOf(fields), |fields|) == Ok(fields)
    decreases |fields|
  {
    if |fields| >= 2 {
      UntupleTupleOf(fields[1..]);
      assert [fields[0]] + fields[1..] == fields;
    } else if |fields| == 1 {
      assert [fields[0]] == fields;
    }
  }

  lemma {:induction false} UnlistListOf(fields: seq<Node>)
    ensures Unlist(ListOf(fields), |fields|) == Ok(fields)
    decreases |fields|
  {
    if |fields| >= 1 {
      UnlistListOf(fields[1..]);
      assert [fields[0]] + fields[1..] == fields;
    }
  }

  lemma {:induction false} UncurryCurryOf(fields: seq<Node>)
    ensures Uncurry(CurryOf(fields), |fields|) == Ok(fields)
    decreases |fields|
  {
    if |fields| >= 1 {
      UncurryCurryOf(fields[1..]);
      assert [fields[0]] + fields[1..] == fields;
    }
  }

  /** Decoding a framing with the field count it was built from gives back the fields. */
  lemma UnframeFrame(repr: Repr, fields: seq<Node>)
    ensures Unframe(repr, Frame(repr, fields), |fields|) == Ok(fields)
  {
    match repr
    case Tuple => UntupleTupleOf(fields);
    case List => UnlistListOf(fields);
    case Curry => UncurryCurryOf(fields);
  }

  lemma {:induction false} TupleOfUntuple(node: Node, n: nat)
    ensures Untuple(node, n).Ok? ==> TupleOf(Untuple(node, n).value) == node
    decreases n
  {
    if n >= 2 && node.Pair? {
      TupleOfUntuple(node.rest, n - 1);
      if Untuple(node, n).Ok? {
        var fs := Untuple(node, n).value;
        assert fs[1..] == Untuple(node.rest, n - 1).value;
      }
    }
  }

  lemma {:induction false} ListOfUnlist(node: Node, n: nat)
    ensures Unlist(node, n).Ok? ==> ListOf(Unlist(node, n).value) == node
    decreases n
  {
    if n >= 1 && node.Pair? {
      ListOfUnlist(node.rest, n - 1);
      if Unlist(node, n).Ok? {
        var fs := Unlist(node, n).value;
        assert fs[1..] == Unlist(node.rest, n - 1).value;
      }
    }
  }

  lemma {:induction false} CurryOfUncurry(node: Node, n: nat)
    ensures Uncurry(node, n).Ok? ==> CurryOf(Uncurry(node, n).value) == node
    decreases n
  {
    if n >= 1 && IsCurryLayer(node) {
      CurryOfUncurry(node.rest.rest.first, n - 1);
      if Uncurry(node, n).Ok? {
        var fs := Uncurry(node, n).value;
        assert fs[1..] == Uncurry(node.rest.rest.first, n - 1).value;
      }
    }
  }

  /** A node decodes under a framing only if it is exactly that framing of
      the fields decoded from it: no decoder accepts a near miss. */
  lemma FrameUnframe(repr: Repr, node: Node, n: nat)
    ensures Unframe(repr, node, n).Ok? ==> Frame(repr, Unframe(repr, node, n).value) == node
  {
    match repr
    case Tuple => TupleOfUntuple(node, n);
    case List => ListOfUnlist(node, n);
    case Curry => CurryOfUncurry(node, n);
  }

  /** A proper list is the tuple framing of its elements followed by nil. */
  lemma {:induction false} ListIsTerminatedTuple(fields: seq<Node>)
    ensures ListOf(fields) == TupleOf(fields + [Nil])
    decreases |fields|
  {
    if |fields| >= 1 {
      ListIsTerminatedTuple(fields[1..]);
      assert (fields + [Nil])[1..] == fields[1..] + [Nil];
    }
  }

  /** Each curried layer is the three-element list `(c (q . f) acc)`, an
      application of the cons operator to the quoted field and the rest. */
  lemma CurryLayerIsApplication(fields: seq<Node>)
    requires |fields| >= 1
    ensures CurryOf(fields) == ListOf([OpCons, Pair(OpQuote, fields[0]), CurryOf(fields[1..])])
  {
    var acc := CurryOf(fields[1..]);
    var l := [OpCons, Pair(OpQuote, fields[0]), acc];
    assert l[1..] == [Pair(OpQuote, fields[0]), acc];
    assert l[1..][1..] == [acc];
    assert ListOf([acc]) == Pair(acc, Nil);
    assert ListOf(l[1..]) == Pair(Pair(OpQuote, fields[0]), Pair(acc, Nil));
  }

  /** The elements of a proper list of any length, or None if the node is not one. */
  function ListElements(node: Node): (r: Option<seq<Node>>)
    ensures r.Some? ==> Unlist(node, |r.value|) == Ok(r.value)
  {
    match node
    case Atom(b) => if b == [] then Some([]) else None
    case Pair(f, rest) =>
      match ListElements(rest)
      case Some(fs) => Some([f] + fs)
      case None => None
  }

  lemma {:induction false} ListElementsOf(fields: seq<Node>)
    ensures ListElements(ListOf(fields)) == Some(fields)
    decreases |fields|
  {
    if |fields| >= 1 {
      ListElementsOf(fields[1..]);
      assert [fields[0]] + fields[1..] == fields;
    }
  }
}
