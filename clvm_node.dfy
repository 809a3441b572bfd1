/** CLVM values and the outcome of decoding them.

    A CLVM node is either an atom, an immutable byte string, or a pair of two
    nodes. The empty atom is nil: it stands for false, for the integer zero and
    for the end of a proper list. Decoding a node into a typed value either
    succeeds or fails with one of the error categories below; encoding a
    well-typed value never fails. */
module Clvm {

  /** One byte of an atom. */
  type u8 = x: int | 0 <= x < 0x100

  datatype Node = Atom(bytes: seq<u8>) | Pair(first: Node, rest: Node)

  /** The empty atom. */
  const Nil: Node := Atom([])

  /** Why a node could not be decoded as the requested type. */
  datatype DecodeError =
    | ExpectedAtom
    | ExpectedPair
    | ExpectedNil
    | WrongAtomLength(expected: nat, found: nat)
    | WrongDiscriminant(discriminant: int)
    | InvalidCurryForm

  datatype Option<+T> = None | Some(value: T)

  /** The result of a decode, usable with `:-`. */
  datatype Result<+T> = Ok(value: T) | Err(error: DecodeError) {

    predicate IsFailure() {
      Err?
    }

    function PropagateFailure<U>(): Result<U>
      requires Err?
    {
      Err(error)
    }

    function Extract(): T
      requires Ok?
    {
      value
    }

    /** Converts a successful value, keeps an error as it is. */
    function Map<U>(f: T -> U): Result<U> {
      match this
      case Ok(v) => Ok(f(v))
      case Err(e) => Err(e)
    }

    /** This result if it succeeded, otherwise `other`. */
    function OrElse(other: Result<T>): Result<T> {
      match this
      case Ok(_) => this
      case Err(_) => other
    }
  }
}
