# CLVM value codec, modelled in Dafny

This project models the typed value codec of `clvm-traits` and one of its clients, the wallet `Proof` type of `chia-wallet`. The codec turns typed values into CLVM nodes and reads them back. A node is either an atom (a byte string; the empty atom is nil) or a pair of two nodes.

- **Integers** (`clvm_int.dfy`, `clvm_primitives.dfy`) are atoms holding the shortest big-endian two's complement of the value. Zero is the empty atom. A leading `00`/`ff` that only repeats the sign is never written. The project proves that this encoder is a bijection between the integers and the canonical atoms, and bounds the atom length of a `u64` (at most nine bytes).
- **Framings** (`clvm_repr.dfy`) put an ordered list of field nodes into one of three shapes. `tuple` gives `(A . (B . C))`, `list` gives `(A B C)`, and `curry` gives `(c (q . A) (c (q . B) 1))`, where `c` = `04`, `q` = `01` and the chain ends in `01`. Each framing has a decoder that takes the declared field count. It is proved to be the exact inverse of its framing, in both directions.
- **Enum dispatch** (`clvm_enum.dfy`): a tagged variant is `(discriminant . payload)`. Discriminants default to 0, 1, 2, … and can be overridden. An untagged variant is just its payload. Decoding an untagged enum tries the variants in declaration order and returns the first success, or else the error of the last attempt.
- **Derived codecs** (`derived_structs.dfy`, `tagged_enum.dfy`, `untagged_enum.dfy`): each struct and enum of the crate's tests has a codec consistent with the crate documentation (`clvm-traits/src/lib.rs:10-16`) and the golden vectors (`clvm-traits/src/lib.rs:90-205`), written out. Each has a round-trip lemma, and its golden vector from the tests is transcribed into a `Node` constant.
- **`Proof`** (`wallet_proof.dfy`): a hand-written untagged codec over the list-framed `LineageProof` and `EveProof`.

Decoders are pure functions of the node. They cannot change anything, so a failed trial decode cannot affect the next attempt.

The quoted field of a curried argument is the pair `(q . f)` (`clvm-traits/src/lib.rs:12`, `:125`).

## Model

| member | source | states |
|---|---|---|
| `ClvmInt.EncodeInt` | clvm-traits/src/lib.rs:157 | an integer's atom is empty exactly when the integer is zero |
| `ClvmInt.DecodeEncodeInt` | clvm-traits/src/lib.rs:81-83 | reading an encoded integer as two's complement gives back the integer |
| `ClvmInt.EncodeIntCanonical` | clvm-traits/src/lib.rs:99 | the encoder never writes a redundant sign byte and never writes zero as the byte `00` |
| `ClvmInt.EncodeSignedCanonical` | clvm-traits/src/lib.rs:99 | every canonical atom is the encoding of the integer it denotes (with the two lemmas above: the encoder is a bijection onto canonical atoms) |
| `ClvmInt.TwosComplementLength` | clvm-traits/src/lib.rs:3-4 | a value inside the k-byte two's-complement range takes at most k bytes |
| `ClvmInt.SignedRange` | clvm-traits/src/lib.rs:3-4 | a k-byte atom denotes a value inside the k-byte two's-complement range |
| `ClvmInt.U64AtomLength` | chia-wallet/src/proof.rs:50 | every `u64` encodes in at most nine bytes |
| `ClvmInt.IntegerVectors` | clvm-traits/src/lib.rs:157-175 | 0, 52, 94, 32, -32, -72, 42, 34, 11 give the test atoms (empty, `34`, `5e`, `20`, `e0`, `b8`, `2a`, `22`, `0b`); -1 is `ff`, not `ff ff` |
| `Primitives.EncodeInteger` | clvm-traits/src/lib.rs:95-96 | an integer field becomes a canonical atom that denotes the value |
| `Primitives.DecodeInteger` | clvm-traits/src/lib.rs:95-96 | succeeds exactly on atoms whose value lies in the target range, and returns that value; a pair is `ExpectedAtom` |
| `Primitives.DecodeU8` | clvm-traits/src/lib.rs:166 | accepts exactly atoms denoting 0..255 and returns their value |
| `Primitives.DecodeU64` | clvm-traits/src/lib.rs:95 | accepts exactly atoms denoting 0..2^64-1 and returns their value |
| `Primitives.DecodeI32` | clvm-traits/src/lib.rs:96 | accepts exactly atoms denoting -2^31..2^31-1 and returns their value |
| `Primitives.EncodeBytes` | clvm-traits/src/lib.rs:135 | a string is the atom of its bytes |
| `Primitives.DecodeBytes` | clvm-traits/src/lib.rs:133 | succeeds exactly on atoms and returns their bytes |
| `Primitives.DecodeBytes32` | chia-wallet/src/proof.rs:48-49 | succeeds exactly on 32-byte atoms; any other atom length is `WrongAtomLength(32, length)` |
| `Primitives.IntegerRoundTrip` | clvm-traits/src/lib.rs:81-83 | every `u8`, `u64` and `i32` value decodes back from its encoding |
| `Primitives.IntegerOutOfRange` | clvm-traits/src/lib.rs:3-4 | a value outside the target type is rejected with `WrongAtomLength` |
| `Primitives.BytesRoundTrip` | clvm-traits/src/lib.rs:81-83 | byte strings and 32-byte arrays decode back from their atoms |
| `Primitives.U64IsNotBytes32` | chia-wallet/src/proof.rs:48-50 | a `u64` atom is at most nine bytes, so it is never accepted as a 32-byte array |
| `Representation.Untuple` | clvm-traits/src/lib.rs:10 | a successful tuple decode yields exactly the declared number of fields |
| `Representation.Unlist` | clvm-traits/src/lib.rs:11 | a successful list decode yields exactly the declared number of fields |
| `Representation.Uncurry` | clvm-traits/src/lib.rs:12 | a successful curry decode yields exactly the declared number of fields |
| `Representation.Unframe` | clvm-traits/src/lib.rs:10-12 | a successful decode under any framing yields exactly the declared number of fields |
| `Representation.UntupleTupleOf` | clvm-traits/src/lib.rs:10 | decoding `(A . (B . C))` with its field count gives back the fields |
| `Representation.UnlistListOf` | clvm-traits/src/lib.rs:11 | decoding `(A B C)` with its field count gives back the fields |
| `Representation.UncurryCurryOf` | clvm-traits/src/lib.rs:12 | decoding the curried form with its field count gives back the fields |
| `Representation.UnframeFrame` | clvm-traits/src/lib.rs:10-12 | every framing's decoder inverts that framing |
| `Representation.TupleOfUntuple` | clvm-traits/src/lib.rs:10 | a node that decodes as a tuple is exactly the tuple of the decoded fields |
| `Representation.ListOfUnlist` | clvm-traits/src/lib.rs:11 | a node that decodes as a list is exactly the proper list of the decoded fields |
| `Representation.CurryOfUncurry` | clvm-traits/src/lib.rs:12 | a node that decodes as curried arguments is exactly the curried form of the decoded fields |
| `Representation.FrameUnframe` | clvm-traits/src/lib.rs:10-12 | no framing decoder accepts anything but its own framing of the fields it returns |
| `Representation.ListIsTerminatedTuple` | clvm-traits/src/lib.rs:10-11 | `(A B C)` is `(A . (B . (C . ())))`: the tuple framing of the fields followed by nil |
| `Representation.CurryLayerIsApplication` | clvm-traits/src/lib.rs:12 | each curried layer is the three-element list `(c (q . f) rest)` |
| `Representation.ListElements` | clvm-traits/src/lib.rs:11 | the elements read from a proper list are what the list decoder returns for that length |
| `Representation.ListElementsOf` | clvm-traits/src/lib.rs:11 | reading back a proper list gives exactly its elements |
| `EnumDispatch.DefaultDiscriminants` | clvm-traits/src/lib.rs:151-155 | variants without an explicit discriminant are numbered 0, 1, 2, … in declaration order |
| `EnumDispatch.VariantIndex` | clvm-traits/src/lib.rs:166-171 | finds the first variant whose discriminant is the given value, and finds none exactly when no variant has it |
| `EnumDispatch.EncodeTagged` | clvm-traits/src/lib.rs:157-159 | a tagged variant is a pair of the canonical atom of its discriminant and its payload (with `ClvmInt.EncodeSignedCanonical` this fixes the tag's bytes: 0 is the empty atom `80`) |
| `EnumDispatch.DecodeTagged` | clvm-traits/src/lib.rs:166 | a successful decode names a known variant whose discriminant the tag atom denotes, and returns the pair's payload |
| `EnumDispatch.DecodeEncodeTagged` | clvm-traits/src/lib.rs:173-175 | with distinct discriminants that fit `u8`, decoding recovers the variant and its payload |
| `EnumDispatch.UnknownDiscriminantRejected` | clvm-traits/src/lib.rs:166-171 | a discriminant that names no variant is `WrongDiscriminant`, never some default variant |
| `EnumDispatch.FirstSuccess` | clvm-traits/src/lib.rs:14 | untagged dispatch returns a success that no earlier attempt had; if all attempts fail, it returns the last attempt's error |
| `EnumDispatch.FirstSuccessPicksFirst` | clvm-traits/src/lib.rs:181-195 | the first attempt in declaration order that succeeds is the result |
| `DerivedStructs.NumberStructRoundTrip` | clvm-traits/src/lib.rs:91-127 | the `{ a: u64, b: i32 }` struct decodes back from its encoding under the tuple, list and curry framings |
| `DerivedStructs.DecodedNumberStruct` | clvm-traits/src/lib.rs:91-127 | a decoded struct came from its framing of two integer atoms that denote its fields |
| `DerivedStructs.NumberStructReencode` | clvm-traits/src/lib.rs:81-83 | a decoded struct re-encodes to the same node exactly when its integer atoms are canonical |
| `DerivedStructs.UnnamedStructRoundTrip` | clvm-traits/src/lib.rs:130-136 | `UnnamedStruct(String, String)` decodes back from its encoding |
| `DerivedStructs.NewTypeStructRoundTrip` | clvm-traits/src/lib.rs:139-145 | `NewTypeStruct(String)` decodes back from its encoding |
| `DerivedStructs.PointRoundTrip` | clvm-traits/src/lib.rs:27-39 | the documentation's tuple `Point { x, y }` decodes back from its encoding |
| `DerivedStructs.StructVectors` | clvm-traits/src/lib.rs:99-144 | `{52, -32}` gives the tuple, list and curry golden trees; `("A", "B")` gives `("A" . "B")`; `("XYZ")` is the bare atom |
| `TaggedEnum.TablesValid` | clvm-traits/src/lib.rs:164-171 | the default table 0, 1, 2 and the explicit `u8` table 42, 34, 11 are distinct and fit `u8` |
| `TaggedEnum.EnumRoundTrip` | clvm-traits/src/lib.rs:148-175 | every variant decodes back from its tagged encoding under either table |
| `TaggedEnum.EnumUnknownTag` | clvm-traits/src/lib.rs:164-171 | tag 3 under the default table and tag 0 under the explicit table are `WrongDiscriminant` |
| `TaggedEnum.EnumVectors` | clvm-traits/src/lib.rs:157-175 | `A(32)`, `B { x: -72 }` and `C` give `ff8020`, `ff0181b8`, `ff0280` by default and `ff2a20`, `ff2281b8`, `ff0b80` with explicit discriminants |
| `UntaggedEnum.DecodeVariantOwnEncoding` | clvm-traits/src/lib.rs:182-194 | each variant's decoder, with that variant's own framing, reads back that variant's encoding |
| `UntaggedEnum.EnumRoundTrip` | clvm-traits/src/lib.rs:179-204 | trial decoding in declaration order recovers the encoded variant: no earlier variant accepts a later one's payload |
| `UntaggedEnum.EnumVectors` | clvm-traits/src/lib.rs:197-204 | `A(32)`, `B { -72, 94 }` and `C { "Hello" }` give `20`, `ff81b8ff5e80` and `ff04ffff018548656c6c6fff0180`, with no discriminant |
| `WalletProof.LineageProofRoundTrip` | chia-wallet/src/proof.rs:45-51 | a lineage proof decodes back from its three-element list |
| `WalletProof.EveProofRoundTrip` | chia-wallet/src/proof.rs:53-58 | an eve proof decodes back from its two-element list |
| `WalletProof.EveAmountIsNotAHash` | chia-wallet/src/proof.rs:48-57 | an eve proof's second element is its amount, an atom of at most nine bytes, never a 32-byte hash |
| `WalletProof.EveIsNeverLineage` | chia-wallet/src/proof.rs:11-14 | an eve encoding is not a three-element list, its second element is not 32 bytes, and it never decodes as a lineage proof |
| `WalletProof.ProofRoundTrip` | chia-wallet/fuzz/fuzz_targets/roundtrip.rs:22-26 | decoding a proof's encoding gives back the same proof, for every proof |
| `WalletProof.ProofListShape` | chia-wallet/src/proof.rs:18-25 | a proof encodes as exactly its inner proof's list, `[parent, inner_puzzle_hash, amount]` or `[parent, amount]`, with no tag |
| `WalletProof.LineageTriedFirst` | chia-wallet/src/proof.rs:11-13 | whenever a node decodes as a lineage proof, the proof is that lineage proof |
| `WalletProof.EveDecidesOtherwise` | chia-wallet/src/proof.rs:14 | once the lineage attempt fails, the result is the eve attempt's, its error included |
| `WalletProof.DecodedProofShape` | chia-wallet/src/proof.rs:10-16 | a lineage result comes only from a three-element list, an eve result only from a two-element list |

The encoders and decoders of each type (`EncodeNumberStruct`/`DecodeNumberStruct`, `EncodeEnum`/`DecodeEnum`, `EncodeProof`/`DecodeProof`, …) carry no contract of their own. The lemmas above specify them. The same holds for the framings `Representation.TupleOf`, `Representation.ListOf`, `Representation.CurryOf` and `Representation.Frame` (`clvm-traits/src/lib.rs:10-12`), which `Representation.UnframeFrame` and `Representation.FrameUnframe` (with the per-framing lemmas) tie to their decoders in both directions, and `Representation.ListIsTerminatedTuple` and `Representation.CurryLayerIsApplication` describe further; and for the integer reader `ClvmInt.Signed`, which `ClvmInt.DecodeEncodeInt` and `ClvmInt.EncodeSignedCanonical` make the inverse of the encoder on canonical atoms and `ClvmInt.SignedRange` bounds.

## Left out

- The node arena (`clvmr`'s `Allocator`) is left out. The model builds and reads plain `Node` trees. Encoding into `&mut Allocator` only appends nodes, so a pure tree-building function stands in for it.
- The byte serializer `node_to_bytes` is left out. Each golden hex string of the tests is transcribed by hand into a `Node` constant.
- The derive macros and the codec modules are outside this model. What they generate for each test type is written out as an explicit encoder and decoder built from the framing combinators.
- `Primitives.DecodeInteger` accepts an atom with redundant sign bytes: this model reads a padded atom as the value it denotes. Round trips are proved for encoder output. `DerivedStructs.NumberStructReencode` says exactly when a decoded value re-encodes to the same node.
- `Primitives.DecodeU64`: this model rejects atoms that denote negative values for `u64` rather than wrapping them modulo 2^64.
- Derived decoders first check the framing and then decode the fields in order. Any other interleaving of those checks gives the same successes. It could only change which error is reported.
- Errors carry no field or variant context. Error kinds beyond the ones modelled are left out, and so is a catch-all "no matching variant" error: an untagged decode that fails reports its last variant's error.
- Tagged enums read their discriminant as `u8`, both for the explicit `#[repr(u8)]` enum and for the enum without a `repr`.
- Strings are modelled as their ASCII bytes. No text encoding is modelled.
- The other standard-library codecs the crate provides are not part of this model. This covers booleans, `Option`, vectors and the remaining integer widths; no type modelled here has a field of those types.
- The `Arbitrary` implementation of `Proof` (random value generation) is left out. So is the fuzzing harness; only its round-trip assertion is kept, as `WalletProof.ProofRoundTrip`. `NftMetadata` is not part of this model.
- The condition-policy hooks in `src/gen/policy.rs` are left out. They are a trait with no behaviour, over `Spend` and `Condition` types that are not part of this model.
- Recursion depth is left out. Real decoders run on a bounded stack; here node depth is unbounded.
