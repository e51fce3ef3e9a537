/** Small shared vocabulary: optional values, results, bytes and chunk flattening. */
module Base {

  datatype Option<+T> = None | Some(value: T)

  /** The outcome of an operation that can throw: a value or the error it threw. */
  datatype Result<+T, +E> = Ok(value: T) | Err(error: E)

  /** An octet, as Swift's `UInt8`. */
  type byte = b: int | 0 <= b < 0x100

  /** A 16-bit unsigned integer, as Swift's `UInt16`. */
  type uint16 = n: int | 0 <= n < 0x1_0000

  /** The bytes of a list of chunks, laid end to end in order. */
  function Flatten(chunks: seq<seq<byte>>): (r: seq<byte>)
    decreases |chunks|
  {
    if chunks == [] then [] else Flatten(chunks[..|chunks| - 1]) + chunks[|chunks| - 1]
  }

  lemma FlattenAppend(chunks: seq<seq<byte>>, c: seq<byte>)
    ensures Flatten(chunks + [c]) == Flatten(chunks) + c
  {
    assert (chunks + [c])[..|chunks|] == chunks;
  }

  /** `n` zero bytes. */
  function Zeros(n: nat): (r: seq<byte>)
    ensures |r| == n && forall i :: 0 <= i < n ==> r[i] == 0
  {
    seq(n, _ => 0)
  }
}
