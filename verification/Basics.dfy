/** Bytes, errors and results shared by every module of the model. */
module Basics {
  type byte = b: int | 0 <= b < 256

  const TWO_32: int := 0x1_0000_0000
  const TWO_35: int := 0x8_0000_0000
  const TWO_63: int := 0x8000_0000_0000_0000
  const TWO_64: int := 0x1_0000_0000_0000_0000

  /** The sentinel errors of the runtime, plus the two errors a caller supplies:
      a failing stream target and a failing codec. */
  datatype Error =
    | BadMagic | UnsupportedVer | ReservedFlags | Truncated | TrailingBytes | VarintOverflow
    | ZeroTag | ReservedWire | WrongWireType | TagOverflow | InvalidPresence | BodyTooLarge
    | IntegerOverflow | AllocTooLarge | BodyLenMismatch | CorruptCompressedBody
    | UnsupportedCompression | TargetFailed | CodecFailed

  datatype Option<+T> = None | Some(value: T)

  datatype Result<+T> = Ok(value: T) | Err(error: Error) {
    predicate IsFailure() { Err? }
    function PropagateFailure<U>(): Result<U>
      requires Err?
    {
      Err(error)
    }
    function Extract(): T
      requires Ok?
    {
      value
    }
  }

  function Min(a: int, b: int): int { if a < b then a else b }

  /** What follows index i, and then k more. */
  lemma {:induction false} DropDrop<T>(s: seq<T>, i: nat, k: nat)
    requires i + k <= |s|
    ensures s[i..][k..] == s[i + k..]
  {
  }

  lemma {:induction false} PrefixSplit<T>(p: seq<T>, q: seq<T>, s: seq<T>)
    requires p + q <= s
    ensures p <= s && q <= s[|p|..]
  {
    assert s[..|p|] == (p + q)[..|p|] == p;
    assert s[|p|..|p| + |q|] == (p + q)[|p|..] == q;
  }

  lemma {:induction false} AppendAssoc<T>(a: seq<T>, b: seq<T>, c: seq<T>)
    ensures a + b + c == a + (b + c)
  {
  }
}
