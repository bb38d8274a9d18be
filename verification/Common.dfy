/** Vocabulary shared by the modules of this model. */
module Common {

  datatype Option<+T> = None | Some(value: T)

  function Max(a: int, b: int): int { if a >= b then a else b }

  function Last<T>(s: seq<T>): T
    requires |s| > 0
  {
    s[|s| - 1]
  }

  function Front<T>(s: seq<T>): seq<T>
    requires |s| > 0
  {
    s[..|s| - 1]
  }

  /** The last `k` elements, or everything when there are fewer. */
  function TakeLast<T>(s: seq<T>, k: nat): seq<T> {
    if |s| <= k then s else s[|s| - k..]
  }

  function Concat<T>(parts: seq<seq<T>>): seq<T> {
    if |parts| == 0 then [] else parts[0] + Concat(parts[1..])
  }

  lemma ConcatAppend<T>(parts: seq<seq<T>>, part: seq<T>)
    ensures Concat(parts + [part]) == Concat(parts) + part
  {
    if |parts| > 0 {
      assert (parts + [part])[1..] == parts[1..] + [part];
      ConcatAppend(parts[1..], part);
    }
  }
}

/** Byte strings, as the container runtime and the wire carry them. */
module ByteStrings {
  newtype byte = b: int | 0 <= b < 256

  type Bytes = seq<byte>

  const NEWLINE: byte := '\n' as int as byte
  const SPACE: byte := ' ' as int as byte
  const UPPER_Z: byte := 'Z' as int as byte

  /** The ASCII whitespace that `bytes.strip` removes and a bytes pattern's `\s` matches. */
  predicate IsSpace(b: byte) {
    b == SPACE || 9 <= b <= 13
  }

  predicate Blank(chunk: Bytes) {
    forall i :: 0 <= i < |chunk| ==> IsSpace(chunk[i])
  }
}
