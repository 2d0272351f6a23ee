/** What several modules share: optional values, bytes, concatenation, line ends, and the
    text mode (crates/openwhisper-core/src/state.rs). */
module Prelude {

  datatype Option<+T> = None | Some(value: T)

  type Byte = b: int | 0 <= b < 256

  datatype Mode = Raw | Clean | Code

  function Flatten<T>(parts: seq<seq<T>>): seq<T> {
    if parts == [] then [] else parts[0] + Flatten(parts[1..])
  }

  lemma {:induction false} FlattenSnoc<T>(parts: seq<seq<T>>, last: seq<T>)
    ensures Flatten(parts + [last]) == Flatten(parts) + last
  {
    if parts == [] {
      assert parts + [last] == [last] && [last][1..] == [];
    } else {
      assert (parts + [last])[1..] == parts[1..] + [last];
      FlattenSnoc(parts[1..], last);
    }
  }

  /** How many elements come before the first newline, all of them if there is none. */
  function LineLength<T(==)>(s: seq<T>, newline: T): (n: nat)
    ensures n <= |s| && newline !in s[..n] && (n < |s| ==> s[n] == newline)
  {
    if s == [] || s[0] == newline then 0 else 1 + LineLength(s[1..], newline)
  }
}
