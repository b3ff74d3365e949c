/** Vocabulary shared by every component: optional values, results, bytes. */
module Prelude {

  datatype Option<+T> = None | Some(value: T)

  datatype Result<+T, +E> = Ok(value: T) | Err(error: E)

  newtype byte = b: int | 0 <= b < 256

  /** Text as its bytes. */
  function Ascii(text: string): (s: seq<byte>)
    ensures |s| == |text|
  {
    seq(|text|, i requires 0 <= i < |text| => if text[i] as int < 128 then text[i] as int as byte else 0)
  }

  /** No value occurs at two positions. */
  ghost predicate NoDup<T>(s: seq<T>) {
    forall i, j :: 0 <= i < j < |s| ==> s[i] != s[j]
  }

  /** A slice of a tail is a slice of the whole. */
  lemma SliceOfDrop<T>(s: seq<T>, a: nat, b: nat)
    requires a + b <= |s|
    ensures s[a..][..b] == s[a..a + b] && s[a..][b..] == s[a + b..]
  {
    assert |s[a..][b..]| == |s[a + b..]|;
    assert forall i :: 0 <= i < |s| - a - b ==> s[a..][b..][i] == s[a + b..][i];
  }
}
