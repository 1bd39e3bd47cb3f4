/** Byte values. */
module Bytes {
  type Byte = b: int | 0 <= b < 256

  /** memchr and strchr: the index of the first c, or -1. */
  function IndexOf(s: seq<Byte>, c: Byte): (i: int)
    ensures -1 <= i < |s|
    ensures i >= 0 ==> s[i] == c && c !in s[..i]
    ensures i == -1 ==> c !in s
  {
    if s == [] then -1
    else if s[0] == c then 0
    else
      var r := IndexOf(s[1..], c);
      assert s == [s[0]] + s[1..];
      if r == -1 then -1 else
        assert s[..r + 1] == [s[0]] + s[1..][..r];
        r + 1
  }
}
