/** Bytes and the one piece of Python sequence semantics the model relies on. */
module Bytes {

  /** One octet of an RPM file or of a decoded header tag value. */
  type Byte = b: int | 0 <= b < 256

  /** Python's `s[i:j]` for `0 <= i <= j`: bounds past the end are clamped,
      so the result may be shorter than `j - i`. `file.read(n)` at position
      `p` returns the same bytes as `s[p:p+n]`. */
  function PySlice<T>(s: seq<T>, i: nat, j: nat): (r: seq<T>)
    requires i <= j
    ensures |r| == (if j <= |s| then j - i else if i <= |s| then |s| - i else 0)
    ensures j <= |s| ==> r == s[i..j]
  {
    if |s| <= i then []
    else if |s| <= j then s[i..]
    else s[i..j]
  }
}
