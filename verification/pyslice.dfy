/** Python's prefix slice `s[:n]` on lists, with its treatment of
    out-of-range and negative bounds. */
module PySlice {

  function Min(a: int, b: int): int { if a <= b then a else b }

  /** `s[:n]`: for `n >= 0` the first `n` elements (all of them when there
      are fewer); for `n < 0` everything except the last `-n` elements
      (nothing when there are fewer). */
  function TakePrefix<T>(s: seq<T>, n: int): (r: seq<T>)
    ensures r <= s
    ensures n >= 0 ==> |r| <= n && (|r| < n ==> r == s)
    ensures n < 0 ==> |r| + Min(-n, |s|) == |s|
  {
    if n >= 0 then
      if n <= |s| then s[..n] else s
    else
      if -n <= |s| then s[..|s| + n] else []
  }
}
