/** Python's `str.split()` with no separator: the words of a string are its
    maximal runs of non-whitespace characters. */
module PyText {

  /** The characters for which Python's `str.isspace()` holds. */
  predicate IsSpace(c: char) {
    || ('\t' <= c <= '\r')
    || ('\U{1C}' <= c <= ' ')
    || c == '\U{85}' || c == '\U{A0}' || c == '\U{1680}'
    || ('\U{2000}' <= c <= '\U{200A}')
    || c == '\U{2028}' || c == '\U{2029}' || c == '\U{202F}' || c == '\U{205F}'
    || c == '\U{3000}'
  }

  predicate NoSpace(w: string) {
    forall i :: 0 <= i < |w| ==> !IsSpace(w[i])
  }

  /** `s` with its leading whitespace removed. */
  function DropSpaces(s: string): (r: string)
    ensures |r| <= |s| && r == s[|s| - |r|..]
    ensures r == [] || !IsSpace(r[0])
  {
    if s == [] || !IsSpace(s[0]) then s else DropSpaces(s[1..])
  }

  /** Length of the leading run of non-whitespace characters of `s`. */
  function RunLength(s: string): (n: nat)
    ensures n <= |s|
    ensures n == |s| || IsSpace(s[n])
  {
    if s == [] || IsSpace(s[0]) then 0 else 1 + RunLength(s[1..])
  }

  lemma {:induction false} RunHasNoSpace(s: string)
    ensures NoSpace(s[..RunLength(s)])
    decreases |s|
  {
    if s != [] && !IsSpace(s[0]) {
      RunHasNoSpace(s[1..]);
      assert s[..RunLength(s)] == [s[0]] + s[1..][..RunLength(s[1..])];
    }
  }

  /** `s.split()`: every word is non-empty and free of whitespace. */
  function Split(s: string): (words: seq<string>)
    ensures forall k :: 0 <= k < |words| ==> |words[k]| > 0 && NoSpace(words[k])
    decreases |s|
  {
    var t := DropSpaces(s);
    if t == [] then []
    else
      var n := RunLength(t);
      assert n > 0;
      RunHasNoSpace(t);
      var rest := Split(t[n..]);
      WordsCons(t[..n], rest);
      [t[..n]] + rest
  }

  lemma WordsCons(w: string, rest: seq<string>)
    requires |w| > 0 && NoSpace(w)
    requires forall k :: 0 <= k < |rest| ==> |rest[k]| > 0 && NoSpace(rest[k])
    ensures forall k :: 0 <= k < |[w] + rest| ==> |([w] + rest)[k]| > 0 && NoSpace(([w] + rest)[k])
  {
    forall k | 0 <= k < |[w] + rest|
      ensures ([w] + rest)[k] == if k == 0 then w else rest[k - 1]
    {
    }
  }

  /** The sort key of `group_by_size`: `len(s.split())`. */
  function WordCount(s: string): nat {
    |Split(s)|
  }

  /** Reference definition: the non-whitespace characters of `s`, in order. */
  function RemoveSpaces(s: string): string {
    if s == [] then [] else (if IsSpace(s[0]) then [] else [s[0]]) + RemoveSpaces(s[1..])
  }

  function Concat(words: seq<string>): string {
    if words == [] then [] else words[0] + Concat(words[1..])
  }

  /** Reference count: the positions where a word begins, i.e. a
      non-whitespace character at the start or right after whitespace.
      `afterSpace` says whether the character before `s` was whitespace. */
  function WordStarts(s: string, afterSpace: bool): nat {
    if s == [] then 0
    else (if afterSpace && !IsSpace(s[0]) then 1 else 0) + WordStarts(s[1..], IsSpace(s[0]))
  }

  lemma {:induction false} RemoveLeadingSpaces(s: string)
    ensures RemoveSpaces(DropSpaces(s)) == RemoveSpaces(s)
    decreases |s|
  {
    if s != [] && IsSpace(s[0]) {
      RemoveLeadingSpaces(s[1..]);
    }
  }

  lemma {:induction false} RemoveSpacesOfRun(t: string)
    ensures RemoveSpaces(t) == t[..RunLength(t)] + RemoveSpaces(t[RunLength(t)..])
    decreases |t|
  {
    if t != [] && !IsSpace(t[0]) {
      RemoveSpacesOfRun(t[1..]);
      assert t[..RunLength(t)] == [t[0]] + t[1..][..RunLength(t[1..])];
      assert t[RunLength(t)..] == t[1..][RunLength(t[1..])..];
    }
  }

  /** Gluing the words back together gives exactly the non-whitespace
      characters of the string: `split` loses whitespace and nothing else. */
  lemma {:induction false} SplitKeepsEveryNonSpace(s: string)
    ensures Concat(Split(s)) == RemoveSpaces(s)
    decreases |s|
  {
    var t := DropSpaces(s);
    RemoveLeadingSpaces(s);
    if t != [] {
      var n := RunLength(t);
      assert Split(s) == [t[..n]] + Split(t[n..]);
      SplitKeepsEveryNonSpace(t[n..]);
      RemoveSpacesOfRun(t);
    }
  }

  lemma {:induction false} WordStartsLeading(s: string)
    ensures WordStarts(DropSpaces(s), true) == WordStarts(s, true)
    decreases |s|
  {
    if s != [] && IsSpace(s[0]) {
      WordStartsLeading(s[1..]);
    }
  }

  lemma {:induction false} WordStartsOfRun(u: string)
    ensures WordStarts(u, false) == WordStarts(u[RunLength(u)..], true)
    decreases |u|
  {
    if u != [] && !IsSpace(u[0]) {
      WordStartsOfRun(u[1..]);
      assert u[RunLength(u)..] == u[1..][RunLength(u[1..])..];
    }
  }

  /** The number of words `split` yields is the number of word beginnings. */
  lemma {:induction false} WordCountIsWordStarts(s: string)
    ensures WordCount(s) == WordStarts(s, true)
    decreases |s|
  {
    var t := DropSpaces(s);
    WordStartsLeading(s);
    if t != [] {
      var n := RunLength(t);
      assert Split(s) == [t[..n]] + Split(t[n..]);
      WordCountIsWordStarts(t[n..]);
      WordStartsOfRun(t[1..]);
      assert t[1..][RunLength(t[1..])..] == t[n..];
    }
  }
}
