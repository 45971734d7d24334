/**
 * The two pieces of string handling the hook relies on: Python's `str.strip()`
 * (used on the configured speech command and on the notification message) and
 * a whitespace tokenizer that `shlex.split` reduces to on command lines without
 * quotes or backslashes.
 */
module Text {

  /** Python's `str.isspace()`: the characters `str.strip()` removes. */
  predicate IsSpace(c: char) {
    || ('\t' <= c <= '\r')
    || ('\U{1C}' <= c <= '\U{1F}')
    || c == ' '
    || c == '\U{85}'
    || c == '\U{A0}'
    || c == '\U{1680}'
    || ('\U{2000}' <= c <= '\U{200A}')
    || c == '\U{2028}'
    || c == '\U{2029}'
    || c == '\U{202F}'
    || c == '\U{205F}'
    || c == '\U{3000}'
  }

  /** Every character of `s` from index `lo` up to (not including) `hi` is whitespace. */
  predicate SpaceBetween(s: string, lo: int, hi: int)
    requires 0 <= lo <= hi <= |s|
  {
    forall k :: lo <= k < hi ==> IsSpace(s[k])
  }

  /** `s[i..j]` is what is left of `s` once the whitespace at both ends is cut off. */
  predicate StrippedAt(s: string, i: int, j: int) {
    && 0 <= i <= j <= |s|
    && SpaceBetween(s, 0, i)
    && SpaceBetween(s, j, |s|)
    && (i < j ==> !IsSpace(s[i]) && !IsSpace(s[j - 1]))
  }

  /** `str.lstrip()` */
  function TrimStart(s: string): (r: string)
    ensures |r| <= |s|
    ensures SpaceBetween(s, 0, |s| - |r|)
    ensures r == [] || !IsSpace(r[0])
  {
    if s != [] && IsSpace(s[0]) then TrimStart(s[1..]) else s
  }

  /** `str.rstrip()` */
  function TrimEnd(s: string): (r: string)
    ensures |r| <= |s|
    ensures SpaceBetween(s, |r|, |s|)
    ensures r == [] || !IsSpace(r[|r| - 1])
  {
    if s != [] && IsSpace(s[|s| - 1]) then TrimEnd(s[..|s| - 1]) else s
  }

  /** What `TrimStart` keeps is a suffix of its argument. */
  lemma {:induction false} TrimStartIsSuffix(s: string)
    ensures TrimStart(s) == s[|s| - |TrimStart(s)|..]
  {
    if s != [] && IsSpace(s[0]) {
      TrimStartIsSuffix(s[1..]);
      assert s[1..][|s| - 1 - |TrimStart(s)|..] == s[|s| - |TrimStart(s)|..];
    }
  }

  /** What `TrimEnd` keeps is a prefix of its argument. */
  lemma {:induction false} TrimEndIsPrefix(s: string)
    ensures TrimEnd(s) == s[..|TrimEnd(s)|]
  {
    if s != [] && IsSpace(s[|s| - 1]) {
      TrimEndIsPrefix(s[..|s| - 1]);
      assert s[..|s| - 1][..|TrimEnd(s)|] == s[..|TrimEnd(s)|];
    }
  }

  /** `str.strip()` */
  function Strip(s: string): (r: string)
    ensures |r| <= |s|
    ensures r == [] || (!IsSpace(r[0]) && !IsSpace(r[|r| - 1]))
  {
    TrimEndIsPrefix(TrimStart(s));
    TrimEnd(TrimStart(s))
  }

  /** `Strip` cuts whitespace-only runs off both ends and keeps the middle as it is. */
  lemma StripCut(s: string)
    ensures exists i, j :: StrippedAt(s, i, j) && Strip(s) == s[i..j]
  {
    var t := TrimStart(s);
    var r := TrimEnd(t);
    TrimStartIsSuffix(s);
    TrimEndIsPrefix(t);
    var i, j := |s| - |t|, |s| - |t| + |r|;
    assert s[i..j] == r;
    assert StrippedAt(s, i, j);
  }

  /** Only one cut satisfies `StrippedAt`, so `Strip` is fully determined by its contract. */
  lemma StripUnique(s: string, i: int, j: int)
    requires StrippedAt(s, i, j)
    ensures Strip(s) == s[i..j]
  {
    StripCut(s);
    var i', j' :| StrippedAt(s, i', j') && Strip(s) == s[i'..j'];
    if i < j {
      SameCut(s, i, j, i', j');
    }
  }

  lemma SameCut(s: string, i: int, j: int, i': int, j': int)
    requires StrippedAt(s, i, j) && StrippedAt(s, i', j') && i < j && i' < j'
    ensures i == i' && j == j'
  {
  }

  /** Stripping leaves nothing exactly when the string is all whitespace. */
  lemma StripEmptyIff(s: string)
    ensures Strip(s) == "" <==> SpaceBetween(s, 0, |s|)
  {
    if SpaceBetween(s, 0, |s|) {
      StripUnique(s, 0, 0);
    } else {
      StripCut(s);
    }
  }

  /** Stripping twice changes nothing more than stripping once. */
  lemma StripIdempotent(s: string)
    ensures Strip(Strip(s)) == Strip(s)
  {
  }

  /** The separators of `shlex.split`: its `whitespace` attribute, `' \t\r\n'`. */
  predicate IsShellSpace(c: char) {
    c == ' ' || c == '\t' || c == '\r' || c == '\n'
  }

  /** A word of a command line: non-empty and free of separators. */
  predicate IsWord(w: string) {
    w != [] && forall k :: 0 <= k < |w| ==> !IsShellSpace(w[k])
  }

  /** The separators at the front of `s` removed. */
  function SkipShellSpace(s: string): (r: string)
    ensures |r| <= |s|
    ensures r == [] || !IsShellSpace(r[0])
  {
    if s != [] && IsShellSpace(s[0]) then SkipShellSpace(s[1..]) else s
  }

  /** The length of the run of non-separators at the front of `s`. */
  function WordLength(s: string): (n: nat)
    ensures n <= |s|
    ensures forall k :: 0 <= k < n ==> !IsShellSpace(s[k])
    ensures n < |s| ==> IsShellSpace(s[n])
  {
    if s == [] || IsShellSpace(s[0]) then 0 else 1 + WordLength(s[1..])
  }

  /** The maximal runs of non-separators of `s`, in order. */
  function SplitWords(s: string): (words: seq<string>)
    ensures forall k :: 0 <= k < |words| ==> IsWord(words[k])
    decreases |s|
  {
    var t := SkipShellSpace(s);
    if t == [] then []
    else
      var n := WordLength(t);
      var w := t[..n];
      assert IsWord(w);
      [w] + SplitWords(t[n..])
  }

  /** A command line that starts with a non-separator has at least one word. */
  lemma SplitWordsNonEmpty(s: string)
    requires s != [] && !IsShellSpace(s[0])
    ensures SplitWords(s) != [] && SplitWords(s)[0] == s[..WordLength(s)]
  {
  }

  /** Words separated by single spaces. */
  function JoinWords(words: seq<string>): string {
    if words == [] then ""
    else if |words| == 1 then words[0]
    else words[0] + " " + JoinWords(words[1..])
  }

  lemma {:induction false} WordLengthOfWord(w: string, rest: string)
    requires IsWord(w)
    requires rest == [] || IsShellSpace(rest[0])
    ensures WordLength(w + rest) == |w|
    decreases |w|
  {
    if |w| > 1 {
      assert (w + rest)[1..] == w[1..] + rest;
      WordLengthOfWord(w[1..], rest);
    } else {
      assert (w + rest)[1..] == rest;
    }
  }

  lemma SplitWordsCons(w: string, rest: string)
    requires IsWord(w)
    requires rest == [] || IsShellSpace(rest[0])
    ensures SplitWords(w + rest) == [w] + SplitWords(rest)
  {
    assert SkipShellSpace(w + rest) == w + rest;
    WordLengthOfWord(w, rest);
    assert (w + rest)[..|w|] == w && (w + rest)[|w|..] == rest;
  }

  lemma SplitWordsSkipsSpace(s: string)
    ensures SplitWords(" " + s) == SplitWords(s)
  {
  }

  lemma HeadTail<T>(xs: seq<T>)
    requires xs != []
    ensures xs == [xs[0]] + xs[1..]
  {
  }

  /** Splitting a space-joined list of words gives the words back. */
  lemma {:induction false} SplitJoin(words: seq<string>)
    requires forall k :: 0 <= k < |words| ==> IsWord(words[k])
    ensures SplitWords(JoinWords(words)) == words
  {
    if |words| == 1 {
      SplitWordsCons(words[0], "");
      assert words[0] + "" == words[0];
    } else if words != [] {
      var rest := words[1..];
      var j := JoinWords(rest);
      assert JoinWords(words) == words[0] + (" " + j);
      SplitWordsCons(words[0], " " + j);
      SplitWordsSkipsSpace(j);
      SplitJoin(rest);
      HeadTail(words);
    }
  }
}
