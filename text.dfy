/**
 * The JavaScript string operations the quiz code relies on: `trim()`, the `\s`
 * character class, `toLowerCase()`, `split(sep)` and `startsWith(prefix)`.
 * Strings are sequences of characters.
 */
module Text {

  /** ECMAScript WhiteSpace and LineTerminator code points: what `trim()` removes and `\s` matches. */
  predicate IsSpace(c: char) {
    || c == ' ' || c == '\t' || c == '\n' || c == '\r'
    || c == '\U{000B}' || c == '\U{000C}' || c == '\U{00A0}' || c == '\U{1680}'
    || ('\U{2000}' <= c <= '\U{200A}')
    || c == '\U{2028}' || c == '\U{2029}' || c == '\U{202F}' || c == '\U{205F}'
    || c == '\U{3000}' || c == '\U{FEFF}'
  }

  predicate AllSpace(s: string) {
    forall k :: 0 <= k < |s| ==> IsSpace(s[k])
  }

  /** A string with no white space at either end (the empty string included). */
  predicate IsTrimmed(s: string) {
    s == [] || (!IsSpace(s[0]) && !IsSpace(s[|s| - 1]))
  }

  /** The number of white-space characters in `s` from position `i` on, before the first other one. */
  function SpacesFrom(s: string, i: nat): (n: nat)
    requires i <= |s|
    ensures i + n <= |s|
    ensures forall k :: i <= k < i + n ==> IsSpace(s[k])
    ensures i + n < |s| ==> !IsSpace(s[i + n])
    decreases |s| - i
  {
    if i < |s| && IsSpace(s[i]) then 1 + SpacesFrom(s, i + 1) else 0
  }

  /** The number of white-space characters in `s` just before position `j`. */
  function SpacesBefore(s: string, j: nat): (n: nat)
    requires j <= |s|
    ensures n <= j
    ensures forall k :: j - n <= k < j ==> IsSpace(s[k])
    ensures n < j ==> !IsSpace(s[j - n - 1])
  {
    if j > 0 && IsSpace(s[j - 1]) then 1 + SpacesBefore(s, j - 1) else 0
  }

  /** The number of white-space characters at the start of `s`. */
  function LeadingSpaces(s: string): (n: nat)
    ensures n <= |s|
    ensures forall k :: 0 <= k < n ==> IsSpace(s[k])
    ensures n < |s| ==> !IsSpace(s[n])
  {
    SpacesFrom(s, 0)
  }

  /** The number of white-space characters at the end of `s`. */
  function TrailingSpaces(s: string): (n: nat)
    ensures n <= |s|
    ensures forall k :: |s| - n <= k < |s| ==> IsSpace(s[k])
    ensures n < |s| ==> !IsSpace(s[|s| - n - 1])
  {
    SpacesBefore(s, |s|)
  }

  /** `s.replace(/^\s*\/, "")`, also `trimStart()`. */
  function TrimStart(s: string): (r: string)
    ensures r == s[LeadingSpaces(s)..]
    ensures r == [] || !IsSpace(r[0])
  {
    s[LeadingSpaces(s)..]
  }

  /**
   * `s.trim()`: `s` is some white space, then the result, then some white
   * space; the result neither starts nor ends with white space.
   */
  function Trim(s: string): (r: string)
    ensures IsTrimmed(r)
    ensures |r| <= |s|
  {
    var i := LeadingSpaces(s);
    if i == |s| then []
    else
      var n := TrailingSpaces(s);
      assert i < |s| - n;
      s[i..|s| - n]
  }

  /** `!s.trim()`: nothing but white space. */
  predicate IsBlank(s: string) {
    Trim(s) == []
  }

  function LowerChar(c: char): (d: char) {
    if 'A' <= c <= 'Z' then (c as int - 'A' as int + 'a' as int) as char else c
  }

  predicate IsLower(s: string) {
    forall k :: 0 <= k < |s| ==> !('A' <= s[k] <= 'Z')
  }

  /** `s.toLowerCase()` restricted to the ASCII letters. */
  function ToLower(s: string): (r: string)
    ensures |r| == |s|
    ensures forall k :: 0 <= k < |s| ==> r[k] == LowerChar(s[k])
    ensures IsLower(r)
  {
    seq(|s|, k requires 0 <= k < |s| => LowerChar(s[k]))
  }

  /** `s.startsWith(prefix)`. */
  predicate StartsWith(s: string, prefix: string) {
    |prefix| <= |s| && s[..|prefix|] == prefix
  }

  /** The position of the first `c` in `s`, or `|s|` if there is none. */
  function IndexOf(s: string, c: char): (i: nat)
    ensures i <= |s|
    ensures i < |s| ==> s[i] == c
    ensures c !in s[..i]
  {
    if s == [] then 0
    else if s[0] == c then 0
    else
      var j := IndexOf(s[1..], c);
      assert s[..1 + j] == [s[0]] + s[1..][..j];
      1 + j
  }

  /** `s.split(sep)` for a one-character separator. */
  function Split(s: string, sep: char): (parts: seq<string>)
    ensures |parts| >= 1
    ensures forall k :: 0 <= k < |parts| ==> sep !in parts[k]
    ensures sep in s <==> |parts| >= 2
    decreases |s|
  {
    var i := IndexOf(s, sep);
    if i == |s| then
      assert s[..i] == s;
      [s]
    else
      [s[..i]] + Split(s[i + 1..], sep)
  }

  /** `parts.join(sep)`. */
  function Join(parts: seq<string>, sep: char): (s: string)
    requires |parts| >= 1
  {
    if |parts| == 1 then parts[0] else parts[0] + [sep] + Join(parts[1..], sep)
  }

  // ---------------------------------------------------------------- lemmas

  /** Splitting and joining again gives back the original text. */
  lemma {:induction false} JoinSplit(s: string, sep: char)
    ensures Join(Split(s, sep), sep) == s
    decreases |s|
  {
    var i := IndexOf(s, sep);
    var parts := Split(s, sep);
    if i == |s| {
      assert s[..i] == s;
      assert parts == [s];
    } else {
      var head, rest := s[..i], s[i + 1..];
      var tail := Split(rest, sep);
      assert parts == [head] + tail;
      assert |parts| >= 2 && parts[0] == head && parts[1..] == tail;
      JoinSplit(rest, sep);
      assert Join(parts, sep) == head + [sep] + rest;
      CutAt(s, i);
    }
  }

  /** A text is what lies before position `i`, the character there, and what follows. */
  lemma CutAt<T>(s: seq<T>, i: nat)
    requires i < |s|
    ensures s == s[..i] + [s[i]] + s[i + 1..]
  {
  }

  /** Joining pieces that contain no separator and splitting again gives back the pieces. */
  lemma {:induction false} SplitJoin(parts: seq<string>, sep: char)
    requires |parts| >= 1
    requires forall k :: 0 <= k < |parts| ==> sep !in parts[k]
    ensures Split(Join(parts, sep), sep) == parts
  {
    var s := Join(parts, sep);
    if |parts| == 1 {
      SplitNoSeparator(parts[0], sep);
    } else {
      var p := parts[0];
      var rest := Join(parts[1..], sep);
      assert s == p + [sep] + rest;
      IndexOfAfterPrefix(p, sep, rest);
      assert s[..|p|] == p && s[|p| + 1..] == rest;
      SplitJoin(parts[1..], sep);
    }
  }

  /** The first piece of a split is the text before the first separator. */
  lemma SplitFirst(s: string, sep: char)
    ensures Split(s, sep)[0] == s[..IndexOf(s, sep)]
  {
    if IndexOf(s, sep) == |s| {
      assert s[..|s|] == s;
    }
  }

  /** Splitting after a separator-free piece and a separator. */
  lemma SplitAfterPrefix(p: string, sep: char, x: string)
    requires sep !in p
    ensures Split(p + [sep] + x, sep) == [p] + Split(x, sep)
  {
    var s := p + [sep] + x;
    IndexOfAfterPrefix(p, sep, x);
    assert s[..|p|] == p && s[|p| + 1..] == x;
  }

  /** The position of a character that does not occur is the length. */
  lemma {:induction false} IndexOfAbsent(s: string, c: char)
    requires c !in s
    ensures IndexOf(s, c) == |s|
  {
    if s != [] {
      assert s == [s[0]] + s[1..];
      IndexOfAbsent(s[1..], c);
    }
  }

  lemma SplitNoSeparator(s: string, sep: char)
    requires sep !in s
    ensures Split(s, sep) == [s]
  {
  }

  lemma {:induction false} IndexOfAfterPrefix(p: string, c: char, rest: string)
    requires c !in p
    ensures IndexOf(p + [c] + rest, c) == |p|
  {
    if p != [] {
      assert (p + [c] + rest)[1..] == p[1..] + [c] + rest;
      IndexOfAfterPrefix(p[1..], c, rest);
    }
  }

  /** The white space at the start of `p + t` is exactly `p`. */
  lemma LeadingSpacesOfPadded(p: string, t: string)
    requires AllSpace(p)
    requires t == [] || !IsSpace(t[0])
    ensures LeadingSpaces(p + t) == |p|
  {
    var s := p + t;
    assert forall k :: 0 <= k < |p| ==> s[k] == p[k];
    if t != [] {
      assert s[|p|] == t[0];
    }
  }

  /** The white space at the end of `t + q` is exactly `q`. */
  lemma TrailingSpacesOfPadded(t: string, q: string)
    requires AllSpace(q)
    requires t == [] || !IsSpace(t[|t| - 1])
    ensures TrailingSpaces(t + q) == |q|
  {
    var s := t + q;
    assert forall k :: |t| <= k < |s| ==> s[k] == q[k - |t|];
    if t != [] {
      assert s[|t| - 1] == t[|t| - 1];
    }
  }

  /** Trimming removes exactly the white space around an already trimmed string. */
  lemma TrimPadded(p: string, t: string, q: string)
    requires AllSpace(p) && AllSpace(q) && IsTrimmed(t)
    ensures Trim(p + t + q) == t
  {
    var s := p + t + q;
    if t == [] {
      assert s == p + q;
      assert forall k :: |p| <= k < |s| ==> s[k] == q[k - |p|];
      LeadingSpacesOfPadded(s, []);
      assert s + [] == s;
    } else {
      assert s == p + (t + q);
      LeadingSpacesOfPadded(p, t + q);
      TrailingSpacesOfPadded(p + t, q);
      assert s[|p|..|s| - |q|] == t;
    }
  }

  /** `s` is the white space `Trim` removes in front, the result, then the white space it removes behind. */
  lemma TrimSplits(s: string)
    ensures var i := LeadingSpaces(s);
            var j := if i == |s| then |s| else |s| - TrailingSpaces(s);
            && i <= j <= |s| && AllSpace(s[..i]) && AllSpace(s[j..])
            && Trim(s) == s[i..j] && s == s[..i] + Trim(s) + s[j..]
  {
    var i := LeadingSpaces(s);
    var j := if i == |s| then |s| else |s| - TrailingSpaces(s);
    forall k | 0 <= k < i ensures IsSpace(s[..i][k]) {
      assert s[..i][k] == s[k];
    }
    forall k | 0 <= k < |s| - j ensures IsSpace(s[j..][k]) {
      assert s[j..][k] == s[j + k];
    }
    SplitThree(s, i, j);
  }

  lemma SplitThree<T>(s: seq<T>, i: nat, j: nat)
    requires i <= j <= |s|
    ensures s == s[..i] + s[i..j] + s[j..]
  {
  }

  /** Trimming twice is trimming once. */
  lemma TrimIdempotent(s: string)
    ensures Trim(Trim(s)) == Trim(s)
  {
    var t := Trim(s);
    TrimPadded([], t, []);
    assert [] + t + [] == t;
  }

  /** A string is blank exactly when it is all white space. */
  lemma BlankIsAllSpace(s: string)
    ensures IsBlank(s) <==> AllSpace(s)
  {
    var n := LeadingSpaces(s);
    if !AllSpace(s) {
      var k :| 0 <= k < |s| && !IsSpace(s[k]);
      assert n <= k;
    }
  }

  lemma ToLowerKeepsTrimmed(s: string)
    requires IsTrimmed(s)
    ensures IsTrimmed(ToLower(s))
  {
    if s != [] {
      var l := ToLower(s);
      assert l[0] == LowerChar(s[0]) && l[|l| - 1] == LowerChar(s[|s| - 1]);
    }
  }

  lemma LowerCharSpace(c: char)
    ensures IsSpace(LowerChar(c)) <==> IsSpace(c)
  {
  }

  /** Lower-casing keeps every white-space count. */
  lemma SpacesOfLower(s: string, i: nat, j: nat)
    requires i <= |s| && j <= |s|
    ensures SpacesFrom(ToLower(s), i) == SpacesFrom(s, i)
    ensures SpacesBefore(ToLower(s), j) == SpacesBefore(s, j)
  {
    var l := ToLower(s);
    forall k | 0 <= k < |s|
      ensures IsSpace(l[k]) <==> IsSpace(s[k])
    {
      LowerCharSpace(s[k]);
    }
  }

  lemma ToLowerSlice(s: string, i: nat, j: nat)
    requires i <= j <= |s|
    ensures ToLower(s[i..j]) == ToLower(s)[i..j]
  {
    var a, b := ToLower(s[i..j]), ToLower(s)[i..j];
    assert forall k :: 0 <= k < |a| ==> a[k] == b[k];
  }

  /** Lower-casing and trimming can be done in either order. */
  lemma LowerTrimCommute(s: string)
    ensures ToLower(Trim(s)) == Trim(ToLower(s))
  {
    var l := ToLower(s);
    SpacesOfLower(s, 0, |s|);
    var i, n := LeadingSpaces(s), TrailingSpaces(s);
    assert LeadingSpaces(l) == i && TrailingSpaces(l) == n;
    if i < |s| {
      assert i < |s| - n;
      ToLowerSlice(s, i, |s| - n);
    }
  }

  /** Lower-casing twice is lower-casing once. */
  lemma ToLowerIdempotent(s: string)
    ensures ToLower(ToLower(s)) == ToLower(s)
  {
  }

  /** `s.trim().toLowerCase()`, the normal form of a language or a topic. */
  function TrimLower(s: string): (r: string)
    ensures IsTrimmed(r) && IsLower(r)
    ensures |r| == |Trim(s)|
  {
    ToLowerKeepsTrimmed(Trim(s));
    ToLower(Trim(s))
  }

  /** Normalising a normalised string changes nothing. */
  lemma TrimLowerIdempotent(s: string)
    ensures TrimLower(TrimLower(s)) == TrimLower(s)
  {
    var u := TrimLower(s);
    TrimPadded([], u, []);
    assert [] + u + [] == u;
    ToLowerIdempotent(Trim(s));
  }

  /** Strings that differ only in letter case normalise alike. */
  lemma TrimLowerIgnoresCase(s: string)
    ensures TrimLower(ToLower(s)) == TrimLower(s)
  {
    LowerTrimCommute(s);
    ToLowerIdempotent(Trim(s));
  }
}
