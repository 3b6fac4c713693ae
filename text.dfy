/**
 * The string operations the scripts lean on (`trim`, `toLowerCase`,
 * `toUpperCase`, `includes`, `startsWith`, `split`), on strings as
 * sequences of Unicode scalar values (Dafny `char`).  Case mapping covers
 * ASCII letters only.
 */
module Text {

  /**
   * The white space `String.prototype.trim` and the regular expression `\s`
   * remove: the ECMAScript WhiteSpace and LineTerminator code points.
   */
  predicate IsSpace(c: char) {
    c == ' ' || c == '\t' || c == '\n' || c == '\r' || c == '\U{000B}' || c == '\U{000C}'
    || c == '\U{00A0}' || c == '\U{1680}' || '\U{2000}' <= c <= '\U{200A}'
    || c == '\U{2028}' || c == '\U{2029}' || c == '\U{202F}' || c == '\U{205F}'
    || c == '\U{3000}' || c == '\U{FEFF}'
  }

  predicate AllSpace(s: string) {
    forall i :: 0 <= i < |s| ==> IsSpace(s[i])
  }

  function TrimStart(s: string): (r: string)
    ensures |r| <= |s|
    ensures r == [] || !IsSpace(r[0])
  {
    if |s| > 0 && IsSpace(s[0]) then TrimStart(s[1..]) else s
  }

  /** `TrimStart` drops a prefix of white space and keeps the rest. */
  lemma {:induction false} TrimStartShape(s: string)
    ensures var r := TrimStart(s); r == s[|s| - |r|..] && AllSpace(s[..|s| - |r|])
    decreases |s|
  {
    if |s| > 0 && IsSpace(s[0]) {
      TrimStartShape(s[1..]);
      var r := TrimStart(s);
      assert s[1..][..|s| - 1 - |r|] == s[1..|s| - |r|];
    }
  }

  function TrimEnd(s: string): (r: string)
    ensures |r| <= |s|
    ensures r == [] || !IsSpace(r[|r| - 1])
  {
    if |s| > 0 && IsSpace(s[|s| - 1]) then TrimEnd(s[..|s| - 1]) else s
  }

  /** `TrimEnd` drops a suffix of white space and keeps the rest. */
  lemma {:induction false} TrimEndShape(s: string)
    ensures var r := TrimEnd(s); r == s[..|r|] && AllSpace(s[|r|..])
    decreases |s|
  {
    if |s| > 0 && IsSpace(s[|s| - 1]) {
      TrimEndShape(s[..|s| - 1]);
      var r := TrimEnd(s);
      assert s[|r|..] == s[..|s| - 1][|r|..] + [s[|s| - 1]];
    }
  }

  /** `s.trim()` */
  function Trim(s: string): (r: string)
    ensures |r| <= |s|
    ensures r == [] || (!IsSpace(r[0]) && !IsSpace(r[|r| - 1]))
  {
    var t := TrimStart(s);
    TrimEndShape(t);
    TrimEnd(t)
  }

  predicate IsBlank(s: string) {
    Trim(s) == []
  }

  lemma TrimStartNoSpace(s: string)
    requires s == [] || !IsSpace(s[0])
    ensures TrimStart(s) == s
  {
  }

  lemma TrimEndNoSpace(s: string)
    requires s == [] || !IsSpace(s[|s| - 1])
    ensures TrimEnd(s) == s
  {
  }

  /** Trimming twice is trimming once. */
  lemma TrimIdempotent(s: string)
    ensures Trim(Trim(s)) == Trim(s)
  {
    var t := Trim(s);
    TrimStartNoSpace(t);
    TrimEndNoSpace(t);
  }

  lemma {:induction false} TrimStartPadded(p: string, s: string)
    requires AllSpace(p)
    ensures TrimStart(p + s) == TrimStart(s)
    decreases |p|
  {
    if p != [] {
      assert (p + s)[0] == p[0] && (p + s)[1..] == p[1..] + s;
      TrimStartPadded(p[1..], s);
    } else {
      assert p + s == s;
    }
  }

  lemma {:induction false} TrimEndPadded(s: string, q: string)
    requires AllSpace(q)
    ensures TrimEnd(s + q) == TrimEnd(s)
    decreases |q|
  {
    if q != [] {
      assert (s + q)[|s + q| - 1] == q[|q| - 1] && (s + q)[..|s + q| - 1] == s + q[..|q| - 1];
      TrimEndPadded(s, q[..|q| - 1]);
    } else {
      assert s + q == s;
    }
  }

  lemma {:induction false} TrimEndOfSpaces(s: string)
    requires AllSpace(s)
    ensures TrimEnd(s) == []
    decreases |s|
  {
    if s != [] {
      TrimEndOfSpaces(s[..|s| - 1]);
    }
  }

  /** White space after a blank string leaves nothing after trimming. */
  lemma BlankPadded(s: string, q: string)
    requires AllSpace(s) && AllSpace(q)
    ensures TrimStart(s + q) == []
  {
    assert AllSpace(s + q);
    TrimStartPadded(s + q, []);
    assert (s + q) + [] == s + q;
  }

  /** White space after a string whose start is trimmed is kept until its end is trimmed. */
  lemma TrimStartPaddedKeeps(s: string, q: string)
    requires TrimStart(s) != []
    ensures TrimStart(s + q) == TrimStart(s) + q
  {
    var t := TrimStart(s);
    TrimStartShape(s);
    var pad, tq := s[..|s| - |t|], t + q;
    assert s + q == pad + tq by {
      assert s == pad + t;
    }
    TrimStartPadded(pad, tq);
    assert tq[0] == t[0];
    TrimStartNoSpace(tq);
  }

  /** White space after a string does not change its trimmed form. */
  lemma TrimSuffixPadded(s: string, q: string)
    requires AllSpace(q)
    ensures TrimEnd(TrimStart(s + q)) == TrimEnd(TrimStart(s))
  {
    var t := TrimStart(s);
    if t == [] {
      TrimStartShape(s);
      assert s[..|s| - |t|] == s;
      BlankPadded(s, q);
    } else {
      TrimStartPaddedKeeps(s, q);
      TrimEndPadded(t, q);
    }
  }

  /** White space around a string does not change its trimmed form. */
  lemma TrimPadded(p: string, s: string, q: string)
    requires AllSpace(p) && AllSpace(q)
    ensures Trim(p + s + q) == Trim(s)
  {
    var a := s + q;
    assert p + s + q == p + a;
    TrimStartPadded(p, a);
    TrimSuffixPadded(s, q);
  }


  /** The regular-expression classes `[A-Za-z]` and `[0-9]`. */
  predicate IsAsciiLetter(c: char) {
    'a' <= c <= 'z' || 'A' <= c <= 'Z'
  }

  predicate IsAsciiDigit(c: char) {
    '0' <= c <= '9'
  }

  predicate IsAsciiAlnum(c: char) {
    IsAsciiLetter(c) || IsAsciiDigit(c)
  }

  function LowerChar(c: char): (r: char)
    ensures !('A' <= r <= 'Z')
  {
    if 'A' <= c <= 'Z' then (c as int + 32) as char else c
  }

  function UpperChar(c: char): (r: char)
    ensures !('a' <= r <= 'z')
  {
    if 'a' <= c <= 'z' then (c as int - 32) as char else c
  }

  /** `s.toLowerCase()` (ASCII letters). */
  function ToLower(s: string): (r: string)
    ensures |r| == |s|
    ensures forall i :: 0 <= i < |s| ==> r[i] == LowerChar(s[i])
  {
    seq(|s|, i requires 0 <= i < |s| => LowerChar(s[i]))
  }

  /** `s.toUpperCase()` (ASCII letters). */
  function ToUpper(s: string): (r: string)
    ensures |r| == |s|
    ensures forall i :: 0 <= i < |s| ==> r[i] == UpperChar(s[i])
  {
    seq(|s|, i requires 0 <= i < |s| => UpperChar(s[i]))
  }

  predicate IsLowerCase(s: string) {
    forall i :: 0 <= i < |s| ==> !('A' <= s[i] <= 'Z')
  }

  lemma ToLowerOfLower(s: string)
    requires IsLowerCase(s)
    ensures ToLower(s) == s
  {
  }

  lemma ToLowerConcat(a: string, b: string)
    ensures ToLower(a + b) == ToLower(a) + ToLower(b)
  {
    var l := ToLower(a) + ToLower(b);
    forall k | 0 <= k < |a + b| ensures ToLower(a + b)[k] == l[k] {
      if k < |a| {
        assert (a + b)[k] == a[k];
      } else {
        assert (a + b)[k] == b[k - |a|];
      }
    }
  }

  /** Trimming keeps a string lower-case. */
  lemma TrimKeepsLowerCase(s: string)
    requires IsLowerCase(s)
    ensures IsLowerCase(Trim(s))
  {
    var t := TrimStart(s);
    TrimStartShape(s);
    TrimEndShape(t);
    forall i | 0 <= i < |t| ensures !('A' <= t[i] <= 'Z') {
      assert t[i] == s[|s| - |t| + i];
    }
    var r := TrimEnd(t);
    forall i | 0 <= i < |r| ensures !('A' <= r[i] <= 'Z') {
      assert r[i] == t[i];
    }
  }

  /** `s.toLowerCase().trim()` applied twice is applied once. */
  lemma LowerTrimIdempotent(s: string)
    ensures Trim(ToLower(Trim(ToLower(s)))) == Trim(ToLower(s))
  {
    var t := Trim(ToLower(s));
    TrimKeepsLowerCase(ToLower(s));
    ToLowerOfLower(t);
    TrimIdempotent(ToLower(s));
  }

  /** A word whose only capital is its first letter lower-cases to that letter and the rest. */
  lemma ToLowerCapitalised(s: string)
    requires s != [] && IsLowerCase(s[1..])
    ensures ToLower(s) == [LowerChar(s[0])] + s[1..]
  {
    ToLowerOfLower(s[1..]);
  }

  /** `s.startsWith(p)` */
  predicate StartsWith(s: string, p: string) {
    |p| <= |s| && s[..|p|] == p
  }

  predicate MatchAt(s: string, sub: string, i: nat)
    requires i + |sub| <= |s|
  {
    s[i..i + |sub|] == sub
  }

  /** `s.includes(sub)` */
  predicate Contains(s: string, sub: string) {
    exists i: nat :: i + |sub| <= |s| && MatchAt(s, sub, i)
  }

  lemma ContainsAt(s: string, sub: string, i: nat)
    requires i + |sub| <= |s| && s[i..i + |sub|] == sub
    ensures Contains(s, sub)
  {
    assert MatchAt(s, sub, i);
  }

  lemma ContainsSelf(s: string)
    ensures Contains(s, s)
  {
    ContainsAt(s, s, 0);
  }

  lemma ContainsInfix(a: string, sub: string, b: string)
    ensures Contains(a + sub + b, sub)
  {
    ContainsAt(a + sub + b, sub, |a|);
  }

  /** A string cannot contain a word one of whose characters it lacks. */
  lemma NotContainsMissingChar(s: string, x: string, k: nat)
    requires k < |x| && x[k] !in s
    ensures !Contains(s, x)
  {
    forall i: nat | i + |x| <= |s|
      ensures !MatchAt(s, x, i)
    {
      assert s[i..i + |x|][k] == s[i + k];
    }
  }

  /**
   * `a + b` does not contain `x` when `a` lacks the first character of `x`
   * and the tail `b` is no longer than `x` and differs from it.
   */
  lemma NotContainsSplit(a: string, b: string, x: string)
    requires |x| > 0 && x[0] !in a && |b| <= |x| && b != x
    ensures !Contains(a + b, x)
  {
    var s := a + b;
    forall i: nat | i + |x| <= |s|
      ensures !MatchAt(s, x, i)
    {
      if i < |a| {
        assert s[i..i + |x|][0] == a[i];
      } else {
        assert s[i..i + |x|] == b;
      }
    }
  }

  lemma NotContainsLonger(s: string, x: string)
    requires |s| < |x|
    ensures !Contains(s, x)
  {
  }

  /** `s.split(sep)` for a one-character separator. */
  function Split(s: string, sep: char): (parts: seq<string>)
    ensures |parts| >= 1
    ensures forall k :: 0 <= k < |parts| ==> sep !in parts[k]
  {
    if sep !in s then [s]
    else
      var i := IndexOfChar(s, sep);
      [s[..i]] + Split(s[i + 1..], sep)
  }

  function IndexOfChar(s: string, c: char): (i: nat)
    requires c in s
    ensures i < |s| && s[i] == c && c !in s[..i]
  {
    if s[0] == c then 0 else 1 + IndexOfChar(s[1..], c)
  }

  function Join(parts: seq<string>, sep: char): string
    requires |parts| >= 1
  {
    if |parts| == 1 then parts[0] else parts[0] + [sep] + Join(parts[1..], sep)
  }

  /** Splitting and re-joining with the same separator gives the string back. */
  lemma {:induction false} SplitJoin(s: string, sep: char)
    ensures Join(Split(s, sep), sep) == s
    decreases |s|
  {
    if sep in s {
      var i := IndexOfChar(s, sep);
      var rest := Split(s[i + 1..], sep);
      var parts := Split(s, sep);
      assert parts == [s[..i]] + rest;
      assert parts[1..] == rest;
      SplitJoin(s[i + 1..], sep);
      assert Join(parts, sep) == s[..i] + [sep] + Join(rest, sep);
      assert s == s[..i] + [sep] + s[i + 1..];
    }
  }

  /** Length of the run of white space at the start of `s`. */
  function SpaceRun(s: string): (n: nat)
    ensures n <= |s| && AllSpace(s[..n]) && (n == |s| || !IsSpace(s[n]))
  {
    if |s| > 0 && IsSpace(s[0]) then 1 + SpaceRun(s[1..]) else 0
  }

  lemma {:induction false} SpaceRunStops(t: string)
    requires t != [] && !IsSpace(t[|t| - 1])
    ensures SpaceRun(t) < |t|
    decreases |t|
  {
    if IsSpace(t[0]) {
      assert |t| > 1;
      SpaceRunStops(t[1..]);
    }
  }

  /** Index of the first white-space character, or `|s|`. */
  function FirstSpace(s: string): (i: nat)
    ensures i <= |s| && (i == |s| || IsSpace(s[i]))
    ensures forall k :: 0 <= k < i ==> !IsSpace(s[k])
  {
    if s == [] || IsSpace(s[0]) then 0 else 1 + FirstSpace(s[1..])
  }

  /** `s.split(/\s+/)`: pieces between maximal runs of white space. */
  function SplitWs(s: string): (parts: seq<string>)
    ensures |parts| >= 1
    ensures forall k :: 0 <= k < |parts| ==> forall j :: 0 <= j < |parts[k]| ==> !IsSpace(parts[k][j])
    decreases |s|
  {
    var i := FirstSpace(s);
    if i == |s| then [s]
    else
      var n := SpaceRun(s[i..]);
      [s[..i]] + SplitWs(s[i + n..])
  }

  /** After trimming, splitting on white space yields only non-empty words (or the single empty piece). */
  lemma {:induction false} SplitWsOfTrimmed(s: string)
    requires s == [] || !IsSpace(s[|s| - 1])
    requires s == [] || !IsSpace(s[0])
    ensures s == [] ==> SplitWs(s) == [""]
    ensures s != [] ==> forall k :: 0 <= k < |SplitWs(s)| ==> SplitWs(s)[k] != []
    decreases |s|
  {
    var i := FirstSpace(s);
    if s != [] && i < |s| {
      var n := SpaceRun(s[i..]);
      assert s[i..][|s[i..]| - 1] == s[|s| - 1];
      SpaceRunStops(s[i..]);
      assert s[i + n] == s[i..][n];
      SplitWsOfTrimmed(s[i + n..]);
    }
  }
  /** The first piece of `s.split(sep)` is non-empty when `s` does not start with `sep`. */
  lemma SplitFirstNonEmpty(s: string, sep: char)
    requires s != [] && s[0] != sep
    ensures Split(s, sep)[0] != []
  {
  }

  /** The last piece of `s.split(sep)` is non-empty when `s` does not end with `sep`. */
  lemma {:induction false} SplitLastNonEmpty(s: string, sep: char)
    requires s != [] && s[|s| - 1] != sep
    ensures Split(s, sep)[|Split(s, sep)| - 1] != []
    decreases |s|
  {
    if sep in s {
      var i := IndexOfChar(s, sep);
      var tail := s[i + 1..];
      assert tail[|tail| - 1] == s[|s| - 1];
      SplitLastNonEmpty(tail, sep);
    }
  }

  /** Joining pieces free of the separator and splitting again gives the pieces back. */
  lemma {:induction false} SplitOfJoin(parts: seq<string>, sep: char)
    requires |parts| >= 1 && forall k :: 0 <= k < |parts| ==> sep !in parts[k]
    ensures Split(Join(parts, sep), sep) == parts
    decreases |parts|
  {
    if |parts| > 1 {
      var w := parts[0];
      var rest := Join(parts[1..], sep);
      var s := Join(parts, sep);
      assert s == w + [sep] + rest;
      assert s[|w|] == sep;
      assert s[..|w|] == w;
      IndexOfCharAt(s, sep, |w|);
      assert s[|w| + 1..] == rest;
      SplitOfJoin(parts[1..], sep);
      assert parts == [w] + parts[1..];
    }
  }

  /** The first occurrence of `c` is where `c` sits with none before it. */
  lemma IndexOfCharAt(s: string, c: char, i: nat)
    requires i < |s| && s[i] == c && c !in s[..i]
    ensures IndexOfChar(s, c) == i
  {
    var j := IndexOfChar(s, c);
    forall k | 0 <= k < i ensures s[k] != c {
      assert s[..i][k] == s[k];
    }
    forall k | 0 <= k < j ensures s[k] != c {
      assert s[..j][k] == s[k];
    }
  }

  /** A join of non-empty pieces starts with the first piece's first character and ends with the last piece's last one. */
  lemma {:induction false} JoinEnds(parts: seq<string>, sep: char)
    requires |parts| >= 1 && forall k :: 0 <= k < |parts| ==> parts[k] != []
    ensures var j := Join(parts, sep);
      j != [] && j[0] == parts[0][0] && j[|j| - 1] == parts[|parts| - 1][|parts[|parts| - 1]| - 1]
    decreases |parts|
  {
    if |parts| > 1 {
      JoinEnds(parts[1..], sep);
    }
  }

  /** Words free of white space joined by single spaces split back on white space into the words. */
  lemma {:induction false} SplitWsOfJoin(words: seq<string>)
    requires |words| >= 1
    requires forall k :: 0 <= k < |words| ==> words[k] != [] && forall j :: 0 <= j < |words[k]| ==> !IsSpace(words[k][j])
    ensures SplitWs(Join(words, ' ')) == words
    decreases |words|
  {
    var w := words[0];
    if |words| == 1 {
      assert FirstSpace(w) == |w|;
    } else {
      var rest := Join(words[1..], ' ');
      var s := Join(words, ' ');
      assert s == w + [' '] + rest;
      assert s[..|w|] == w;
      assert FirstSpace(s) == |w| by {
        FirstSpaceAt(s, |w|);
      }
      JoinEnds(words[1..], ' ');
      assert s[|w|..] == [' '] + rest;
      assert SpaceRun(s[|w|..]) == 1 by {
        assert s[|w|..][1..] == rest;
      }
      assert s[|w| + 1..] == rest;
      SplitWsOfJoin(words[1..]);
    }
  }

  lemma FirstSpaceAt(s: string, i: nat)
    requires i < |s| && IsSpace(s[i]) && forall k :: 0 <= k < i ==> !IsSpace(s[k])
    ensures FirstSpace(s) == i
  {
  }
}
