/**
 * The Python `str` operations the generator relies on, with Python's own
 * semantics: `p in s`, `s.count`, `s.replace` (including an empty pattern),
 * `s.strip()` over Python's whitespace set, `s.split(c)`, `sep.join`,
 * slicing with negative bounds, `ljust`, `' ' * n`, and ASCII `upper`,
 * `lower`, `islower` and `title`.
 */
module PyStr {

  // ---------------------------------------------------------------- slicing

  /** Python's normalisation of a slice bound against a length. */
  function SliceBound(len: nat, i: int): (r: nat)
    ensures r <= len
  {
    if i < 0 then (if len + i < 0 then 0 else len + i)
    else if i > len then len
    else i
  }

  /** Python's `s[start:stop]`, negative bounds counted from the end. */
  function Slice(s: string, start: int, stop: int): (r: string)
    ensures |r| <= |s|
  {
    var lo := SliceBound(|s|, start);
    var hi := SliceBound(|s|, stop);
    if lo < hi then s[lo..hi] else []
  }

  /** Taking one more element of a sequence appends that element. */
  lemma TakeSnoc<T>(s: seq<T>, i: nat)
    requires i < |s|
    ensures s[..i + 1] == s[..i] + [s[i]]
  {
  }

  /** Regrouping a three-part concatenation. */
  lemma Assoc3<T>(a: seq<T>, b: seq<T>, c: seq<T>)
    ensures a + (b + c) == a + b + c
  {
  }

  /** Regrouping a four-part concatenation. */
  lemma Assoc4<T>(a: seq<T>, b: seq<T>, c: seq<T>, d: seq<T>)
    ensures a + b + (c + d) == a + b + c + d
  {
  }

  /** Appending one element after a concatenation. */
  lemma SnocAssoc<T>(a: seq<T>, b: seq<T>, x: T)
    ensures a + b + [x] == a + (b + [x])
  {
  }

  // ------------------------------------------------------------ substrings

  predicate StartsWith(s: string, p: string) {
    |p| <= |s| && s[..|p|] == p
  }

  predicate EndsWith(s: string, p: string) {
    |p| <= |s| && s[|s| - |p|..] == p
  }

  /** Python's `p in s` on strings: p occurs in s as a contiguous run. */
  predicate Contains(s: string, p: string)
    decreases |s|
  {
    StartsWith(s, p) || (|s| > 0 && Contains(s[1..], p))
  }

  /** An occurrence at any index makes `p in s` true. */
  lemma {:induction false} ContainsAt(s: string, p: string, i: nat)
    requires i + |p| <= |s| && s[i..i + |p|] == p
    ensures Contains(s, p)
    decreases i
  {
    if i == 0 {
      assert s[..|p|] == s[0..|p|];
    } else {
      assert s[1..][i - 1..i - 1 + |p|] == s[i..i + |p|];
      ContainsAt(s[1..], p, i - 1);
    }
  }

  /** Containment is preserved by putting text on either side. */
  lemma ContainsInfix(a: string, p: string, b: string)
    ensures Contains(a + p + b, p)
  {
    assert (a + p + b)[|a|..|a| + |p|] == p;
    ContainsAt(a + p + b, p, |a|);
  }

  // --------------------------------------------------------------- count

  /** Python's `s.count(c)` for one character. */
  function Count(s: string, c: char): (r: nat)
    ensures r <= |s|
  {
    if s == [] then 0 else (if s[0] == c then 1 else 0) + Count(s[1..], c)
  }

  lemma {:induction false} CountConcat(a: string, b: string, c: char)
    ensures Count(a + b, c) == Count(a, c) + Count(b, c)
    decreases |a|
  {
    if a == [] {
      assert a + b == b;
    } else {
      assert (a + b)[0] == a[0] && (a + b)[1..] == a[1..] + b;
      CountConcat(a[1..], b, c);
    }
  }

  /** A character counts zero times exactly when it does not occur. */
  lemma {:induction false} CountZero(s: string, c: char)
    ensures Count(s, c) == 0 <==> c !in s
    decreases |s|
  {
    if s != [] {
      CountZero(s[1..], c);
      assert c in s <==> c == s[0] || c in s[1..] by {
        assert s == [s[0]] + s[1..];
      }
    }
  }

  // ------------------------------------------------------------- replace

  /** `s.replace('', r)`: r before every character and once at the end. */
  function Interleave(s: string, r: string): string
    decreases |s|
  {
    r + (if s == [] then [] else [s[0]] + Interleave(s[1..], r))
  }

  /**
   * Python's `s.replace(pat, r)`: scanning left to right, every
   * non-overlapping occurrence of pat becomes r.
   */
  function Replace(s: string, pat: string, r: string): string
    decreases |s|
  {
    if |pat| == 0 then Interleave(s, r)
    else if StartsWith(s, pat) then r + Replace(s[|pat|..], pat, r)
    else if s == [] then []
    else [s[0]] + Replace(s[1..], pat, r)
  }

  /** Python's `s.count(pat)`: the occurrences `Replace` rewrites. */
  function Occurrences(s: string, pat: string): nat
    decreases |s|
  {
    if |pat| == 0 then |s| + 1
    else if StartsWith(s, pat) then 1 + Occurrences(s[|pat|..], pat)
    else if s == [] then 0
    else Occurrences(s[1..], pat)
  }

  /** A non-empty pattern that does not occur leaves the text unchanged and is counted zero times. */
  lemma {:induction false} ReplaceAbsent(s: string, pat: string, r: string)
    requires |pat| > 0 && !Contains(s, pat)
    ensures Replace(s, pat, r) == s
    ensures Occurrences(s, pat) == 0
    decreases |s|
  {
    if s != [] {
      ReplaceAbsent(s[1..], pat, r);
      assert s == [s[0]] + s[1..];
    }
  }

  lemma {:induction false} InterleaveCount(s: string, r: string, c: char)
    ensures Count(Interleave(s, r), c) == Count(s, c) + (|s| + 1) * Count(r, c)
    decreases |s|
  {
    if s == [] {
      assert Interleave(s, r) == r;
    } else {
      InterleaveCount(s[1..], r, c);
      CountConcat(r, [s[0]] + Interleave(s[1..], r), c);
      CountConcat([s[0]], Interleave(s[1..], r), c);
      assert (|s[1..]| + 2) * Count(r, c) == (|s[1..]| + 1) * Count(r, c) + Count(r, c);
    }
  }

  /**
   * How many times a character occurs after a replacement: each rewritten
   * occurrence trades the pattern's copies of c for the replacement's.
   */
  lemma {:induction false} ReplaceCount(s: string, pat: string, r: string, c: char)
    ensures Count(Replace(s, pat, r), c)
            == Count(s, c) + Occurrences(s, pat) * (Count(r, c) - Count(pat, c))
    decreases |s|
  {
    if |pat| == 0 {
      InterleaveCount(s, r, c);
    } else if StartsWith(s, pat) {
      var rest := s[|pat|..];
      ReplaceCount(rest, pat, r, c);
      assert s == pat + rest;
      CountConcat(pat, rest, c);
      CountConcat(r, Replace(rest, pat, r), c);
      ReplaceStep(Count(pat, c), Count(rest, c), Count(r, c), Count(Replace(rest, pat, r), c), Occurrences(rest, pat));
    } else if s != [] {
      ReplaceCount(s[1..], pat, r, c);
      CountConcat([s[0]], Replace(s[1..], pat, r), c);
    }
  }

  /** The arithmetic of one rewritten occurrence. */
  lemma ReplaceStep(inPat: int, inRest: int, inR: int, inRestReplaced: int, k: int)
    requires inRestReplaced == inRest + k * (inR - inPat)
    ensures inR + inRestReplaced == inPat + inRest + (1 + k) * (inR - inPat)
  {
    assert (1 + k) * (inR - inPat) == (inR - inPat) + k * (inR - inPat);
  }

  /** Putting x in front of a text without `::` makes none, unless x and the text's head are both ':'. */
  lemma NoScopeCons(x: char, t: string)
    requires !Contains(t, "::")
    requires x != ':' || t == [] || t[0] != ':'
    ensures !Contains([x] + t, "::")
  {
    var u := [x] + t;
    assert u[1..] == t;
    if |u| >= 2 {
      assert u[..2] == [x, t[0]];
    }
  }

  /** After `replace('::', '->')` the text holds no `::` any more. */
  lemma {:induction false} ScopeSeparatorGone(s: string)
    ensures !Contains(Replace(s, "::", "->"), "::")
    ensures |Replace(s, "::", "->")| > 0 && Replace(s, "::", "->")[0] == ':' ==> |s| > 0 && s[0] == ':'
    decreases |s|
  {
    if StartsWith(s, "::") {
      var t := Replace(s[2..], "::", "->");
      ScopeSeparatorGone(s[2..]);
      assert Replace(s, "::", "->") == ['-'] + (['>'] + t);
      NoScopeCons('>', t);
      NoScopeCons('-', ['>'] + t);
    } else if s != [] {
      var t := Replace(s[1..], "::", "->");
      ScopeSeparatorGone(s[1..]);
      assert Replace(s, "::", "->") == [s[0]] + t;
      NoScopeCons(s[0], t);
    }
  }

  // ---------------------------------------------------------------- strip

  /** Python's `str.isspace()` for one character. */
  predicate IsSpace(c: char) {
    var n := c as int;
    (9 <= n <= 13) || (28 <= n <= 32) || n == 0x85 || n == 0xA0 || n == 0x1680
    || (0x2000 <= n <= 0x200A) || n == 0x2028 || n == 0x2029 || n == 0x202F
    || n == 0x205F || n == 0x3000
  }

  predicate AllSpace(s: string) {
    forall k :: 0 <= k < |s| ==> IsSpace(s[k])
  }

  function TrimStart(s: string): string
    decreases |s|
  {
    if s != [] && IsSpace(s[0]) then TrimStart(s[1..]) else s
  }

  function TrimEnd(s: string): string
    decreases |s|
  {
    if s != [] && IsSpace(s[|s| - 1]) then TrimEnd(s[..|s| - 1]) else s
  }

  /** Python's `s.strip()`. */
  function Strip(s: string): string {
    TrimEnd(TrimStart(s))
  }

  lemma {:induction false} TrimStartSpec(s: string)
    ensures |TrimStart(s)| <= |s|
    ensures TrimStart(s) == s[|s| - |TrimStart(s)|..]
    ensures AllSpace(s[..|s| - |TrimStart(s)|])
    ensures TrimStart(s) == [] || !IsSpace(TrimStart(s)[0])
    decreases |s|
  {
    if s != [] && IsSpace(s[0]) {
      TrimStartSpec(s[1..]);
      var k := |s| - |TrimStart(s)|;
      assert s[1..][..k - 1] == s[1..k];
      assert forall j :: 1 <= j < k ==> s[j] == s[1..k][j - 1];
    }
  }

  lemma {:induction false} TrimEndSpec(s: string)
    ensures |TrimEnd(s)| <= |s|
    ensures TrimEnd(s) == s[..|TrimEnd(s)|]
    ensures AllSpace(s[|TrimEnd(s)|..])
    ensures TrimEnd(s) == [] || !IsSpace(TrimEnd(s)[|TrimEnd(s)| - 1])
    decreases |s|
  {
    if s != [] && IsSpace(s[|s| - 1]) {
      var init := s[..|s| - 1];
      TrimEndSpec(init);
      var k := |TrimEnd(s)|;
      assert init[..k] == s[..k];
      assert forall j :: k <= j < |s| - 1 ==> s[j] == init[k..][j - k];
    }
  }

  /**
   * `s.strip()` is s with a (possibly empty) run of whitespace cut from each
   * end, and what is left neither starts nor ends with whitespace.
   */
  lemma StripSpec(s: string)
    ensures var r := Strip(s);
      exists i :: 0 <= i <= |s| - |r| && r == s[i..i + |r|]
        && AllSpace(s[..i]) && AllSpace(s[i + |r|..])
    ensures Strip(s) == [] || (!IsSpace(Strip(s)[0]) && !IsSpace(Strip(s)[|Strip(s)| - 1]))
  {
    var i := StripCut(s);
    StripEnds(s);
  }

  /** Where the stripped text sits inside s, with only whitespace around it. */
  lemma StripCut(s: string) returns (i: nat)
    ensures var r := Strip(s);
      i + |r| <= |s| && r == s[i..i + |r|] && AllSpace(s[..i]) && AllSpace(s[i + |r|..])
  {
    var t := TrimStart(s);
    TrimStartSpec(s);
    TrimEndSpec(t);
    var r := Strip(s);
    i := |s| - |t|;
    assert t == s[i..];
    assert r == t[..|r|];
    assert r == s[i..i + |r|];
    assert s[i + |r|..] == t[|r|..];
  }

  /** The stripped text neither starts nor ends with whitespace. */
  lemma StripEnds(s: string)
    ensures Strip(s) == [] || (!IsSpace(Strip(s)[0]) && !IsSpace(Strip(s)[|Strip(s)| - 1]))
  {
    var t := TrimStart(s);
    TrimStartSpec(s);
    TrimEndSpec(t);
    var r := Strip(s);
    if r != [] {
      assert r == t[..|r|];
      assert r[0] == t[0];
    }
  }

  lemma {:induction false} TrimStartKeepsCount(s: string, c: char)
    requires !IsSpace(c)
    ensures Count(TrimStart(s), c) == Count(s, c)
    decreases |s|
  {
    if s != [] && IsSpace(s[0]) {
      TrimStartKeepsCount(s[1..], c);
    }
  }

  lemma {:induction false} TrimEndKeepsCount(s: string, c: char)
    requires !IsSpace(c)
    ensures Count(TrimEnd(s), c) == Count(s, c)
    decreases |s|
  {
    if s != [] && IsSpace(s[|s| - 1]) {
      var init := s[..|s| - 1];
      TrimEndKeepsCount(init, c);
      assert s == init + [s[|s| - 1]];
      CountConcat(init, [s[|s| - 1]], c);
    }
  }

  /** Stripping keeps every copy of a non-whitespace character. */
  lemma StripKeepsCount(s: string, c: char)
    requires !IsSpace(c)
    ensures Count(Strip(s), c) == Count(s, c)
  {
    TrimStartKeepsCount(s, c);
    TrimEndKeepsCount(TrimStart(s), c);
  }

  // ---------------------------------------------------------- split, join

  /** Python's `s.split(c)` for a one-character separator: never empty. */
  function Split(s: string, c: char): (parts: seq<string>)
    ensures |parts| >= 1
    decreases |s|
  {
    if s == [] then [[]]
    else if s[0] == c then [[]] + Split(s[1..], c)
    else
      var rest := Split(s[1..], c);
      [[s[0]] + rest[0]] + rest[1..]
  }

  /** Python's `sep.join(parts)`. */
  function Join(parts: seq<string>, sep: string): string
    decreases |parts|
  {
    if |parts| == 0 then []
    else if |parts| == 1 then parts[0]
    else parts[0] + sep + Join(parts[1..], sep)
  }

  /** No piece of a split holds the separator. */
  lemma {:induction false} SplitPiecesFree(s: string, c: char)
    ensures forall k :: 0 <= k < |Split(s, c)| ==> c !in Split(s, c)[k]
    decreases |s|
  {
    if s != [] {
      SplitPiecesFree(s[1..], c);
    }
  }

  /** Extending the first piece extends the join by the same text in front. */
  lemma JoinExtendHead(p: string, rest: seq<string>, sep: string)
    requires |rest| >= 1
    ensures Join([p + rest[0]] + rest[1..], sep) == p + Join(rest, sep)
  {
    var parts := [p + rest[0]] + rest[1..];
    assert parts[0] == p + rest[0] && parts[1..] == rest[1..];
    if |rest| > 1 {
      assert Join(parts, sep) == (p + rest[0]) + sep + Join(rest[1..], sep);
    }
  }

  /** Joining the pieces of a split with the separator gives back the text. */
  lemma {:induction false} JoinSplit(s: string, c: char)
    ensures Join(Split(s, c), [c]) == s
    decreases |s|
  {
    if s != [] {
      var rest := Split(s[1..], c);
      JoinSplit(s[1..], c);
      if s[0] == c {
        assert Split(s, c) == [[]] + rest;
        assert ([[]] + rest)[1..] == rest;
      } else {
        JoinExtendHead([s[0]], rest, [c]);
      }
      assert s == [s[0]] + s[1..];
    }
  }

  /** Text without the separator in front of a split extends its first piece. */
  lemma {:induction false} SplitPrefix(t: string, x: string, c: char)
    requires c !in t
    ensures Split(t + x, c) == [t + Split(x, c)[0]] + Split(x, c)[1..]
    decreases |t|
  {
    if t != [] {
      assert (t + x)[0] == t[0] && t[0] != c;
      assert (t + x)[1..] == t[1..] + x;
      SplitPrefix(t[1..], x, c);
      var sx := Split(x, c);
      var rest := Split(t[1..] + x, c);
      assert rest[0] == t[1..] + sx[0] && rest[1..] == sx[1..];
      assert Split(t + x, c) == [[t[0]] + rest[0]] + rest[1..];
      assert [t[0]] + (t[1..] + sx[0]) == t + sx[0];
    } else {
      assert t + x == x;
      assert t + Split(x, c)[0] == Split(x, c)[0];
      assert Split(x, c) == [Split(x, c)[0]] + Split(x, c)[1..];
    }
  }

  /** Splitting right after a separator starts a new piece. */
  lemma SplitAtSeparator(a: string, x: string, c: char)
    requires c !in a
    ensures Split(a + [c] + x, c) == [a] + Split(x, c)
  {
    assert a + [c] + x == a + ([c] + x);
    SplitPrefix(a, [c] + x, c);
    assert ([c] + x)[0] == c && ([c] + x)[1..] == x;
    assert Split([c] + x, c) == [[]] + Split(x, c);
    assert a + [] == a;
  }

  /**
   * Splitting pieces joined by a separator that starts with c (and has no
   * other c) gives the pieces back, each but the first behind the rest of
   * the separator.
   */
  lemma {:induction false} SplitJoin(parts: seq<string>, c: char, t: string)
    requires |parts| >= 1 && c !in t
    requires forall k :: 0 <= k < |parts| ==> c !in parts[k]
    ensures Split(Join(parts, [c] + t), c)
      == [parts[0]] + seq(|parts| - 1, k requires 0 <= k < |parts| - 1 => t + parts[k + 1])
    decreases |parts|
  {
    var sep := [c] + t;
    if |parts| == 1 {
      SplitPrefix(parts[0], [], c);
      assert parts[0] + [] == parts[0];
    } else {
      var tail := parts[1..];
      SplitJoin(tail, c, t);
      var j := Join(tail, sep);
      assert Join(parts, sep) == parts[0] + [c] + (t + j);
      SplitAtSeparator(parts[0], t + j, c);
      SplitPrefix(t, j, c);
    }
  }

  /** Splitting pieces joined by exactly the separator gives the pieces back. */
  lemma SplitJoinExact(parts: seq<string>, c: char)
    requires |parts| >= 1
    requires forall k :: 0 <= k < |parts| ==> c !in parts[k]
    ensures Split(Join(parts, [c]), c) == parts
  {
    SplitJoin(parts, c, []);
    assert [c] + [] == [c];
    var rest := seq(|parts| - 1, k requires 0 <= k < |parts| - 1 => [] + parts[k + 1]);
    assert rest == parts[1..] by {
      forall k | 0 <= k < |parts| - 1 ensures rest[k] == parts[1..][k] {
        assert [] + parts[k + 1] == parts[k + 1];
      }
    }
    assert parts == [parts[0]] + parts[1..];
  }

  // ---------------------------------------------------------- padding

  /** Python's `' ' * n` (empty for n <= 0). */
  function Spaces(n: int): (r: string)
    ensures |r| == (if n < 0 then 0 else n)
    ensures forall k :: 0 <= k < |r| ==> r[k] == ' '
  {
    seq(if n < 0 then 0 else n, _ => ' ')
  }

  /** Python's `s.ljust(width)`. */
  function LJust(s: string, width: int): string {
    if |s| >= width then s else s + Spaces(width - |s|)
  }

  /** `ljust` keeps s as a prefix, pads only with spaces, and reaches the width. */
  lemma LJustSpec(s: string, width: int)
    ensures var r := LJust(s, width);
      r[..|s|] == s && |r| == (if |s| >= width then |s| else width)
      && forall k :: |s| <= k < |r| ==> r[k] == ' '
  {
  }

  // ------------------------------------------------------ ASCII case

  predicate IsUpperChar(c: char) { 'A' <= c <= 'Z' }

  /** Python's `c.islower()` restricted to ASCII. */
  predicate IsLowerChar(c: char) { 'a' <= c <= 'z' }

  predicate IsLetter(c: char) { IsUpperChar(c) || IsLowerChar(c) }

  function Upper(c: char): (r: char)
    ensures IsLetter(c) ==> IsUpperChar(r)
    ensures !IsLowerChar(c) ==> r == c
  {
    if IsLowerChar(c) then (c as int - 32) as char else c
  }

  function Lower(c: char): (r: char)
    ensures IsLetter(c) ==> IsLowerChar(r)
    ensures !IsUpperChar(c) ==> r == c
  {
    if IsUpperChar(c) then (c as int + 32) as char else c
  }

  /**
   * `str.title()` as Python runs it: a flag says whether the previous
   * character was cased; a cased character is upper-cased after an uncased
   * one and lower-cased after a cased one.
   */
  function TitleFrom(s: string, prevCased: bool): string
    decreases |s|
  {
    if s == [] then []
    else if IsUpperChar(s[0]) then [if prevCased then Lower(s[0]) else s[0]] + TitleFrom(s[1..], true)
    else if IsLowerChar(s[0]) then [if prevCased then s[0] else Upper(s[0])] + TitleFrom(s[1..], true)
    else [s[0]] + TitleFrom(s[1..], false)
  }

  function Title(s: string): string {
    TitleFrom(s, false)
  }

  /** What `title` does to the character at index i, judged from where it stands. */
  function TitleChar(s: string, i: nat, prevCased: bool): char
    requires i < |s|
  {
    var before := if i == 0 then prevCased else IsLetter(s[i - 1]);
    if !IsLetter(s[i]) then s[i] else if before then Lower(s[i]) else Upper(s[i])
  }

  lemma {:induction false} TitleFromAt(s: string, prevCased: bool)
    ensures |TitleFrom(s, prevCased)| == |s|
    ensures forall i :: 0 <= i < |s| ==> TitleFrom(s, prevCased)[i] == TitleChar(s, i, prevCased)
    decreases |s|
  {
    if s != [] {
      var flag := IsLetter(s[0]);
      TitleFromAt(s[1..], flag);
      forall i | 1 <= i < |s| ensures TitleFrom(s, prevCased)[i] == TitleChar(s, i, prevCased) {
        assert TitleFrom(s, prevCased)[i] == TitleFrom(s[1..], flag)[i - 1];
        assert s[1..][i - 1] == s[i];
        if i > 1 { assert s[1..][i - 2] == s[i - 1]; }
      }
    }
  }

  /**
   * ASCII `title()`, pointwise: a letter is upper-cased at the start or after
   * a non-letter and lower-cased after a letter; other characters stay.
   */
  lemma TitleSpec(s: string)
    ensures |Title(s)| == |s|
    ensures forall i :: 0 <= i < |s| ==>
      Title(s)[i] == if !IsLetter(s[i]) then s[i]
                     else if i > 0 && IsLetter(s[i - 1]) then Lower(s[i])
                     else Upper(s[i])
  {
    TitleFromAt(s, false);
  }
}
