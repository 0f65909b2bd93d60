/**
 * The JavaScript string operations the storefront applies to user input and stored fields:
 * `trim`, `toLowerCase`, `includes`, `startsWith`, `split`/`join`, the `/^https?:\/\//i` test
 * and the default `Array.prototype.sort` comparison of strings.
 */
module Text {
  import Seqs

  /**
   * The code points `String.prototype.trim` removes: the WhiteSpace code points (tab, vertical
   * tab, form feed, space, no-break space, the byte order mark and the space separators) and the
   * LineTerminator code points (line feed, carriage return, line and paragraph separators).
   */
  predicate IsSpace(c: char)
  {
    || c == '\t' || c == '\n' || c == '\U{B}' || c == '\U{C}' || c == '\r' || c == ' '
    || c == '\U{A0}' || c == '\U{1680}' || ('\U{2000}' <= c <= '\U{200A}')
    || c == '\U{2028}' || c == '\U{2029}' || c == '\U{202F}' || c == '\U{205F}'
    || c == '\U{3000}' || c == '\U{FEFF}'
  }

  /** Empty or made of whitespace only: what `!s.trim()` tests. */
  ghost predicate IsBlank(s: string)
  {
    forall i :: 0 <= i < |s| ==> IsSpace(s[i])
  }

  /** Neither starts nor ends with whitespace. */
  ghost predicate IsTrimmed(s: string)
  {
    s == [] || (!IsSpace(s[0]) && !IsSpace(s[|s| - 1]))
  }

  /** The number of whitespace code points `s` starts with. */
  function LeadingSpaces(s: string): (k: nat)
    ensures k <= |s|
    ensures forall i :: 0 <= i < k ==> IsSpace(s[i])
    ensures k < |s| ==> !IsSpace(s[k])
    decreases |s|
  {
    if s != [] && IsSpace(s[0]) then
      var k := LeadingSpaces(s[1..]);
      assert forall i :: 1 <= i < k + 1 ==> s[i] == s[1..][i - 1];
      k + 1
    else 0
  }

  /** Where `s[..m]` ends once its trailing whitespace is dropped, going no lower than `lo`. */
  function ContentEnd(s: string, lo: nat, m: nat): (e: nat)
    requires lo <= m <= |s|
    ensures lo <= e <= m
    ensures forall i :: e <= i < m ==> IsSpace(s[i])
    ensures lo < e ==> !IsSpace(s[e - 1])
    decreases m
  {
    if lo < m && IsSpace(s[m - 1]) then ContentEnd(s, lo, m - 1) else m
  }

  /**
   * `String.prototype.trim`: the result is a stretch of the input with only whitespace before and
   * after it, empty exactly when the input is blank, and otherwise neither starting nor ending
   * with whitespace.
   */
  function Trim(s: string): (r: string)
    ensures |r| <= |s|
    ensures exists d ::
      && 0 <= d && d + |r| <= |s| && r == s[d..d + |r|]
      && IsBlank(s[..d]) && IsBlank(s[d + |r|..])
    ensures r == [] <==> IsBlank(s)
    ensures IsTrimmed(r)
  {
    var k := LeadingSpaces(s);
    var e := ContentEnd(s, k, |s|);
    TrimmedStretch(s, k, e);
    s[k..e]
  }

  /**
   * Cutting `k` leading and `|s| - e` trailing whitespace code points off `s`, where the
   * remaining stretch neither starts nor ends with whitespace, leaves a stretch with only
   * whitespace around it that is empty exactly when `s` is blank.
   */
  lemma TrimmedStretch(s: string, k: nat, e: nat)
    requires k <= e <= |s|
    requires forall i :: 0 <= i < k ==> IsSpace(s[i])
    requires forall i :: e <= i < |s| ==> IsSpace(s[i])
    requires k < |s| ==> !IsSpace(s[k])
    requires k < e ==> !IsSpace(s[e - 1])
    ensures var r := s[k..e];
      exists d ::
        && 0 <= d && d + |r| <= |s| && r == s[d..d + |r|]
        && IsBlank(s[..d]) && IsBlank(s[d + |r|..])
    ensures s[k..e] == [] <==> IsBlank(s)
    ensures IsTrimmed(s[k..e])
  {
    var r := s[k..e];
    assert IsBlank(s[..k]) && IsBlank(s[k + |r|..]);
    if k == e {
      assert s[..k] == s;
    } else {
      assert r[0] == s[k] && r[|r| - 1] == s[e - 1];
    }
  }

  /** A string without surrounding whitespace is its own trim. */
  lemma TrimOfTrimmed(s: string)
    requires IsTrimmed(s)
    ensures Trim(s) == s
  {
  }

  /** Trimming twice is trimming once. */
  lemma TrimIdempotent(s: string)
    ensures Trim(Trim(s)) == Trim(s)
  {
    TrimOfTrimmed(Trim(s));
  }

  /** Leading whitespace in front of a trimmed, non-empty string is all that trim removes. */
  lemma TrimBlankPrefix(p: string, s: string)
    requires IsBlank(p) && IsTrimmed(s) && s != []
    ensures Trim(p + s) == s
  {
    var t := p + s;
    assert forall i :: 0 <= i < |p| ==> t[i] == p[i];
    assert t[|p|] == s[0] && t[|t| - 1] == s[|s| - 1];
    var k := LeadingSpaces(t);
    assert k == |p|;
    assert ContentEnd(t, k, |t|) == |t|;
    assert t[k..] == s;
  }

  /** The case mapping `toLowerCase` applies to one code point (see `Lower`). */
  function LowerChar(c: char): char
  {
    if 'A' <= c <= 'Z' || ('\U{C0}' <= c <= '\U{DE}' && c != '\U{D7}') then (c as int + 32) as char
    else if c == '\U{11E}' || c == '\U{15E}' then (c as int + 1) as char
    else c
  }

  /**
   * `String.prototype.toLowerCase` for the Basic Latin and Latin-1 capitals and the Turkish
   * capitals G and S with breve and cedilla; every other code point is kept.
   */
  function Lower(s: string): (r: string)
    ensures |r| == |s|
    ensures forall i :: 0 <= i < |s| ==> r[i] == LowerChar(s[i])
  {
    seq(|s|, i requires 0 <= i < |s| => LowerChar(s[i]))
  }

  /** `s.startsWith(prefix)`. */
  predicate StartsWith(s: string, prefix: string)
  {
    |prefix| <= |s| && s[..|prefix|] == prefix
  }

  /** `s.includes(part)`: `part` occurs in `s` at some position. */
  predicate Contains(s: string, part: string)
    decreases |s|
  {
    StartsWith(s, part) || (s != [] && Contains(s[1..], part))
  }

  /** A string contains each of its prefixes. */
  lemma PrefixContained(s: string, part: string)
    requires StartsWith(s, part)
    ensures Contains(s, part)
  {
  }

  /** A string contains whatever occurs in its tail. */
  lemma ContainsInTail(s: string, part: string)
    requires s != [] && Contains(s[1..], part)
    ensures Contains(s, part)
  {
  }

  /** The regular expression `/^https?:\/\//i`: an http or https scheme, in any letter case. */
  predicate HasHttpScheme(s: string)
  {
    StartsWith(Lower(s), "http://") || StartsWith(Lower(s), "https://")
  }

  /** `s.split(sep)` for a one-character separator: the pieces between separators, empty ones included. */
  function Split(s: string, sep: char): (r: seq<string>)
    ensures r != []
    ensures forall i :: 0 <= i < |r| ==> sep !in r[i]
    decreases |s|
  {
    if s == [] then [[]]
    else
      var rest := Split(s[1..], sep);
      if s[0] == sep then [[]] + rest
      else [[s[0]] + rest[0]] + rest[1..]
  }

  /** There is one piece more than there are separators. */
  lemma {:induction false} SplitCount(s: string, sep: char)
    ensures |Split(s, sep)| == multiset(s)[sep] + 1
    decreases |s|
  {
    if s != [] {
      SplitCount(s[1..], sep);
      assert s == [s[0]] + s[1..];
    }
  }

  /** A string without the separator splits into itself. */
  lemma {:induction false} SplitWithoutSeparator(s: string, sep: char)
    requires sep !in s
    ensures Split(s, sep) == [s]
    decreases |s|
  {
    if s != [] {
      SplitWithoutSeparator(s[1..], sep);
      assert [s[0]] + s[1..] == s;
    }
  }

  /** The text in front of the first separator is the first piece. */
  lemma {:induction false} SplitAtSeparator(a: string, sep: char, b: string)
    requires sep !in a
    ensures Split(a + [sep] + b, sep) == [a] + Split(b, sep)
    decreases |a|
  {
    if a == [] {
      assert a + [sep] + b == [sep] + b;
      assert ([sep] + b)[1..] == b;
    } else {
      assert (a + [sep] + b)[1..] == a[1..] + [sep] + b;
      SplitAtSeparator(a[1..], sep, b);
      assert [a[0]] + a[1..] == a;
    }
  }

  /** `xs.join(delim)`. */
  function Join(xs: seq<string>, delim: string): string
  {
    if xs == [] then ""
    else if |xs| == 1 then xs[0]
    else xs[0] + delim + Join(xs[1..], delim)
  }

  /** Joining pieces free of the separator and splitting the result again gives the pieces back. */
  lemma {:induction false} SplitJoin(xs: seq<string>, sep: char)
    requires xs != [] && forall i :: 0 <= i < |xs| ==> sep !in xs[i]
    ensures Split(Join(xs, [sep]), sep) == xs
    decreases |xs|
  {
    if |xs| == 1 {
      SplitWithoutSeparator(xs[0], sep);
    } else {
      SplitJoin(xs[1..], sep);
      SplitAtSeparator(xs[0], sep, Join(xs[1..], [sep]));
      assert [xs[0]] + xs[1..] == xs;
    }
  }

  /** The ordering `Array.prototype.sort` uses for strings: lexicographic by code point. */
  predicate StrLe(a: string, b: string)
    decreases |a|
  {
    a == [] || (b != [] && (a[0] < b[0] || (a[0] == b[0] && StrLe(a[1..], b[1..]))))
  }

  lemma {:induction false} StrLeTotal(a: string, b: string)
    ensures StrLe(a, b) || StrLe(b, a)
    decreases |a|
  {
    if a != [] && b != [] && a[0] == b[0] {
      StrLeTotal(a[1..], b[1..]);
    }
  }

  lemma {:induction false} StrLeTransitive(a: string, b: string, c: string)
    requires StrLe(a, b) && StrLe(b, c)
    ensures StrLe(a, c)
    decreases |a|
  {
    if a != [] && a[0] == b[0] && b[0] == c[0] {
      StrLeTransitive(a[1..], b[1..], c[1..]);
    }
  }

  lemma {:induction false} StrLeAntisymmetric(a: string, b: string)
    requires StrLe(a, b) && StrLe(b, a)
    ensures a == b
    decreases |a|
  {
    if a != [] {
      StrLeAntisymmetric(a[1..], b[1..]);
      assert a == [a[0]] + a[1..] && b == [b[0]] + b[1..];
    }
  }

  /** The string order is a total preorder, so sorting by it yields an ordered sequence. */
  lemma StrLeIsTotalPreorder()
    ensures Seqs.TotalPreorder(StrLe)
  {
    forall a, b ensures StrLe(a, b) || StrLe(b, a) {
      StrLeTotal(a, b);
    }
    forall a, b, c | StrLe(a, b) && StrLe(b, c) ensures StrLe(a, c) {
      StrLeTransitive(a, b, c);
    }
  }
}
