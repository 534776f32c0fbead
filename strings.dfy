/** The JavaScript string and array primitives the action relies on:
    `String.prototype.split`, `Array.prototype.join`, `trim`, `toLowerCase`
    (ASCII only), and the `filter`/`map`/flatten pipelines over arrays. */
module Strings {

  // ---------------------------------------------------------------------------
  // Array pipelines
  // ---------------------------------------------------------------------------

  /** `xs.filter(p)`: the elements satisfying `p`, in their original order. */
  function Filter<T>(xs: seq<T>, p: T -> bool): (r: seq<T>)
    ensures |r| <= |xs|
    ensures forall i :: 0 <= i < |r| ==> p(r[i])
  {
    if xs == [] then []
    else (if p(xs[0]) then [xs[0]] else []) + Filter(xs[1..], p)
  }

  /** `Filter` keeps exactly the elements satisfying `p`. */
  lemma {:induction false} FilterMembers<T>(xs: seq<T>, p: T -> bool)
    ensures forall i :: 0 <= i < |Filter(xs, p)| ==> Filter(xs, p)[i] in xs
    ensures forall i :: 0 <= i < |xs| && p(xs[i]) ==> xs[i] in Filter(xs, p)
  {
    if xs != [] {
      FilterMembers(xs[1..], p);
      var r := Filter(xs, p);
      var rest := Filter(xs[1..], p);
      assert r == (if p(xs[0]) then [xs[0]] else []) + rest;
      forall i | 0 <= i < |r| ensures r[i] in xs {
        if p(xs[0]) && i == 0 {
        } else {
          var k := if p(xs[0]) then i - 1 else i;
          assert r[i] == rest[k];
          assert rest[k] in xs[1..];
        }
      }
      forall i | 0 <= i < |xs| && p(xs[i]) ensures xs[i] in r {
        if i > 0 {
          assert xs[i] == xs[1..][i - 1];
        }
      }
    }
  }

  /** Filtering distributes over concatenation, so it keeps the relative order. */
  lemma {:induction false} FilterAppend<T>(a: seq<T>, b: seq<T>, p: T -> bool)
    ensures Filter(a + b, p) == Filter(a, p) + Filter(b, p)
  {
    if a == [] {
      assert a + b == b;
    } else {
      assert (a + b)[1..] == a[1..] + b;
      FilterAppend(a[1..], b, p);
    }
  }

  /** A filter every element passes keeps everything. */
  lemma {:induction false} FilterAll<T>(xs: seq<T>, p: T -> bool)
    requires forall i :: 0 <= i < |xs| ==> p(xs[i])
    ensures Filter(xs, p) == xs
  {
    if xs != [] {
      FilterAll(xs[1..], p);
    }
  }

  /** A filter no element passes keeps nothing. */
  lemma {:induction false} FilterNone<T>(xs: seq<T>, p: T -> bool)
    requires forall i :: 0 <= i < |xs| ==> !p(xs[i])
    ensures Filter(xs, p) == []
  {
    if xs != [] {
      FilterNone(xs[1..], p);
    }
  }

  /** The last element `Filter` keeps is the last element of `xs` satisfying `p`. */
  lemma {:induction false} FilterLast<T>(xs: seq<T>, p: T -> bool)
    requires Filter(xs, p) != []
    ensures exists i :: 0 <= i < |xs| && p(xs[i]) && Filter(xs, p)[|Filter(xs, p)| - 1] == xs[i]
                        && forall j :: i < j < |xs| ==> !p(xs[j])
  {
    var rest := Filter(xs[1..], p);
    FilterMembers(xs[1..], p);
    if rest != [] {
      FilterLast(xs[1..], p);
      var k :| 0 <= k < |xs[1..]| && p(xs[1..][k]) && rest[|rest| - 1] == xs[1..][k]
               && forall j :: k < j < |xs[1..]| ==> !p(xs[1..][j]);
      assert forall j :: k + 1 < j < |xs| ==> xs[j] == xs[1..][j - 1];
      assert p(xs[k + 1]) && Filter(xs, p)[|Filter(xs, p)| - 1] == xs[k + 1];
    } else {
      forall j | 0 < j < |xs| ensures !p(xs[j]) {
        assert xs[j] == xs[1..][j - 1];
        assert xs[j] in xs[1..];
      }
      assert p(xs[0]) && Filter(xs, p)[|Filter(xs, p)| - 1] == xs[0];
    }
  }

  /** `s => s.length != 0`, and equally JavaScript truthiness of a string. */
  predicate NonEmpty(s: string) {
    s != ""
  }

  /** `xs.map(f)`. */
  function Map<T, U>(xs: seq<T>, f: T -> U): (r: seq<U>)
    ensures |r| == |xs|
    ensures forall i :: 0 <= i < |xs| ==> r[i] == f(xs[i])
  {
    if xs == [] then [] else [f(xs[0])] + Map(xs[1..], f)
  }

  /** Mapping distributes over concatenation. */
  lemma MapAppend<T, U>(a: seq<T>, b: seq<T>, f: T -> U)
    ensures Map(a + b, f) == Map(a, f) + Map(b, f)
  {
  }

  /** `xs.reduce((arr, sub) => arr.concat(sub), [])`: one level of flattening. */
  function Flatten<T>(xss: seq<seq<T>>): (r: seq<T>)
  {
    if xss == [] then [] else xss[0] + Flatten(xss[1..])
  }

  /** The flattened list holds exactly the elements of the inner lists. */
  lemma {:induction false} FlattenMembers<T>(xss: seq<seq<T>>)
    ensures forall x :: x in Flatten(xss) <==> exists i :: 0 <= i < |xss| && x in xss[i]
  {
    if xss != [] {
      FlattenMembers(xss[1..]);
      forall x ensures x in Flatten(xss) <==> exists i :: 0 <= i < |xss| && x in xss[i] {
        if x in xss[0] {
        } else if x in Flatten(xss[1..]) {
          var i :| 0 <= i < |xss[1..]| && x in xss[1..][i];
          assert x in xss[i + 1];
        } else {
          forall i | 0 <= i < |xss| ensures x !in xss[i] {
            if i > 0 {
              assert xss[i] == xss[1..][i - 1];
            }
          }
        }
      }
    }
  }

  /** Flattening distributes over concatenation. */
  lemma {:induction false} FlattenAppend<T>(a: seq<seq<T>>, b: seq<seq<T>>)
    ensures Flatten(a + b) == Flatten(a) + Flatten(b)
  {
    if a != [] {
      assert (a + b)[1..] == a[1..] + b;
      FlattenAppend(a[1..], b);
    } else {
      assert a + b == b;
    }
  }

  // ---------------------------------------------------------------------------
  // split and join
  // ---------------------------------------------------------------------------

  /** `s.split(sep)` for a one-character separator: the maximal separator-free
      segments of `s`, with an empty segment wherever two separators meet or a
      separator starts or ends `s`. The empty string splits into `[""]`. */
  function Split(s: string, sep: char): (r: seq<string>)
    ensures |r| >= 1
    ensures forall i :: 0 <= i < |r| ==> sep !in r[i]
    ensures (|r| == 1) <==> sep !in s
  {
    if s == [] then [""]
    else if s[0] == sep then [""] + Split(s[1..], sep)
    else
      var t := Split(s[1..], sep);
      assert s[0] != sep;
      [[s[0]] + t[0]] + t[1..]
  }

  /** `xs.join(sep)` for a one-character separator; `[]` joins to `""`. */
  function Join(xs: seq<string>, sep: char): (s: string) {
    if xs == [] then ""
    else if |xs| == 1 then xs[0]
    else xs[0] + [sep] + Join(xs[1..], sep)
  }

  /** Splitting a string without the separator gives the string itself. */
  lemma {:induction false} SplitWithoutSeparator(s: string, sep: char)
    requires sep !in s
    ensures Split(s, sep) == [s]
  {
    if s != [] {
      assert sep !in s[1..];
      SplitWithoutSeparator(s[1..], sep);
      assert [s[0]] + s[1..] == s;
    }
  }

  /** Joining the segments with the separator gives back the original string. */
  lemma {:induction false} JoinSplit(s: string, sep: char)
    ensures Join(Split(s, sep), sep) == s
  {
    if s == [] {
    } else if s[0] == sep {
      JoinSplit(s[1..], sep);
      assert [sep] + s[1..] == s;
    } else {
      var t := Split(s[1..], sep);
      JoinSplit(s[1..], sep);
      if |t| == 1 {
        assert [s[0]] + t[0] == s;
      } else {
        assert Join(t, sep) == t[0] + [sep] + Join(t[1..], sep);
        assert ([s[0]] + t[0]) + [sep] + Join(t[1..], sep) == [s[0]] + Join(t, sep);
        assert [s[0]] + s[1..] == s;
      }
    }
  }

  /** Splitting a non-empty list of separator-free strings after joining it
      gives back the list. */
  lemma {:induction false} SplitJoin(xs: seq<string>, sep: char)
    requires |xs| >= 1
    requires forall i :: 0 <= i < |xs| ==> sep !in xs[i]
    ensures Split(Join(xs, sep), sep) == xs
  {
    if |xs| == 1 {
      SplitWithoutSeparator(xs[0], sep);
    } else {
      SplitJoin(xs[1..], sep);
      SplitAfterPrefix(xs[0], Join(xs[1..], sep), sep);
      assert [xs[0]] + xs[1..] == xs;
    }
  }

  /** A separator-free prefix followed by the separator contributes exactly one segment. */
  lemma {:induction false} SplitAfterPrefix(p: string, rest: string, sep: char)
    requires sep !in p
    ensures Split(p + [sep] + rest, sep) == [p] + Split(rest, sep)
  {
    if p == [] {
      assert p + [sep] + rest == [sep] + rest;
      assert ([sep] + rest)[1..] == rest;
    } else {
      var s := p + [sep] + rest;
      assert s[0] == p[0] && s[0] != sep;
      assert s[1..] == p[1..] + [sep] + rest;
      assert sep !in p[1..];
      SplitAfterPrefix(p[1..], rest, sep);
      assert [p[0]] + p[1..] == p;
    }
  }

  /** When `s` holds the separator, the first segment is the text before its
      first occurrence, and the remaining segments are those of the text after it. */
  lemma {:induction false} SplitFirst(s: string, sep: char)
    requires sep in s
    ensures |Split(s, sep)[0]| < |s|
    ensures s[..|Split(s, sep)[0]|] == Split(s, sep)[0]
    ensures s[|Split(s, sep)[0]|] == sep
    ensures Split(s[|Split(s, sep)[0]| + 1..], sep) == Split(s, sep)[1..]
  {
    if s[0] == sep {
    } else {
      assert sep in s[1..] by {
        var k :| 0 <= k < |s| && s[k] == sep;
        assert s[1..][k - 1] == sep;
      }
      SplitFirst(s[1..], sep);
      var t := Split(s[1..], sep);
      assert s[1..][..|t[0]|] == t[0];
      assert s[..|t[0]| + 1] == [s[0]] + s[1..][..|t[0]|];
      assert s[|t[0]| + 1 + 1..] == s[1..][|t[0]| + 1..];
    }
  }

  /** The first segment is a prefix of `s` that ends at `s`'s end or at a separator. */
  lemma FirstSegment(s: string, sep: char)
    ensures |Split(s, sep)[0]| <= |s|
    ensures s[..|Split(s, sep)[0]|] == Split(s, sep)[0]
    ensures |Split(s, sep)[0]| == |s| || s[|Split(s, sep)[0]|] == sep
  {
    if sep in s {
      SplitFirst(s, sep);
    } else {
      SplitWithoutSeparator(s, sep);
    }
  }

  /** Where the first two segments of a split sit in a string holding the separator. */
  lemma SplitShape(s: string, sep: char)
    requires sep in s
    ensures var parts := Split(s, sep);
      var k, v := parts[0], parts[1];
      && |k| + 1 + |v| <= |s|
      && s[..|k|] == k
      && s[|k|] == sep
      && s[|k| + 1..|k| + 1 + |v|] == v
      && (|k| + 1 + |v| == |s| || s[|k| + 1 + |v|] == sep)
  {
    var parts := Split(s, sep);
    SplitFirst(s, sep);
    var k := parts[0];
    var rest := s[|k| + 1..];
    FirstSegment(rest, sep);
    var v := parts[1];
    assert v == Split(rest, sep)[0];
    assert s[|k| + 1..|k| + 1 + |v|] == rest[..|v|];
  }

  /** `s.split(sep, limit)`: the first `limit` segments of the full split. */
  function SplitLimit(s: string, sep: char, limit: nat): (r: seq<string>)
    ensures |r| == if |Split(s, sep)| < limit then |Split(s, sep)| else limit
    ensures r == Split(s, sep)[..|r|]
  {
    var parts := Split(s, sep);
    if |parts| <= limit then parts else parts[..limit]
  }

  // ---------------------------------------------------------------------------
  // trim
  // ---------------------------------------------------------------------------

  /** The characters `String.prototype.trim` removes: the ECMAScript WhiteSpace
      code points (tab, vertical tab, form feed, space, no-break space, the
      byte order mark and the other space separators) and the LineTerminator
      code points (line feed, carriage return, line and paragraph separator). */
  const Whitespace: set<char> := {
    '\t', '\U{000B}', '\U{000C}', ' ', '\U{00A0}', '\U{FEFF}',
    '\U{1680}', '\U{2000}', '\U{2001}', '\U{2002}', '\U{2003}', '\U{2004}', '\U{2005}',
    '\U{2006}', '\U{2007}', '\U{2008}', '\U{2009}', '\U{200A}', '\U{202F}', '\U{205F}', '\U{3000}',
    '\n', '\r', '\U{2028}', '\U{2029}'
  }

  predicate IsWhitespace(c: char) {
    c in Whitespace
  }

  /** No leading or trailing whitespace. */
  predicate IsTrimmed(s: string) {
    s == [] || (!IsWhitespace(s[0]) && !IsWhitespace(s[|s| - 1]))
  }

  /** The index of the first non-whitespace character at or after `i`
      (`|s|` when there is none). */
  function SkipLeading(s: string, i: nat): (k: nat)
    requires i <= |s|
    ensures i <= k <= |s|
    ensures forall j :: i <= j < k ==> IsWhitespace(s[j])
    ensures k == |s| || !IsWhitespace(s[k])
    decreases |s| - i
  {
    if i < |s| && IsWhitespace(s[i]) then SkipLeading(s, i + 1) else i
  }

  /** The index just past the last non-whitespace character before `j`,
      not going below `lo` (`lo` when there is none). */
  function SkipTrailing(s: string, lo: nat, j: nat): (k: nat)
    requires lo <= j <= |s|
    ensures lo <= k <= j
    ensures forall i :: k <= i < j ==> IsWhitespace(s[i])
    ensures k == lo || !IsWhitespace(s[k - 1])
    decreases j
  {
    if j > lo && IsWhitespace(s[j - 1]) then SkipTrailing(s, lo, j - 1) else j
  }

  /** Where the trimmed text starts in `s`. */
  function TrimStartIndex(s: string): (k: nat)
    ensures k <= |s|
  {
    SkipLeading(s, 0)
  }

  /** `s.trim()`: the infix of `s` between its leading and its trailing
      whitespace (`TrimRemovesWhitespace`: only whitespace lies outside it). */
  function Trim(s: string): (r: string)
    ensures IsTrimmed(r)
    ensures TrimStartIndex(s) + |r| <= |s|
    ensures r == s[TrimStartIndex(s)..TrimStartIndex(s) + |r|]
  {
    var lo := SkipLeading(s, 0);
    var hi := SkipTrailing(s, lo, |s|);
    s[lo..hi]
  }

  /** Only whitespace is removed, from both ends. */
  lemma TrimRemovesWhitespace(s: string)
    ensures forall i :: 0 <= i < TrimStartIndex(s) ==> IsWhitespace(s[i])
    ensures forall i :: TrimStartIndex(s) + |Trim(s)| <= i < |s| ==> IsWhitespace(s[i])
  {
    var lo := SkipLeading(s, 0);
    var hi := SkipTrailing(s, lo, |s|);
    assert Trim(s) == s[lo..hi];
  }

  /** A string without leading or trailing whitespace is its own trim. */
  lemma TrimOfTrimmed(s: string)
    requires IsTrimmed(s)
    ensures Trim(s) == s
  {
  }

  /** Whitespace after a trimmed non-empty string is all that trimming removes. */
  lemma TrimTrailingWhitespace(t: string, w: string)
    requires t != "" && IsTrimmed(t)
    requires forall i :: 0 <= i < |w| ==> IsWhitespace(w[i])
    ensures Trim(t + w) == t
  {
    var s := t + w;
    TrimRemovesWhitespace(s);
    assert s[0] == t[0] && s[|t| - 1] == t[|t| - 1];
    assert forall i :: |t| <= i < |s| ==> IsWhitespace(s[i]) by {
      forall i | |t| <= i < |s| ensures IsWhitespace(s[i]) {
        assert s[i] == w[i - |t|];
      }
    }
    assert TrimStartIndex(s) == 0;
    assert |Trim(s)| == |t|;
    assert Trim(s) == s[..|t|] == t;
  }

  /** A whitespace-only string trims to the empty string. */
  lemma TrimOfBlank(s: string)
    requires forall i :: 0 <= i < |s| ==> IsWhitespace(s[i])
    ensures Trim(s) == ""
  {
  }

  /** Trimming never introduces a character: a string without `c` trims to one without `c`. */
  lemma TrimKeepsAbsence(s: string, c: char)
    requires c !in s
    ensures c !in Trim(s)
  {
    var r := Trim(s);
    var k := TrimStartIndex(s);
    forall j | 0 <= j < |r| ensures r[j] != c {
      assert r[j] == s[k + j];
    }
  }

  // ---------------------------------------------------------------------------
  // toLowerCase (ASCII)
  // ---------------------------------------------------------------------------

  predicate IsAsciiUpper(c: char) {
    'A' <= c <= 'Z'
  }

  function LowerChar(c: char): (d: char)
    ensures !IsAsciiUpper(d)
    ensures IsAsciiUpper(c) ==> d as int == c as int + 32
    ensures !IsAsciiUpper(c) ==> d == c
  {
    if IsAsciiUpper(c) then (c as int + 32) as char else c
  }

  /** `s.toLowerCase()` restricted to the ASCII letters. */
  function Lower(s: string): (r: string)
    ensures |r| == |s|
    ensures forall i :: 0 <= i < |s| ==> r[i] == LowerChar(s[i])
  {
    if s == [] then [] else [LowerChar(s[0])] + Lower(s[1..])
  }
}
