/**
 * String operations that the email-account manager borrows from its platforms:
 * JavaScript's `trim`, `split`, `includes`, `startsWith` and `toLowerCase`,
 * SQLite's `LIKE '%q%'`, and the plain code-point order used by `ORDER BY email`.
 */
module Strings {

  /** The code points JavaScript's `String.prototype.trim` removes (WhiteSpace and LineTerminator). */
  predicate IsWhitespace(c: char)
  {
    || c == ' ' || c == '\t' || c == '\n' || c == '\r' || c == '\U{000B}' || c == '\U{000C}'
    || c == '\U{00A0}' || c == '\U{1680}' || ('\U{2000}' <= c <= '\U{200A}')
    || c == '\U{2028}' || c == '\U{2029}' || c == '\U{202F}' || c == '\U{205F}'
    || c == '\U{3000}' || c == '\U{FEFF}'
  }

  /** A string JavaScript considers blank: trimming it leaves the empty, falsy string. */
  predicate IsBlank(s: string)
  {
    forall i :: 0 <= i < |s| ==> IsWhitespace(s[i])
  }

  function TrimStart(s: string): (r: string)
    ensures |r| <= |s| && r == s[|s| - |r|..]
    ensures forall i :: 0 <= i < |s| - |r| ==> IsWhitespace(s[i])
    ensures r != [] ==> !IsWhitespace(r[0])
  {
    if s != [] && IsWhitespace(s[0]) then TrimStart(s[1..]) else s
  }

  function TrimEnd(s: string): (r: string)
    ensures |r| <= |s| && r == s[..|r|]
    ensures forall i :: |r| <= i < |s| ==> IsWhitespace(s[i])
    ensures r != [] ==> !IsWhitespace(r[|r| - 1])
  {
    if s != [] && IsWhitespace(s[|s| - 1]) then TrimEnd(s[..|s| - 1]) else s
  }

  /** JavaScript's `s.trim()`: the longest infix of `s` that neither starts nor ends with whitespace. */
  function Trim(s: string): (r: string)
    ensures r == [] <==> IsBlank(s)
    ensures r != [] ==> !IsWhitespace(r[0]) && !IsWhitespace(r[|r| - 1])
    ensures exists k :: TrimmedAt(s, r, k)
  {
    var t := TrimStart(s);
    var r := TrimEnd(t);
    // A non-empty `t` starts with a character that is not whitespace, which TrimEnd keeps.
    assert t != [] ==> r != [];
    assert t != [] ==> !IsBlank(s) by {
      if t != [] {
        assert s[|s| - |t|] == t[0];
      }
    }
    assert t == [] ==> IsBlank(s);
    TrimStartEndAt(s, t, r);
    r
  }

  /** `r` is the infix of `s` at `k` with only whitespace before and after it. */
  predicate TrimmedAt(s: string, r: string, k: int)
  {
    0 <= k <= |s| - |r| && r == s[k..k + |r|] && IsBlank(s[..k]) && IsBlank(s[k + |r|..])
  }

  /** What TrimStart and TrimEnd promise, put together: `r` sits in `s` between blank stretches. */
  lemma TrimStartEndAt(s: string, t: string, r: string)
    requires |t| <= |s| && t == s[|s| - |t|..]
    requires forall i :: 0 <= i < |s| - |t| ==> IsWhitespace(s[i])
    requires |r| <= |t| && r == t[..|r|]
    requires forall i :: |r| <= i < |t| ==> IsWhitespace(t[i])
    ensures TrimmedAt(s, r, |s| - |t|)
  {
    var k := |s| - |t|;
    assert r == s[k..k + |r|];
    var head := s[..k];
    forall i | 0 <= i < |head| ensures IsWhitespace(head[i]) {
      assert head[i] == s[i];
    }
    var tail := s[k + |r|..];
    forall i | 0 <= i < |tail| ensures IsWhitespace(tail[i]) {
      assert tail[i] == t[|r| + i];
    }
  }

  /** ASCII lower-casing, the part of `toLowerCase` and of SQLite's case-insensitive `LIKE` the model keeps. */
  function LowerChar(c: char): char
  {
    if 'A' <= c <= 'Z' then (c as int + 32) as char else c
  }

  function Lower(s: string): (r: string)
    ensures |r| == |s|
  {
    seq(|s|, i requires 0 <= i < |s| => LowerChar(s[i]))
  }

  /** `p` occurs in `s` starting at index `i`. */
  predicate OccursAt(s: string, p: string, i: int)
  {
    0 <= i && i + |p| <= |s| && s[i..i + |p|] == p
  }

  /** JavaScript's `s.startsWith(p)`. */
  predicate StartsWith(s: string, p: string)
  {
    |p| <= |s| && s[..|p|] == p
  }

  /** JavaScript's `s.includes(p)`, scanning `s` from the left. */
  predicate Contains(s: string, p: string)
    decreases |s|
  {
    StartsWith(s, p) || (s != [] && Contains(s[1..], p))
  }

  /** The left-to-right scan finds `p` exactly when `p` occurs somewhere in `s`. */
  lemma {:induction false} ContainsIff(s: string, p: string)
    ensures Contains(s, p) <==> exists i :: OccursAt(s, p, i)
    decreases |s|
  {
    if StartsWith(s, p) {
      assert OccursAt(s, p, 0);
    } else if s == [] {
    } else {
      ContainsIff(s[1..], p);
      if Contains(s[1..], p) {
        var i :| OccursAt(s[1..], p, i);
        assert s[1..][i..i + |p|] == s[i + 1..i + 1 + |p|];
        assert OccursAt(s, p, i + 1);
      }
      if exists i :: OccursAt(s, p, i) {
        var i :| OccursAt(s, p, i);
        assert i != 0;
        assert s[1..][i - 1..i - 1 + |p|] == s[i..i + |p|];
        assert OccursAt(s[1..], p, i - 1);
      }
    }
  }

  /**
   * JavaScript's `s.split(sep)` for a non-empty separator: cut at every occurrence
   * of `sep`, found greedily from the left without overlap.
   */
  function Split(s: string, sep: string): (parts: seq<string>)
    requires sep != []
    ensures |parts| >= 1
    decreases |s|
  {
    if |s| < |sep| then [s]
    else if s[..|sep|] == sep then [[]] + Split(s[|sep|..], sep)
    else
      var rest := Split(s[1..], sep);
      [[s[0]] + rest[0]] + rest[1..]
  }

  /** JavaScript's `parts.join(sep)`. */
  function Join(parts: seq<string>, sep: string): string
    requires |parts| >= 1
    decreases |parts|
  {
    if |parts| == 1 then parts[0] else parts[0] + sep + Join(parts[1..], sep)
  }

  /** Splitting loses nothing: joining the parts back with the separator gives the input. */
  lemma {:induction false} JoinSplit(s: string, sep: string)
    requires sep != []
    ensures Join(Split(s, sep), sep) == s
    decreases |s|
  {
    if |s| < |sep| {
    } else if s[..|sep|] == sep {
      var rest := Split(s[|sep|..], sep);
      JoinSplit(s[|sep|..], sep);
      JoinEmptyFirst(rest, sep);
      assert s == sep + s[|sep|..];
    } else {
      var rest := Split(s[1..], sep);
      JoinSplit(s[1..], sep);
      JoinPrepend(s[0], rest, sep);
      assert s == [s[0]] + s[1..];
    }
  }

  /** No occurrence of `sep` starts inside `x` when `sep` follows it: the first one is the one after it. */
  predicate NoEarlierSep(x: string, sep: string)
  {
    forall j :: 0 <= j < |x| ==> !OccursAt(x + sep, sep, j)
  }

  /** `sep` does not occur in `x`. */
  predicate SepFree(x: string, sep: string)
  {
    forall j :: 0 <= j <= |x| ==> !OccursAt(x, sep, j)
  }

  /**
   * The parts are cut at the leftmost occurrence of `sep` each time: every part
   * but the last is followed by the first occurrence after its start, and the
   * last part holds none.
   */
  predicate CutAtSeparators(parts: seq<string>, sep: string)
    requires |parts| >= 1
  {
    (forall k :: 0 <= k < |parts| - 1 ==> NoEarlierSep(parts[k], sep)) && SepFree(parts[|parts| - 1], sep)
  }

  /** `Split` cuts at every leftmost separator; with `JoinSplit` this determines the parts. */
  lemma {:induction false} SplitCutsAtSeparators(s: string, sep: string)
    requires sep != []
    ensures CutAtSeparators(Split(s, sep), sep)
    decreases |s|
  {
    if |s| < |sep| {
      assert Split(s, sep) == [s];
    } else if s[..|sep|] == sep {
      var rest := Split(s[|sep|..], sep);
      SplitCutsAtSeparators(s[|sep|..], sep);
      assert Split(s, sep) == [[]] + rest;
      EmptyPartCut(rest, sep);
    } else {
      var rest := Split(s[1..], sep);
      SplitCutsAtSeparators(s[1..], sep);
      JoinSplit(s[1..], sep);
      assert Split(s, sep) == [[s[0]] + rest[0]] + rest[1..];
      FirstCharCut(s, sep, rest);
    }
  }

  /** A separator at the start gives an empty first part in front of the rest's parts. */
  lemma EmptyPartCut(rest: seq<string>, sep: string)
    requires |rest| >= 1 && CutAtSeparators(rest, sep)
    ensures CutAtSeparators([[]] + rest, sep)
  {
    var parts := [[]] + rest;
    forall k | 0 <= k < |parts| - 1 ensures NoEarlierSep(parts[k], sep) {
      if k > 0 {
        assert parts[k] == rest[k - 1];
      }
    }
    assert parts[|parts| - 1] == rest[|rest| - 1];
  }

  /** A first character that does not start a separator joins the rest's first part. */
  lemma FirstCharCut(s: string, sep: string, rest: seq<string>)
    requires sep != [] && |s| >= |sep| && s[..|sep|] != sep
    requires |rest| >= 1 && CutAtSeparators(rest, sep)
    requires Join(rest, sep) == s[1..]
    ensures CutAtSeparators([[s[0]] + rest[0]] + rest[1..], sep)
  {
    var parts := [[s[0]] + rest[0]] + rest[1..];
    assert forall k :: 1 <= k < |parts| ==> parts[k] == rest[k];
    if |rest| > 1 {
      FirstPartCut(s, sep, rest);
      assert parts[|parts| - 1] == rest[|rest| - 1];
    } else {
      OnlyPartCut(s, sep, rest);
      assert parts == [[s[0]] + rest[0]];
    }
  }

  /** When the rest of `s` splits into several parts, the first part of `s` extends the rest's first part by `s[0]`. */
  lemma FirstPartCut(s: string, sep: string, rest: seq<string>)
    requires sep != [] && |s| >= |sep| && s[..|sep|] != sep
    requires |rest| > 1
    requires NoEarlierSep(rest[0], sep)
    requires Join(rest, sep) == s[1..]
    ensures NoEarlierSep([s[0]] + rest[0], sep)
  {
    var first := [s[0]] + rest[0];
    assert s == [s[0]] + s[1..];
    assert s == first + sep + Join(rest[1..], sep);
    forall j | 0 <= j < |first| ensures !OccursAt(first + sep, sep, j) {
      if j == 0 {
        assert (first + sep)[..|sep|] == s[..|sep|];
      } else {
        assert first + sep == [s[0]] + (rest[0] + sep);
        OccursShift(s[0], rest[0] + sep, sep, j);
      }
    }
  }

  /** When the rest of `s` does not split, neither does `s`. */
  lemma OnlyPartCut(s: string, sep: string, rest: seq<string>)
    requires sep != [] && |s| >= |sep| && s[..|sep|] != sep
    requires |rest| == 1
    requires SepFree(rest[0], sep)
    requires Join(rest, sep) == s[1..]
    ensures SepFree([s[0]] + rest[0], sep)
  {
    assert [s[0]] + rest[0] == s;
    forall j | 0 <= j <= |s| ensures !OccursAt(s, sep, j) {
      if j >= 1 {
        assert s == [s[0]] + s[1..];
        OccursShift(s[0], s[1..], sep, j);
      }
    }
  }

  /** An occurrence after a first character is an occurrence in the rest. */
  lemma OccursShift(c: char, x: string, p: string, j: int)
    requires j >= 1
    ensures OccursAt([c] + x, p, j) ==> OccursAt(x, p, j - 1)
  {
    if OccursAt([c] + x, p, j) {
      assert ([c] + x)[j..j + |p|] == x[j - 1..j - 1 + |p|];
    }
  }

  /** An empty first part contributes just the separator. */
  lemma JoinEmptyFirst(parts: seq<string>, sep: string)
    requires |parts| >= 1
    ensures Join([[]] + parts, sep) == sep + Join(parts, sep)
  {
    assert ([[]] + parts)[1..] == parts;
  }

  /** Prepending a character to the first part prepends it to the join. */
  lemma JoinPrepend(c: char, parts: seq<string>, sep: string)
    requires |parts| >= 1
    ensures Join([[c] + parts[0]] + parts[1..], sep) == [c] + Join(parts, sep)
  {
    var merged := [[c] + parts[0]] + parts[1..];
    if |parts| > 1 {
      assert merged[1..] == parts[1..];
      assert Join(merged, sep) == ([c] + parts[0]) + sep + Join(parts[1..], sep);
    }
  }

  /** `a` sorts no later than `b` in code-point lexicographic order (SQLite's BINARY collation). */
  predicate Below(a: string, b: string)
    decreases |a|
  {
    if a == [] then true
    else if b == [] then false
    else if a[0] != b[0] then a[0] < b[0]
    else Below(a[1..], b[1..])
  }

  lemma {:induction false} BelowAntisymmetric(a: string, b: string)
    requires Below(a, b) && Below(b, a)
    ensures a == b
    decreases |a|
  {
    if a != [] && b != [] && a[0] == b[0] {
      BelowAntisymmetric(a[1..], b[1..]);
      assert a == [a[0]] + a[1..] && b == [b[0]] + b[1..];
    }
  }

  lemma {:induction false} BelowTransitive(a: string, b: string, c: string)
    requires Below(a, b) && Below(b, c)
    ensures Below(a, c)
    decreases |a|
  {
    if a != [] && b != [] && c != [] && a[0] == b[0] && b[0] == c[0] {
      BelowTransitive(a[1..], b[1..], c[1..]);
    }
  }

  lemma {:induction false} BelowTotal(a: string, b: string)
    ensures Below(a, b) || Below(b, a)
    decreases |a|
  {
    if a != [] && b != [] && a[0] == b[0] {
      BelowTotal(a[1..], b[1..]);
    }
  }

  /** `m` sorts no later than any member of `s`. */
  predicate IsLeast(m: string, s: set<string>)
  {
    forall x :: x in s ==> Below(m, x)
  }

  /** Every non-empty finite set of strings has a least element, which `ORDER BY` emits first. */
  lemma {:induction false} LeastExists(s: set<string>)
    requires s != {}
    ensures exists m :: m in s && IsLeast(m, s)
    decreases |s|
  {
    var y :| y in s;
    if s == {y} {
      BelowTotal(y, y);
      assert IsLeast(y, s);
    } else {
      var rest := s - {y};
      LeastExists(rest);
      var m :| m in rest && IsLeast(m, rest);
      var l := LeastAfterInsert(m, y, rest);
      assert rest + {y} == s;
      assert l in s && IsLeast(l, s);
    }
  }

  /** Adding `y` to a set whose least element is `m` leaves a least element, `m` or `y`. */
  lemma LeastAfterInsert(m: string, y: string, rest: set<string>) returns (l: string)
    requires m in rest && IsLeast(m, rest)
    ensures l == m || l == y
    ensures IsLeast(l, rest + {y})
  {
    BelowTotal(m, y);
    if Below(m, y) {
      l := m;
    } else {
      l := y;
      forall x | x in rest + {y} ensures Below(y, x) {
        if x == y {
          BelowTotal(y, y);
        } else {
          BelowTransitive(y, m, x);
        }
      }
    }
  }
}
