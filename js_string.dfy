/**
 * The JavaScript string operations the middleware and the controllers rely on:
 * truthiness of an optional string, String.prototype.split with a one-character
 * separator, startsWith, trim, indexing the n-th field of a split, and the
 * code-point order in which the task store compares stored strings.
 */
module JsString {
  import opened Common

  /** A JavaScript value that is a string or undefined is truthy when it is a non-empty string. */
  predicate Truthy(s: Option<string>) {
    s.Some? && s.value != ""
  }

  predicate StartsWith(s: string, prefix: string) {
    |prefix| <= |s| && s[..|prefix|] == prefix
  }

  /** s.split(d) for a one-character separator d: always at least one field, separators removed. */
  function Split(s: string, d: char): (r: seq<string>)
    ensures |r| >= 1
    ensures forall i :: 0 <= i < |r| ==> d !in r[i]
    decreases |s|
  {
    if s == [] then [""]
    else
      var rest := Split(s[1..], d);
      if s[0] == d then [""] + rest
      else [[s[0]] + rest[0]] + rest[1..]
  }

  /** fields.join(d). */
  function Join(fields: seq<string>, d: char): string
    requires |fields| >= 1
    decreases |fields|
  {
    if |fields| == 1 then fields[0] else fields[0] + [d] + Join(fields[1..], d)
  }

  lemma {:induction false} SplitHead(c: char, s: string, d: char)
    requires c != d
    ensures Split([c] + s, d) == [[c] + Split(s, d)[0]] + Split(s, d)[1..]
  {
    assert ([c] + s)[1..] == s;
  }

  /** Joining the fields of a split gives back the string it was split from. */
  lemma {:induction false} JoinSplit(s: string, d: char)
    ensures Join(Split(s, d), d) == s
    decreases |s|
  {
    if s != [] {
      JoinSplit(s[1..], d);
      var rest := Split(s[1..], d);
      if s[0] == d {
        assert Split(s, d) == [""] + rest;
        assert ([""] + rest)[1..] == rest;
        calc {
          Join(Split(s, d), d);
          "" + [d] + Join(rest, d);
          [s[0]] + s[1..];
          s;
        }
      } else if |rest| == 1 {
        assert Split(s, d) == [[s[0]] + rest[0]];
        assert Join(rest, d) == rest[0];
        assert [s[0]] + s[1..] == s;
      } else {
        var r := Split(s, d);
        assert r == [[s[0]] + rest[0]] + rest[1..];
        assert r[1..] == rest[1..];
        assert Join(rest, d) == rest[0] + [d] + Join(rest[1..], d);
        calc {
          Join(r, d);
          ([s[0]] + rest[0]) + [d] + Join(rest[1..], d);
          [s[0]] + (rest[0] + [d] + Join(rest[1..], d));
          [s[0]] + s[1..];
          s;
        }
      }
    }
  }

  /** Splitting at the first separator: the text before it is the first field. */
  lemma {:induction false} SplitAtFirst(x: string, y: string, d: char)
    requires d !in x
    ensures Split(x + [d] + y, d) == [x] + Split(y, d)
    decreases |x|
  {
    if x == [] {
      assert x + [d] + y == [d] + y;
      assert ([d] + y)[1..] == y;
    } else {
      var x' := x[1..];
      assert x + [d] + y == [x[0]] + (x' + [d] + y);
      SplitAtFirst(x', y, d);
      SplitHead(x[0], x' + [d] + y, d);
      assert [x[0]] + x' == x;
    }
  }

  /** A string without the separator splits into itself alone. */
  lemma {:induction false} SplitWithoutSeparator(s: string, d: char)
    requires d !in s
    ensures Split(s, d) == [s]
    decreases |s|
  {
    if s != [] {
      SplitWithoutSeparator(s[1..], d);
      SplitHead(s[0], s[1..], d);
      assert [s[0]] + s[1..] == s;
    }
  }

  /** A split has one field more than the string has separators. */
  lemma {:induction false} SplitFieldCount(s: string, d: char)
    ensures |Split(s, d)| == multiset(s)[d] + 1
    decreases |s|
  {
    if s != [] {
      SplitFieldCount(s[1..], d);
      assert s == [s[0]] + s[1..];
      assert multiset(s) == multiset{s[0]} + multiset(s[1..]);
    }
  }

  /** s.split(d)[n]: undefined (None) when there are not that many fields. */
  function Field(s: string, d: char, n: nat): (r: Option<string>)
    ensures r.None? <==> n >= |Split(s, d)|
    ensures r.Some? ==> d !in r.value
  {
    var fields := Split(s, d);
    if n < |fields| then Some(fields[n]) else None
  }

  /** The position of the first d in s. */
  function IndexOf(s: string, d: char): (i: nat)
    requires d in s
    ensures i < |s| && s[i] == d && d !in s[..i]
    decreases |s|
  {
    if s[0] == d then 0
    else
      var j := IndexOf(s[1..], d);
      assert s[..1 + j] == [s[0]] + s[1..][..j];
      1 + j
  }

  /**
   * f is the second d-separated field of s: it starts right after the first d,
   * holds no d, and ends at the next d or at the end of s.
   */
  predicate SecondFieldAt(s: string, d: char, f: string, i: nat) {
    && i < |s| && s[i] == d && d !in s[..i]
    && i + 1 + |f| <= |s| && s[i + 1..i + 1 + |f|] == f && d !in f
    && (i + 1 + |f| == |s| || s[i + 1 + |f|] == d)
  }

  ghost predicate IsSecondField(s: string, d: char, f: string) {
    exists i: nat :: SecondFieldAt(s, d, f, i)
  }

  /** At most one string is the second field: the first separator and the next one pin it down. */
  lemma SecondFieldUnique(s: string, d: char, f: string, g: string)
    requires IsSecondField(s, d, f) && IsSecondField(s, d, g)
    ensures f == g
  {
    var i: nat :| SecondFieldAt(s, d, f, i);
    var j: nat :| SecondFieldAt(s, d, g, j);
    assert forall k :: 0 <= k < i ==> s[k] != d by {
      forall k | 0 <= k < i ensures s[k] != d { assert s[k] == s[..i][k]; }
    }
    assert forall k :: 0 <= k < j ==> s[k] != d by {
      forall k | 0 <= k < j ensures s[k] != d { assert s[k] == s[..j][k]; }
    }
    assert i == j;
    assert forall k :: i + 1 <= k < i + 1 + |f| ==> s[k] != d by {
      forall k | i + 1 <= k < i + 1 + |f| ensures s[k] != d { assert s[k] == f[k - i - 1]; }
    }
    assert forall k :: i + 1 <= k < i + 1 + |g| ==> s[k] != d by {
      forall k | i + 1 <= k < i + 1 + |g| ensures s[k] != d { assert s[k] == g[k - i - 1]; }
    }
    assert |f| == |g|;
  }

  /** The first field of a split is the prefix up to the first separator (or all of y). */
  lemma {:induction false} FirstFieldEnds(y: string, d: char)
    ensures |Split(y, d)[0]| <= |y| && y[..|Split(y, d)[0]|] == Split(y, d)[0]
    ensures |Split(y, d)[0]| < |y| ==> y[|Split(y, d)[0]|] == d
    decreases |y|
  {
    if y != [] && y[0] != d {
      FirstFieldEnds(y[1..], d);
      var f := Split(y[1..], d)[0];
      assert Split(y, d)[0] == [y[0]] + f;
      assert y[..1 + |f|] == [y[0]] + y[1..][..|f|];
    }
  }

  /** s.split(d)[1] exists exactly when s holds a d, and it is the text between the first d and the next. */
  lemma {:induction false} SecondField(s: string, d: char)
    requires d in s
    ensures Field(s, d, 1).Some? && IsSecondField(s, d, Field(s, d, 1).value)
  {
    var i := IndexOf(s, d);
    var a, y := s[..i], s[i + 1..];
    assert s == a + [d] + y;
    SplitAtFirst(a, y, d);
    var f := Split(y, d)[0];
    assert Split(s, d)[1] == f;
    FirstFieldEnds(y, d);
    assert s[i + 1..i + 1 + |f|] == y[..|f|];
    assert SecondFieldAt(s, d, f, i);
  }

  /**
   * The characters String.prototype.trim removes: the ECMAScript WhiteSpace
   * (tab, vertical tab, form feed, space, no-break space, zero-width no-break
   * space and the Unicode space separators) and LineTerminator characters.
   */
  predicate IsWhitespace(c: char) {
    || c == '\t' || c == '\n' || c == '\U{000B}' || c == '\U{000C}' || c == '\r' || c == ' '
    || c == '\U{00A0}' || c == '\U{1680}' || ('\U{2000}' <= c <= '\U{200A}')
    || c == '\U{2028}' || c == '\U{2029}' || c == '\U{202F}' || c == '\U{205F}'
    || c == '\U{3000}' || c == '\U{FEFF}'
  }

  /** The first index at or after i that does not hold whitespace, or |s|. */
  function ContentStart(s: string, i: nat): (n: nat)
    requires i <= |s|
    ensures i <= n <= |s|
    ensures forall k :: i <= k < n ==> IsWhitespace(s[k])
    ensures n == |s| || !IsWhitespace(s[n])
    decreases |s| - i
  {
    if i < |s| && IsWhitespace(s[i]) then ContentStart(s, i + 1) else i
  }

  /** Scanning down from j, the index just past the last non-whitespace character at or after lo, or lo. */
  function ContentEnd(s: string, lo: nat, j: nat): (e: nat)
    requires lo <= j <= |s|
    ensures lo <= e <= j
    ensures forall k :: e <= k < j ==> IsWhitespace(s[k])
    ensures e == lo || !IsWhitespace(s[e - 1])
    decreases j
  {
    if lo < j && IsWhitespace(s[j - 1]) then ContentEnd(s, lo, j - 1) else j
  }

  /** r is the slice of s starting at i, and everything of s around that slice is whitespace. */
  predicate SurroundedByWhitespace(r: string, s: string, i: nat) {
    && i + |r| <= |s| && r == s[i..i + |r|]
    && (forall k :: 0 <= k < i ==> IsWhitespace(s[k]))
    && (forall k :: i + |r| <= k < |s| ==> IsWhitespace(s[k]))
  }

  /** s.trim(): the part of s between its leading and its trailing whitespace. */
  function Trim(s: string): (r: string)
    ensures r == [] || (!IsWhitespace(r[0]) && !IsWhitespace(r[|r| - 1]))
    ensures exists i: nat :: SurroundedByWhitespace(r, s, i)
  {
    var n := ContentStart(s, 0);
    var e := ContentEnd(s, n, |s|);
    assert SurroundedByWhitespace(s[n..e], s, n);
    s[n..e]
  }

  /** Trimming a string that has no surrounding whitespace leaves it unchanged. */
  lemma {:induction false} TrimKeepsTrimmed(s: string)
    requires s == [] || (!IsWhitespace(s[0]) && !IsWhitespace(s[|s| - 1]))
    ensures Trim(s) == s
  {
    assert ContentStart(s, 0) == 0;
    assert ContentEnd(s, 0, |s|) == |s|;
    assert s[0..|s|] == s;
  }

  /** A leading space in front of an already trimmed string is all that trimming removes. */
  lemma {:induction false} TrimLeadingSpace(e: string)
    requires e == [] || (!IsWhitespace(e[0]) && !IsWhitespace(e[|e| - 1]))
    ensures Trim([' '] + e) == e
  {
    var s := [' '] + e;
    assert IsWhitespace(s[0]);
    assert ContentStart(s, 0) == ContentStart(s, 1);
    assert e != [] ==> s[1] == e[0];
    assert ContentStart(s, 1) == 1;
    assert e != [] ==> s[|s| - 1] == e[|e| - 1];
    assert ContentEnd(s, 1, |s|) == |s|;
    assert s[1..|s|] == e;
  }

  /** Trimming is idempotent. */
  lemma {:induction false} TrimIdempotent(s: string)
    ensures Trim(Trim(s)) == Trim(s)
  {
    TrimKeepsTrimmed(Trim(s));
  }

  /** a < b on strings as the store compares them: code point by code point, a proper prefix first. */
  predicate LexLess(a: string, b: string)
    decreases |a|
  {
    if a == [] then b != []
    else if b == [] then false
    else if a[0] != b[0] then a[0] < b[0]
    else LexLess(a[1..], b[1..])
  }

  lemma {:induction false} LexLessIrreflexive(a: string)
    ensures !LexLess(a, a)
    decreases |a|
  {
    if a != [] {
      LexLessIrreflexive(a[1..]);
    }
  }
}
