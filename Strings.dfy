/**
 * The two JavaScript string built-ins the form builder relies on when it reads the
 * option list of a dropdown: `String.prototype.split` with a one-character separator
 * and `String.prototype.trim`.
 */
module Strings {

  /**
   * The characters `trim` removes: ECMAScript's WhiteSpace (tab, vertical tab, form
   * feed, space, no-break space, byte-order mark and the other Unicode "Zs" space
   * separators) and LineTerminator (line feed, carriage return, line and paragraph
   * separator).
   */
  predicate IsWhitespace(c: char)
  {
    c == '\t' || c == '\n' || c == '\U{B}' || c == '\U{C}' || c == '\r' || c == ' ' ||
    c == '\U{A0}' || c == '\U{1680}' || ('\U{2000}' <= c <= '\U{200A}') ||
    c == '\U{2028}' || c == '\U{2029}' || c == '\U{202F}' || c == '\U{205F}' ||
    c == '\U{3000}' || c == '\U{FEFF}'
  }

  predicate AllWhitespace(s: string)
  {
    forall i :: 0 <= i < |s| ==> IsWhitespace(s[i])
  }

  /** Neither the first nor the last character is whitespace (vacuous for ""). */
  predicate Trimmed(s: string)
  {
    s != [] ==> !IsWhitespace(s[0]) && !IsWhitespace(s[|s| - 1])
  }

  /** `s` without its leading whitespace: no longer than `s`, and it does not start with whitespace. */
  function TrimStart(s: string): (r: string)
    ensures |r| <= |s|
    ensures r != [] ==> !IsWhitespace(r[0])
  {
    if s != [] && IsWhitespace(s[0]) then TrimStart(s[1..]) else s
  }

  /** `TrimStart` keeps a suffix of `s` and cuts off only whitespace. */
  lemma {:induction false} TrimStartSuffix(s: string)
    ensures TrimStart(s) == s[|s| - |TrimStart(s)|..]
    ensures AllWhitespace(s[..|s| - |TrimStart(s)|])
  {
    if s != [] && IsWhitespace(s[0]) {
      TrimStartSuffix(s[1..]);
      var k := |s| - |TrimStart(s)|;
      assert forall i :: 1 <= i < k ==> s[i] == s[1..][i - 1];
      assert s[1..][k - 1..] == s[k..];
    }
  }

  /** `s` without its trailing whitespace: no longer than `s`, and it does not end with whitespace. */
  function TrimEnd(s: string): (r: string)
    ensures |r| <= |s|
    ensures r != [] ==> !IsWhitespace(r[|r| - 1])
  {
    if s != [] && IsWhitespace(s[|s| - 1]) then TrimEnd(s[..|s| - 1]) else s
  }

  /** `TrimEnd` keeps a prefix of `s` and cuts off only whitespace. */
  lemma {:induction false} TrimEndPrefix(s: string)
    ensures TrimEnd(s) == s[..|TrimEnd(s)|]
    ensures AllWhitespace(s[|TrimEnd(s)|..])
  {
    if s != [] && IsWhitespace(s[|s| - 1]) {
      TrimEndPrefix(s[..|s| - 1]);
      var k := |TrimEnd(s)|;
      assert forall i :: k <= i < |s| - 1 ==> s[i] == s[..|s| - 1][i];
      assert s[..|s| - 1][..k] == s[..k];
    }
  }

  /** JavaScript `s.trim()`: `s` with leading and trailing whitespace removed. */
  function Trim(s: string): (r: string)
    ensures |r| <= |s|
    ensures Trimmed(r)
  {
    var t := TrimStart(s);
    TrimEndPrefix(t);
    TrimEnd(t)
  }

  lemma {:induction false} TrimStartOfWhitespacePrefix(a: string, m: string)
    requires AllWhitespace(a)
    requires m != [] ==> !IsWhitespace(m[0])
    ensures TrimStart(a + m) == m
    decreases |a|
  {
    if a == [] {
      assert a + m == m;
    } else {
      assert (a + m)[1..] == a[1..] + m;
      TrimStartOfWhitespacePrefix(a[1..], m);
    }
  }

  lemma {:induction false} TrimEndOfWhitespaceSuffix(m: string, b: string)
    requires AllWhitespace(b)
    requires m != [] ==> !IsWhitespace(m[|m| - 1])
    ensures TrimEnd(m + b) == m
    decreases |b|
  {
    if b == [] {
      assert m + b == m;
    } else {
      assert (m + b)[..|m + b| - 1] == m + b[..|b| - 1];
      TrimEndOfWhitespaceSuffix(m, b[..|b| - 1]);
    }
  }

  /**
   * `Trim` is determined by what it removes: when `s` is some whitespace, then a core
   * `m` that neither starts nor ends with whitespace, then more whitespace, `Trim(s)`
   * is exactly that core. Together with `Trimmed(Trim(s))` and `TrimSlice` this pins
   * `Trim` down completely.
   */
  lemma {:induction false} TrimUnique(a: string, m: string, b: string)
    requires AllWhitespace(a) && AllWhitespace(b)
    requires Trimmed(m)
    ensures Trim(a + m + b) == m
  {
    if m == [] {
      assert a + m + b == a + b;
      assert AllWhitespace(a + b);
      assert [] + (a + b) == a + b;
      TrimEndOfWhitespaceSuffix([], a + b);
      assert TrimEnd(a + b) == [];
      TrimStartOfWhitespacePrefix(a + b, []);
      assert a + b + [] == a + b;
    } else {
      assert a + m + b == a + (m + b);
      TrimStartOfWhitespacePrefix(a, m + b);
      TrimEndOfWhitespaceSuffix(m, b);
    }
  }

  /** `Trim(s)` is a contiguous piece of `s`, and everything cut off around it is whitespace. */
  lemma {:induction false} TrimSlice(s: string)
    ensures var lo := |s| - |TrimStart(s)|;
      lo + |Trim(s)| <= |s| &&
      Trim(s) == s[lo..lo + |Trim(s)|] &&
      AllWhitespace(s[..lo]) && AllWhitespace(s[lo + |Trim(s)|..])
  {
    var t := TrimStart(s);
    var lo := |s| - |t|;
    var r := TrimEnd(t);
    assert r == s[lo..lo + |r|] by {
      TrimStartSuffix(s);
      TrimEndPrefix(t);
      assert t == s[lo..];
      assert r == t[..|r|];
    }
    TrimStartSuffix(s);
    assert AllWhitespace(s[lo + |r|..]) by {
      TrimEndPrefix(t);
      assert t[|r|..] == s[lo + |r|..];
    }
  }

  /** A string without surrounding whitespace is left alone by `Trim`. */
  lemma {:induction false} TrimOfTrimmed(m: string)
    requires Trimmed(m)
    ensures Trim(m) == m
  {
    assert TrimStart(m) == m;
  }

  /** Trimming twice is trimming once. */
  lemma {:induction false} TrimIdempotent(s: string)
    ensures Trim(Trim(s)) == Trim(s)
  {
    TrimOfTrimmed(Trim(s));
  }

  /**
   * JavaScript `s.split(sep)` for a one-character separator: the pieces of `s` between
   * separators, always at least one (`"".split(",")` is `[""]`), empty pieces kept.
   */
  function Split(s: string, sep: char): (r: seq<string>)
    ensures |r| >= 1
    ensures forall i :: 0 <= i < |r| ==> sep !in r[i]
  {
    if s == [] then [[]]
    else
      var rest := Split(s[1..], sep);
      if s[0] == sep then [[]] + rest
      else [[s[0]] + rest[0]] + rest[1..]
  }

  /** There is one piece more than there are separators. */
  lemma {:induction false} SplitCount(s: string, sep: char)
    ensures |Split(s, sep)| == multiset(s)[sep] + 1
  {
    if s != [] {
      SplitCount(s[1..], sep);
      assert s == [s[0]] + s[1..];
    }
  }

  /** JavaScript `pieces.join(sep)`: the pieces with one separator between neighbours. */
  function Join(pieces: seq<string>, sep: char): (s: string)
    requires |pieces| >= 1
  {
    if |pieces| == 1 then pieces[0] else pieces[0] + [sep] + Join(pieces[1..], sep)
  }

  /** Splitting loses nothing: joining the pieces back gives the original string. */
  lemma {:induction false} JoinSplit(s: string, sep: char)
    ensures Join(Split(s, sep), sep) == s
  {
    if s != [] {
      JoinSplit(s[1..], sep);
      var rest := Split(s[1..], sep);
      if s[0] == sep {
        assert Split(s, sep)[1..] == rest;
      } else {
        var r := Split(s, sep);
        assert r[0] == [s[0]] + rest[0];
        if |rest| == 1 {
          assert r == [[s[0]] + rest[0]];
        } else {
          assert r[1..] == rest[1..];
        }
      }
    }
  }

  /** A string with no separator in it splits into itself alone. */
  lemma {:induction false} SplitWithoutSeparator(p: string, sep: char)
    requires sep !in p
    ensures Split(p, sep) == [p]
  {
    if p != [] {
      SplitWithoutSeparator(p[1..], sep);
      assert p == [p[0]] + p[1..];
    }
  }

  /** A separator-free piece followed by a separator splits off as the first piece. */
  lemma {:induction false} SplitAfterPiece(p: string, sep: char, t: string)
    requires sep !in p
    ensures Split(p + [sep] + t, sep) == [p] + Split(t, sep)
  {
    if p == [] {
      assert p + [sep] + t == [sep] + t;
      assert ([sep] + t)[1..] == t;
    } else {
      SplitAfterPiece(p[1..], sep, t);
      var s := p + [sep] + t;
      assert s[0] == p[0] && s[1..] == p[1..] + [sep] + t;
      assert p == [p[0]] + p[1..];
    }
  }

  /** Joining separator-free pieces and splitting again gives back exactly those pieces. */
  lemma {:induction false} SplitJoin(pieces: seq<string>, sep: char)
    requires |pieces| >= 1
    requires forall i :: 0 <= i < |pieces| ==> sep !in pieces[i]
    ensures Split(Join(pieces, sep), sep) == pieces
    decreases |pieces|
  {
    if |pieces| == 1 {
      SplitWithoutSeparator(pieces[0], sep);
    } else {
      SplitJoin(pieces[1..], sep);
      SplitAfterPiece(pieces[0], sep, Join(pieces[1..], sep));
      assert pieces == [pieces[0]] + pieces[1..];
    }
  }
}
