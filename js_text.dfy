/**
 * The JavaScript string operations the live viewer relies on, over `seq<char>`:
 * `trim`, `startsWith`, `split` and `join` with a one-character separator, and
 * `split(sep).pop()`.
 */
module JsText {

  /** The characters `String.prototype.trim` removes: WhiteSpace and LineTerminator code points. */
  predicate IsJsWhitespace(c: char) {
    c == '\t' || c == '\U{000B}' || c == '\U{000C}' || c == ' ' || c == '\U{00A0}' || c == '\U{FEFF}'
    || c == '\U{1680}' || ('\U{2000}' <= c <= '\U{200A}') || c == '\U{202F}' || c == '\U{205F}'
    || c == '\U{3000}' || IsLineTerminator(c)
  }

  /** The characters a regular expression's `.` does not match. */
  predicate IsLineTerminator(c: char) {
    c == '\n' || c == '\r' || c == '\U{2028}' || c == '\U{2029}'
  }

  /** Every character of `s` is whitespace (the empty string included). */
  predicate IsBlank(s: string) {
    forall i :: 0 <= i < |s| ==> IsJsWhitespace(s[i])
  }

  function TrimStart(s: string): string {
    if s != [] && IsJsWhitespace(s[0]) then TrimStart(s[1..]) else s
  }

  function TrimEnd(s: string): string {
    if s != [] && IsJsWhitespace(s[|s| - 1]) then TrimEnd(s[..|s| - 1]) else s
  }

  /** `s.trim()` */
  function Trim(s: string): string {
    TrimEnd(TrimStart(s))
  }

  lemma {:induction false} TrimStartEmptyIffBlank(s: string)
    ensures TrimStart(s) == [] <==> IsBlank(s)
  {
    if s != [] && IsJsWhitespace(s[0]) {
      TrimStartEmptyIffBlank(s[1..]);
      assert IsBlank(s) <==> IsBlank(s[1..]) by {
        if IsBlank(s[1..]) {
          forall i | 0 <= i < |s| ensures IsJsWhitespace(s[i]) {
            if i > 0 { assert s[i] == s[1..][i - 1]; }
          }
        }
      }
    } else if s != [] {
      assert !IsJsWhitespace(s[0]);
    }
  }

  lemma {:induction false} TrimEndEmptyIffBlank(s: string)
    ensures TrimEnd(s) == [] <==> IsBlank(s)
  {
    if s != [] && IsJsWhitespace(s[|s| - 1]) {
      var p := s[..|s| - 1];
      TrimEndEmptyIffBlank(p);
      assert IsBlank(s) <==> IsBlank(p) by {
        if IsBlank(p) {
          forall i | 0 <= i < |s| ensures IsJsWhitespace(s[i]) {
            if i < |s| - 1 { assert s[i] == p[i]; }
          }
        }
      }
    } else if s != [] {
      assert !IsJsWhitespace(s[|s| - 1]);
    }
  }

  lemma {:induction false} TrimStartIsSuffix(s: string)
    ensures |TrimStart(s)| <= |s| && TrimStart(s) == s[|s| - |TrimStart(s)|..]
    ensures TrimStart(s) != [] ==> !IsJsWhitespace(TrimStart(s)[0])
    ensures IsBlank(s[..|s| - |TrimStart(s)|])
  {
    if s != [] && IsJsWhitespace(s[0]) {
      TrimStartIsSuffix(s[1..]);
      var k := |s| - |TrimStart(s)|;
      assert s[..k] == [s[0]] + s[1..][..k - 1];
    }
  }

  /** `s.trim() === ''` holds exactly when every character of `s` is whitespace. */
  lemma TrimEmptyIffBlank(s: string)
    ensures Trim(s) == [] <==> IsBlank(s)
  {
    var t := TrimStart(s);
    TrimEndEmptyIffBlank(t);
    TrimStartEmptyIffBlank(s);
    TrimStartIsSuffix(s);
    if t != [] {
      assert !IsJsWhitespace(t[0]);
    }
  }

  /** `s.startsWith(prefix)` */
  predicate StartsWith(s: string, prefix: string) {
    |prefix| <= |s| && s[..|prefix|] == prefix
  }

  /** The number of occurrences of `c` in `s`. */
  function Count(s: string, c: char): nat {
    multiset(s)[c]
  }

  /**
   * `s.split(sep)` for a one-character separator: the pieces between separators,
   * always at least one (`''.split(',')` is `['']`).
   */
  function Split(s: string, sep: char): (parts: seq<string>)
    ensures |parts| >= 1
  {
    if s == [] then [[]]
    else
      var init := Split(s[..|s| - 1], sep);
      var c := s[|s| - 1];
      if c == sep then init + [[]] else ExtendLast(init, c)
  }

  /** Appends `c` to the last piece of a non-empty list of pieces. */
  function ExtendLast(parts: seq<string>, c: char): seq<string>
    requires parts != []
  {
    parts[..|parts| - 1] + [parts[|parts| - 1] + [c]]
  }

  /** `parts.join(sep)`; the empty list joins to the empty string. */
  function Join(parts: seq<string>, sep: char): string {
    if parts == [] then []
    else if |parts| == 1 then parts[0]
    else Join(parts[..|parts| - 1], sep) + [sep] + parts[|parts| - 1]
  }

  /** No element of `parts` contains `sep`. */
  predicate FreeOf(parts: seq<string>, sep: char) {
    forall i :: 0 <= i < |parts| ==> sep !in parts[i]
  }

  /** The total number of separators inside the elements of `parts`. */
  function SepsInside(parts: seq<string>, sep: char): nat {
    if parts == [] then 0
    else SepsInside(parts[..|parts| - 1], sep) + Count(parts[|parts| - 1], sep)
  }

  lemma {:induction false} SplitWithoutSep(s: string, sep: char)
    requires sep !in s
    ensures Split(s, sep) == [s]
  {
    if s != [] {
      SplitWithoutSep(s[..|s| - 1], sep);
      assert s[..|s| - 1] + [s[|s| - 1]] == s;
    }
  }

  /** Appending the separator starts a new, empty piece. */
  lemma SplitSnocSep(p: string, sep: char)
    ensures Split(p + [sep], sep) == Split(p, sep) + [[]]
  {
    assert (p + [sep])[..|p|] == p;
  }

  /** Appending another character extends the last piece. */
  lemma SplitSnocOther(p: string, c: char, sep: char)
    requires c != sep
    ensures Split(p + [c], sep) == ExtendLast(Split(p, sep), c)
  {
    assert (p + [c])[..|p|] == p;
  }

  /** Extending the last piece of `xs + ys` extends the last piece of `ys`. */
  lemma ExtendLastAppend(xs: seq<string>, ys: seq<string>, c: char)
    requires ys != []
    ensures ExtendLast(xs + ys, c) == xs + ExtendLast(ys, c)
  {
    var r := xs + ys;
    assert r[..|r| - 1] == xs + ys[..|ys| - 1];
  }

  /** Splitting distributes over a separator: the pieces of `a`, then those of `b`. */
  lemma {:induction false} SplitAround(a: string, b: string, sep: char)
    ensures Split(a + [sep] + b, sep) == Split(a, sep) + Split(b, sep)
  {
    if b == [] {
      assert a + [sep] + b == a + [sep];
      SplitSnocSep(a, sep);
    } else {
      var b', c := b[..|b| - 1], b[|b| - 1];
      var x := a + [sep] + b';
      assert b == b' + [c];
      assert a + [sep] + b == x + [c];
      SplitAround(a, b', sep);
      if c == sep {
        SplitSnocSep(x, sep);
        SplitSnocSep(b', sep);
      } else {
        SplitSnocOther(x, c, sep);
        SplitSnocOther(b', c, sep);
        ExtendLastAppend(Split(a, sep), Split(b', sep), c);
      }
    }
  }

  /** A string has one more piece than it has separators. */
  lemma {:induction false} SplitLength(s: string, sep: char)
    ensures |Split(s, sep)| == Count(s, sep) + 1
  {
    if s != [] {
      SplitLength(s[..|s| - 1], sep);
      assert s == s[..|s| - 1] + [s[|s| - 1]];
      assert multiset(s) == multiset(s[..|s| - 1]) + multiset{s[|s| - 1]};
    }
  }

  lemma {:induction false} JoinCount(parts: seq<string>, sep: char)
    requires parts != []
    ensures Count(Join(parts, sep), sep) == |parts| - 1 + SepsInside(parts, sep)
  {
    if |parts| > 1 {
      var init := parts[..|parts| - 1];
      JoinCount(init, sep);
      var j := Join(init, sep);
      assert multiset(j + [sep] + parts[|parts| - 1])
          == multiset(j) + multiset{sep} + multiset(parts[|parts| - 1]);
    } else {
      assert parts[..0] == [];
    }
  }

  lemma {:induction false} SepsInsideZeroIffFree(parts: seq<string>, sep: char)
    ensures SepsInside(parts, sep) == 0 <==> FreeOf(parts, sep)
  {
    if parts != [] {
      var init := parts[..|parts| - 1];
      SepsInsideZeroIffFree(init, sep);
      assert FreeOf(parts, sep) <==> FreeOf(init, sep) && sep !in parts[|parts| - 1] by {
        if FreeOf(init, sep) && sep !in parts[|parts| - 1] {
          forall i | 0 <= i < |parts| ensures sep !in parts[i] {
            if i < |parts| - 1 { assert parts[i] == init[i]; }
          }
        }
      }
    }
  }

  /** One more element after a separator adds exactly that element as a piece. */
  lemma SplitAppendPiece(j: string, last: string, init: seq<string>, sep: char)
    requires Split(j, sep) == init && sep !in last
    ensures Split(j + [sep] + last, sep) == init + [last]
  {
    SplitAround(j, last, sep);
    SplitWithoutSep(last, sep);
  }

  /** Splitting a joined list gives the list back when no element holds the separator. */
  lemma {:induction false} SplitJoin(parts: seq<string>, sep: char)
    requires parts != [] && FreeOf(parts, sep)
    ensures Split(Join(parts, sep), sep) == parts
  {
    if |parts| == 1 {
      SplitWithoutSep(parts[0], sep);
    } else {
      var init, last := parts[..|parts| - 1], parts[|parts| - 1];
      assert FreeOf(init, sep) by {
        forall i | 0 <= i < |init| ensures sep !in init[i] { assert init[i] == parts[i]; }
      }
      SplitJoin(init, sep);
      SplitAppendPiece(Join(init, sep), last, init, sep);
      assert init + [last] == parts;
    }
  }

  /**
   * Joining and splitting again gives exactly as many pieces as there were
   * elements if and only if no element holds the separator; each separator
   * inside an element adds one piece.
   */
  lemma SplitJoinLength(parts: seq<string>, sep: char)
    requires parts != []
    ensures |Split(Join(parts, sep), sep)| == |parts| + SepsInside(parts, sep)
    ensures |Split(Join(parts, sep), sep)| == |parts| <==> FreeOf(parts, sep)
  {
    SplitLength(Join(parts, sep), sep);
    JoinCount(parts, sep);
    SepsInsideZeroIffFree(parts, sep);
  }

  /** `s.split(sep).pop()`: the piece after the last separator. */
  function LastPiece(s: string, sep: char): (r: string)
    ensures sep !in r
    ensures |r| <= |s| && r == s[|s| - |r|..]
    ensures |r| == |s| || s[|s| - |r| - 1] == sep
  {
    LastPieceFacts(s, sep);
    var parts := Split(s, sep);
    parts[|parts| - 1]
  }

  lemma {:induction false} LastPieceFacts(s: string, sep: char)
    ensures var parts := Split(s, sep); var r := parts[|parts| - 1];
      sep !in r && |r| <= |s| && r == s[|s| - |r|..] && (|r| == |s| || s[|s| - |r| - 1] == sep)
  {
    if s != [] {
      var p, c := s[..|s| - 1], s[|s| - 1];
      assert s == p + [c];
      LastPieceFacts(p, sep);
      var parts := Split(p, sep);
      var r := parts[|parts| - 1];
      if c == sep {
        SplitSnocSep(p, sep);
        assert Split(s, sep)[|Split(s, sep)| - 1] == [];
      } else {
        SplitSnocOther(p, c, sep);
        var r' := r + [c];
        assert Split(s, sep)[|Split(s, sep)| - 1] == r';
        assert s[|s| - |r'|..] == p[|p| - |r|..] + [c];
        if |r| < |p| {
          assert s[|s| - |r'| - 1] == p[|p| - |r| - 1];
        }
      }
    }
  }
}
