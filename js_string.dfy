/** The JavaScript string operations the member editor relies on: `trim` and `split` on a
    one-character separator, with `join` as the partner that `split` inverts. */
module JsString {

  /** The characters ECMAScript's `trim` removes: WhiteSpace (TAB, VT, FF, SPACE, NO-BREAK SPACE,
      ZERO WIDTH NO-BREAK SPACE and the other Unicode space separators) and LineTerminator
      (LF, CR, LINE SEPARATOR, PARAGRAPH SEPARATOR). */
  predicate IsWhiteSpace(c: char) {
    c == '\t' || c == '\n' || c == '\U{000B}' || c == '\U{000C}' || c == '\r' || c == ' '
    || c == '\U{00A0}' || c == '\U{1680}' || ('\U{2000}' <= c <= '\U{200A}')
    || c == '\U{2028}' || c == '\U{2029}' || c == '\U{202F}' || c == '\U{205F}'
    || c == '\U{3000}' || c == '\U{FEFF}'
  }

  // The trimming functions are stated for any class `white` of characters to remove; `Trim` uses
  // `IsWhiteSpace`.

  /** Every character of `s` is in the class `white`. */
  predicate AllOf(s: string, white: char -> bool) {
    forall k :: 0 <= k < |s| ==> white(s[k])
  }

  predicate AllWhiteSpace(s: string) {
    AllOf(s, IsWhiteSpace)
  }

  /** `s` without its leading `white` characters: a suffix of `s` whose first character, if any, is
      not `white`. */
  function TrimStart(s: string, white: char -> bool): (r: string)
    ensures |r| <= |s| && r == s[|s| - |r|..]
    ensures forall k :: 0 <= k < |s| - |r| ==> white(s[k])
    ensures r == [] || !white(r[0])
  {
    if s != [] && white(s[0]) then TrimStart(s[1..], white) else s
  }

  /** `s` without its trailing `white` characters: a prefix of `s` whose last character, if any, is
      not `white`. */
  function TrimEnd(s: string, white: char -> bool): (r: string)
    ensures |r| <= |s| && r == s[..|r|]
    ensures forall k :: |r| <= k < |s| ==> white(s[k])
    ensures r == [] || !white(r[|r| - 1])
  {
    if s != [] && white(s[|s| - 1]) then TrimEnd(s[..|s| - 1], white) else s
  }

  /** The slice of `s` between its leading and its trailing `white` characters. */
  function TrimBy(s: string, white: char -> bool): string {
    TrimEnd(TrimStart(s, white), white)
  }

  /** Trimming gives the empty string exactly when every character is `white`; otherwise the
      result starts and ends with a character that is not. */
  lemma TrimByEnds(s: string, white: char -> bool)
    ensures TrimBy(s, white) == [] <==> AllOf(s, white)
    ensures var r := TrimBy(s, white); r != [] ==> !white(r[0]) && !white(r[|r| - 1])
  {
    var t := TrimStart(s, white);
    var r := TrimEnd(t, white);
    if r == [] {
      assert t == [];
    } else {
      var k := |s| - |t| + |r| - 1;
      assert s[k] == r[|r| - 1];
      assert r[0] == t[0];
    }
  }

  /** Trimming keeps a contiguous slice of `s`: the characters from position `i` on, where `i`
      counts the leading `white` characters. */
  lemma TrimBySlice(s: string, white: char -> bool)
    ensures var r, i := TrimBy(s, white), |s| - |TrimStart(s, white)|;
      i + |r| <= |s| && forall k :: 0 <= k < |r| ==> r[k] == s[i + k]
  {
    var t := TrimStart(s, white);
    SliceBetween(s, t, TrimEnd(t, white), white);
  }

  /** What trimming removes is `white`: everything before the slice and everything after it. */
  lemma TrimByRemovesWhite(s: string, white: char -> bool)
    ensures var r, i := TrimBy(s, white), |s| - |TrimStart(s, white)|;
      (forall k :: 0 <= k < i ==> white(s[k])) && (forall k :: i + |r| <= k < |s| ==> white(s[k]))
  {
    var t := TrimStart(s, white);
    SliceBetween(s, t, TrimEnd(t, white), white);
  }

  /** A prefix `r` of a suffix `t` of `s` is a slice of `s`; what lies after `r` in `t` lies after it in `s`. */
  lemma SliceBetween(s: string, t: string, r: string, white: char -> bool)
    requires |t| <= |s| && t == s[|s| - |t|..]
    requires |r| <= |t| && r == t[..|r|]
    requires forall k :: |r| <= k < |t| ==> white(t[k])
    ensures var i := |s| - |t|; i + |r| <= |s| && forall k :: 0 <= k < |r| ==> r[k] == s[i + k]
    ensures forall k :: |s| - |t| + |r| <= k < |s| ==> white(s[k])
  {
    var i := |s| - |t|;
    forall k | i + |r| <= k < |s| ensures white(s[k]) {
      assert s[k] == t[k - i];
    }
  }

  /** Trimming twice is trimming once. */
  lemma TrimByIdempotent(s: string, white: char -> bool)
    ensures TrimBy(TrimBy(s, white), white) == TrimBy(s, white)
  {
    var r := TrimBy(s, white);
    TrimByEnds(s, white);
    if r != [] {
      assert TrimStart(r, white) == r;
    }
  }

  /** `String.prototype.trim`: empty exactly for all-white input; otherwise its first and last
      characters are visible. */
  function Trim(s: string): (r: string)
    ensures r == [] <==> AllWhiteSpace(s)
    ensures r != [] ==> !IsWhiteSpace(r[0]) && !IsWhiteSpace(r[|r| - 1])
  {
    TrimByEnds(s, IsWhiteSpace);
    TrimBy(s, IsWhiteSpace)
  }

  /** `trim` only removes white space, and only from the two ends. */
  lemma TrimRemovesOnlyWhiteSpace(s: string)
    ensures var r, i := Trim(s), |s| - |TrimStart(s, IsWhiteSpace)|;
      i + |r| <= |s| && (forall k :: 0 <= k < |r| ==> r[k] == s[i + k])
      && (forall k :: 0 <= k < i ==> IsWhiteSpace(s[k]))
      && (forall k :: i + |r| <= k < |s| ==> IsWhiteSpace(s[k]))
  {
    var r, i := Trim(s), |s| - |TrimStart(s, IsWhiteSpace)|;
    TrimBySlice(s, IsWhiteSpace);
    TrimByRemovesWhite(s, IsWhiteSpace);
    assert forall k :: 0 <= k < i ==> IsWhiteSpace(s[k]);
    assert forall k :: i + |r| <= k < |s| ==> IsWhiteSpace(s[k]);
  }

  lemma TrimIdempotent(s: string)
    ensures Trim(Trim(s)) == Trim(s)
  {
    TrimByIdempotent(s, IsWhiteSpace);
  }

  /** `s.split(sep)` for a one-character separator: the pieces between separators, in order;
      the empty string gives one empty piece, and a trailing separator an empty last piece. */
  function Split(s: string, sep: char): (parts: seq<string>)
    ensures |parts| >= 1
    ensures forall k :: 0 <= k < |parts| ==> sep !in parts[k]
    decreases |s|
  {
    if s == [] then [""]
    else
      var parts := Split(s[..|s| - 1], sep);
      var c := s[|s| - 1];
      if c == sep then parts + [""] else Extend(parts, c)
  }

  /** The pieces with `c` appended to the last one. */
  function Extend(parts: seq<string>, c: char): (r: seq<string>)
    requires |parts| >= 1
    ensures |r| == |parts| && r[..|parts| - 1] == parts[..|parts| - 1] && r[|parts| - 1] == parts[|parts| - 1] + [c]
  {
    parts[..|parts| - 1] + [parts[|parts| - 1] + [c]]
  }

  /** Extending a concatenation extends its second half. */
  lemma ExtendConcat(p: seq<string>, q: seq<string>, c: char)
    requires |q| >= 1
    ensures Extend(p + q, c) == p + Extend(q, c)
  {
    var l, r := Extend(p + q, c), p + Extend(q, c);
    assert |l| == |r|;
    forall k | 0 <= k < |l| ensures l[k] == r[k] {
      if k < |p| + |q| - 1 {
        assert l[k] == (p + q)[k];
      }
    }
  }

  /** `parts.join(sep)`. */
  function Join(parts: seq<string>, sep: char): string
    requires |parts| >= 1
    decreases |parts|
  {
    if |parts| == 1 then parts[0] else Join(parts[..|parts| - 1], sep) + [sep] + parts[|parts| - 1]
  }

  /** Joining the pieces back with the separator gives the original string. */
  lemma {:induction false} JoinSplit(s: string, sep: char)
    ensures Join(Split(s, sep), sep) == s
    decreases |s|
  {
    if s != [] {
      var s0, c := s[..|s| - 1], s[|s| - 1];
      assert s == s0 + [c];
      JoinSplit(s0, sep);
      var parts := Split(s0, sep);
      if c != sep {
        var n := |parts| - 1;
        var q := parts[..n] + [parts[n] + [c]];
        assert q[..n] == parts[..n];
        if n == 0 {
          assert Join(q, sep) == parts[0] + [c];
        } else {
          assert Join(q, sep) == Join(parts[..n], sep) + [sep] + parts[n] + [c];
        }
      }
    }
  }

  /** Splitting a join of separator-free pieces gives the pieces back. */
  lemma {:induction false} SplitJoin(parts: seq<string>, sep: char)
    requires |parts| >= 1
    requires forall k :: 0 <= k < |parts| ==> sep !in parts[k]
    ensures Split(Join(parts, sep), sep) == parts
    decreases |parts|
  {
    if |parts| == 1 {
      SplitFree(parts[0], sep);
    } else {
      var n := |parts| - 1;
      SplitJoin(parts[..n], sep);
      SplitConcat(Join(parts[..n], sep), parts[n], sep);
      SplitFree(parts[n], sep);
      assert parts[..n] + [parts[n]] == parts;
    }
  }

  /** A string without the separator is a single piece. */
  lemma {:induction false} SplitFree(s: string, sep: char)
    requires sep !in s
    ensures Split(s, sep) == [s]
    decreases |s|
  {
    if s != [] {
      var s0, c := s[..|s| - 1], s[|s| - 1];
      assert s == s0 + [c];
      assert c != sep && sep !in s0;
      SplitFree(s0, sep);
      SplitSnoc(s0, c, sep);
      assert Extend([s0], c) == [s0 + [c]];
    }
  }

  /** Appending one character either starts a new piece or extends the last one. */
  lemma SplitSnoc(s: string, c: char, sep: char)
    ensures Split(s + [c], sep) == if c == sep then Split(s, sep) + [""] else Extend(Split(s, sep), c)
  {
    assert (s + [c])[..|s|] == s;
  }

  /** One separator between `a` and `b` splits them independently: the pieces of `a`, then those of `b`. */
  lemma {:induction false} SplitConcat(a: string, b: string, sep: char)
    ensures Split(a + [sep] + b, sep) == Split(a, sep) + Split(b, sep)
    decreases |b|
  {
    if b == [] {
      assert a + [sep] + b == a + [sep];
      SplitSnoc(a, sep, sep);
      assert Split(b, sep) == [""];
    } else {
      var b0, c := b[..|b| - 1], b[|b| - 1];
      assert a + [sep] + b == (a + [sep] + b0) + [c];
      assert b == b0 + [c];
      SplitConcat(a, b0, sep);
      SplitSnoc(a + [sep] + b0, c, sep);
      SplitSnoc(b0, c, sep);
      var p, q := Split(a, sep), Split(b0, sep);
      if c == sep {
        assert (p + q) + [""] == p + (q + [""]);
      } else {
        ExtendConcat(p, q, c);
      }
    }
  }

  /** Every character of `s` other than the separator lies in some piece, and every character of a piece in `s`. */
  lemma {:induction false} SplitChars(s: string, sep: char)
    ensures forall c :: c in s && c != sep ==> exists k :: 0 <= k < |Split(s, sep)| && c in Split(s, sep)[k]
    ensures forall k, c :: 0 <= k < |Split(s, sep)| && c in Split(s, sep)[k] ==> c in s
    decreases |s|
  {
    if s != [] {
      var s0, c0 := s[..|s| - 1], s[|s| - 1];
      assert s == s0 + [c0];
      SplitChars(s0, sep);
      var p0 := Split(s0, sep);
      var p := Split(s, sep);
      var n := |p0| - 1;
      if c0 == sep {
        assert p == p0 + [""];
        assert forall k :: 0 <= k < |p0| ==> p[k] == p0[k];
      } else {
        assert p == p0[..n] + [p0[n] + [c0]];
        assert forall k :: 0 <= k < n ==> p[k] == p0[k];
        assert p[n] == p0[n] + [c0];
        forall c | c in s && c != sep
          ensures exists k :: 0 <= k < |p| && c in p[k]
        {
          if c == c0 {
            assert c in p[n];
          } else {
            var k :| 0 <= k < |p0| && c in p0[k];
            assert c in p[k];
          }
        }
      }
    }
  }
}
