/**
 * The three string operations the CSV import uses: `split` on one separator
 * character, `trim` and `toLowerCase`, with JavaScript's meaning.
 */
module Text {

  /** Concatenation of the pieces, with `sep` between neighbours. */
  function Join(pieces: seq<string>, sep: char): string
  {
    if |pieces| == 0 then ""
    else if |pieces| == 1 then pieces[0]
    else pieces[0] + [sep] + Join(pieces[1..], sep)
  }

  /**
   * `s.split(sep)`: the maximal runs between separators, in order; the empty
   * string splits into one empty piece.
   */
  function Split(s: string, sep: char): (pieces: seq<string>)
    ensures |pieces| >= 1
    ensures forall i :: 0 <= i < |pieces| ==> sep !in pieces[i]
    ensures Join(pieces, sep) == s
  {
    if |s| == 0 then [""]
    else
      var rest := Split(s[1..], sep);
      if s[0] == sep then
        [""] + rest
      else
        [[s[0]] + rest[0]] + rest[1..]
  }

  /** Splitting is the inverse of joining pieces that hold no separator. */
  lemma {:induction false} SplitJoin(pieces: seq<string>, sep: char)
    requires |pieces| >= 1
    requires forall i :: 0 <= i < |pieces| ==> sep !in pieces[i]
    ensures Split(Join(pieces, sep), sep) == pieces
  {
    if |pieces| == 1 {
      SplitPiece(pieces[0], sep);
    } else {
      var tail := pieces[1..];
      SplitJoin(tail, sep);
      SplitPrefix(pieces[0], Join(tail, sep), sep);
    }
  }

  /** A string without the separator splits into itself. */
  lemma {:induction false} SplitPiece(p: string, sep: char)
    requires sep !in p
    ensures Split(p, sep) == [p]
  {
    if |p| > 0 {
      SplitPiece(p[1..], sep);
    }
  }

  /** A separator-free prefix followed by a separator opens the piece list. */
  lemma {:induction false} SplitPrefix(p: string, rest: string, sep: char)
    requires sep !in p
    ensures Split(p + [sep] + rest, sep) == [p] + Split(rest, sep)
  {
    if |p| == 0 {
      assert p + [sep] + rest == [sep] + rest;
      assert ([sep] + rest)[1..] == rest;
    } else {
      var s := p + [sep] + rest;
      assert s[1..] == p[1..] + [sep] + rest;
      assert s[0] == p[0] && p[0] != sep;
      SplitPrefix(p[1..], rest, sep);
      var tail := Split(s[1..], sep);
      assert tail == [p[1..]] + Split(rest, sep);
      assert tail[0] == p[1..] && tail[1..] == Split(rest, sep);
      assert [s[0]] + p[1..] == p;
    }
  }

  /** The characters JavaScript's `trim` removes. */
  predicate IsSpace(c: char)
  {
    c == ' ' || c == '\t' || c == '\n' || c == '\r' || c == '\U{000B}' || c == '\U{000C}'
    || c == '\U{00A0}' || c == '\U{1680}' || ('\U{2000}' <= c <= '\U{200A}')
    || c == '\U{2028}' || c == '\U{2029}' || c == '\U{202F}' || c == '\U{205F}'
    || c == '\U{3000}' || c == '\U{FEFF}'
  }

  predicate AllSpace(s: string)
  {
    forall i :: 0 <= i < |s| ==> IsSpace(s[i])
  }

  function TrimEnd(s: string): (r: string)
    ensures |r| <= |s| && r == s[..|r|]
    ensures AllSpace(s[|r|..])
    ensures r == "" || !IsSpace(r[|r| - 1])
  {
    if |s| > 0 && IsSpace(s[|s| - 1]) then TrimEnd(s[..|s| - 1]) else s
  }

  /** How many white-space characters `s` starts with. */
  function Leading(s: string): (n: nat)
    ensures n <= |s| && AllSpace(s[..n])
    ensures n == |s| || !IsSpace(s[n])
  {
    if |s| > 0 && IsSpace(s[0]) then
      1 + Leading(s[1..])
    else 0
  }

  /** White space on both sides of a cut is white space throughout. */
  lemma AllSpaceJoin(a: string, b: string)
    requires AllSpace(a) && AllSpace(b)
    ensures AllSpace(a + b)
  {
    forall i | 0 <= i < |a + b|
      ensures IsSpace((a + b)[i])
    {
      if i < |a| {
        assert (a + b)[i] == a[i];
      } else {
        assert (a + b)[i] == b[i - |a|];
      }
    }
  }

  /** A text that is all white space has only leading white space. */
  lemma LeadingAllSpace(s: string)
    requires AllSpace(s)
    ensures Leading(s) == |s|
  {
    var n := Leading(s);
    if n < |s| {
      assert IsSpace(s[n]);
    }
  }

  /**
   * `s.trim()`: the slice of `s` left after dropping leading and trailing
   * white space; it neither starts nor ends with white space, and it is
   * empty exactly when `s` is all white space.
   */
  function Trim(s: string): (r: string)
    ensures Leading(s) + |r| <= |s| && r == s[Leading(s)..Leading(s) + |r|]
    ensures AllSpace(s[..Leading(s)]) && AllSpace(s[Leading(s) + |r|..])
    ensures r == "" || (!IsSpace(r[0]) && !IsSpace(r[|r| - 1]))
    ensures r == "" <==> AllSpace(s)
  {
    var i := Leading(s);
    var t := s[i..];
    var r := TrimEnd(t);
    TrimSlice(s, i, t, r);
    TrimEdges(s, i, t, r);
    TrimEmpty(s, i, t, r);
    r
  }

  /** The trimmed text is the slice after the leading white space, followed by white space only. */
  lemma TrimSlice(s: string, i: nat, t: string, r: string)
    requires i == Leading(s) && t == s[i..] && r == TrimEnd(t)
    ensures i + |r| <= |s| && r == s[i..i + |r|]
    ensures AllSpace(s[i + |r|..])
  {
    assert s[i + |r|..] == t[|r|..];
  }

  /** The trimmed text starts and ends with a character that is not white space. */
  lemma TrimEdges(s: string, i: nat, t: string, r: string)
    requires i == Leading(s) && t == s[i..] && r == TrimEnd(t)
    ensures r == "" || (!IsSpace(r[0]) && !IsSpace(r[|r| - 1]))
  {
    if r != "" {
      assert r[0] == t[0] == s[i];
    }
  }

  /** Nothing is left exactly when the text is all white space. */
  lemma TrimEmpty(s: string, i: nat, t: string, r: string)
    requires i == Leading(s) && t == s[i..] && r == TrimEnd(t)
    ensures r == "" <==> AllSpace(s)
  {
    if r == "" {
      TrimmedAway(s, i, t);
    }
    if AllSpace(s) {
      LeadingAllSpace(s);
    }
  }

  /** Leading white space followed by a text that trims to nothing is all white space. */
  lemma TrimmedAway(s: string, i: nat, t: string)
    requires i == Leading(s) && t == s[i..] && TrimEnd(t) == ""
    ensures AllSpace(s)
  {
    assert t[|TrimEnd(t)|..] == t;
    assert s == s[..i] + t;
    AllSpaceJoin(s[..i], t);
  }

  /** Trimming twice trims no more than once. */
  lemma TrimIdempotent(s: string)
    ensures Trim(Trim(s)) == Trim(s)
  {
  }

  function LowerChar(c: char): char
  {
    if 'A' <= c <= 'Z' then (c as int + 32) as char else c
  }

  /** `s.toLowerCase()` on ASCII letters; every other character is kept. */
  function Lower(s: string): (r: string)
    ensures |r| == |s|
    ensures forall i :: 0 <= i < |s| ==> r[i] == LowerChar(s[i])
  {
    if |s| == 0 then "" else [LowerChar(s[0])] + Lower(s[1..])
  }

  /** Lower-casing leaves no upper-case ASCII letter and is idempotent. */
  lemma LowerIdempotent(s: string)
    ensures forall i :: 0 <= i < |s| ==> !('A' <= Lower(s)[i] <= 'Z')
    ensures Lower(Lower(s)) == Lower(s)
  {
  }
}
