/** The two JavaScript string built-ins the draw engine relies on:
    `String.prototype.trim` (applied to the typed input) and
    `String.prototype.split(",")` (the batch-add delimiter). */
module Text {

  /** The separator both input paths split on. */
  const Comma: char := ','

  /** The characters that `trim` removes: ECMAScript WhiteSpace
      (tab, vertical tab, form feed, space, no-break space, byte order mark
      and the Unicode space separators) and LineTerminator (LF, CR, LS, PS). */
  const Whitespace: set<char> := {
    '\t', '\n', '\U{B}', '\U{C}', '\r', ' ', '\U{A0}', '\U{1680}',
    '\U{2000}', '\U{2001}', '\U{2002}', '\U{2003}', '\U{2004}', '\U{2005}',
    '\U{2006}', '\U{2007}', '\U{2008}', '\U{2009}', '\U{200A}',
    '\U{2028}', '\U{2029}', '\U{202F}', '\U{205F}', '\U{3000}', '\U{FEFF}'
  }

  /** Every character of `s` is in `ws`. */
  predicate AllIn(s: string, ws: set<char>) {
    forall i :: 0 <= i < |s| ==> s[i] in ws
  }

  /** `s` with its leading characters from `ws` removed. */
  function StripStart(s: string, ws: set<char>): (r: string)
    ensures |r| <= |s| && r == s[|s| - |r|..]
    ensures AllIn(s[..|s| - |r|], ws)
    ensures r == [] || r[0] !in ws
  {
    if s != [] && s[0] in ws then StripStart(s[1..], ws) else s
  }

  /** `s` with its trailing characters from `ws` removed. */
  function StripEnd(s: string, ws: set<char>): (r: string)
    ensures |r| <= |s| && r == s[..|r|]
    ensures AllIn(s[|r|..], ws)
    ensures r == [] || r[|r| - 1] !in ws
  {
    if s != [] && s[|s| - 1] in ws then StripEnd(s[..|s| - 1], ws) else s
  }

  /** Where the stripped text starts in `s`. */
  function StripOffset(s: string, ws: set<char>): nat {
    |s| - |StripStart(s, ws)|
  }

  /** Both ends stripped: a piece of `s` starting after its leading
      characters from `ws`, with neither end in `ws`, empty exactly when all
      of `s` is in `ws`; what was cut off before and after it is all in
      `ws`. */
  function Strip(s: string, ws: set<char>): (r: string)
    ensures |r| <= |s|
    ensures r == [] || (r[0] !in ws && r[|r| - 1] !in ws)
    ensures r == [] <==> AllIn(s, ws)
    ensures StripOffset(s, ws) + |r| <= |s| && r == s[StripOffset(s, ws)..StripOffset(s, ws) + |r|]
    ensures AllIn(s[..StripOffset(s, ws)], ws) && AllIn(s[StripOffset(s, ws) + |r|..], ws)
  {
    var t := StripStart(s, ws);
    var r := StripEnd(t, ws);
    StripPiece(s, t, r, ws);
    StripCut(s, t, r, ws);
    StripEnds(s, t, r, ws);
    StripEmpty(s, t, r, ws);
    r
  }

  lemma StripPiece(s: string, t: string, r: string, ws: set<char>)
    requires t == StripStart(s, ws) && r == StripEnd(t, ws)
    ensures StripOffset(s, ws) + |r| <= |s| && r == s[StripOffset(s, ws)..StripOffset(s, ws) + |r|]
  {
    PieceOf(s, t, r, StripOffset(s, ws));
  }

  lemma StripCut(s: string, t: string, r: string, ws: set<char>)
    requires t == StripStart(s, ws) && r == StripEnd(t, ws)
    ensures StripOffset(s, ws) + |r| <= |s|
    ensures AllIn(s[..StripOffset(s, ws)], ws) && AllIn(s[StripOffset(s, ws) + |r|..], ws)
  {
    var k := StripOffset(s, ws);
    assert t == s[k..];
    assert s[k + |r|..] == t[|r|..];
  }

  /** A prefix of a suffix is a slice. */
  lemma PieceOf(s: string, t: string, r: string, k: nat)
    requires k + |t| == |s| && t == s[k..] && |r| <= |t| && r == t[..|r|]
    ensures k + |r| <= |s| && r == s[k..k + |r|]
  {
    assert s[k..][..|r|] == s[k..k + |r|];
  }

  lemma StripEnds(s: string, t: string, r: string, ws: set<char>)
    requires t == StripStart(s, ws) && r == StripEnd(t, ws)
    ensures r == [] || (r[0] !in ws && r[|r| - 1] !in ws)
  {
    if r != [] {
      assert r[0] == t[0];
    }
  }

  lemma StripEmpty(s: string, t: string, r: string, ws: set<char>)
    requires t == StripStart(s, ws) && r == StripEnd(t, ws)
    ensures r == [] <==> AllIn(s, ws)
  {
    var k := |s| - |t|;
    SplitAt(s, k);
    if r == [] {
      assert t[|r|..] == t;
      AllInConcat(s[..k], t, ws);
    } else {
      assert s[k] == t[0] == r[0];
    }
  }

  lemma SplitAt(s: string, k: nat)
    requires k <= |s|
    ensures s == s[..k] + s[k..]
  {
  }

  lemma AllInConcat(a: string, b: string, ws: set<char>)
    requires AllIn(a, ws) && AllIn(b, ws)
    ensures AllIn(a + b, ws)
  {
    forall i | 0 <= i < |a + b| ensures (a + b)[i] in ws {
      if i < |a| { assert (a + b)[i] == a[i]; } else { assert (a + b)[i] == b[i - |a|]; }
    }
  }

  /** Stripping twice is stripping once. */
  lemma StripIdempotent(s: string, ws: set<char>)
    ensures Strip(Strip(s, ws), ws) == Strip(s, ws)
  {
    var r := Strip(s, ws);
    assert StripStart(r, ws) == r;
    assert StripEnd(r, ws) == r;
  }

  /** `String.prototype.trim`: `Strip` with the whitespace set. The result
      is the piece of `s` left between a whitespace prefix and a whitespace
      suffix, and it neither starts nor ends with whitespace. */
  function Trim(s: string): (r: string)
    ensures var k := StripOffset(s, Whitespace);
            && k + |r| <= |s| && r == s[k..k + |r|]
            && AllIn(s[..k], Whitespace) && AllIn(s[k + |r|..], Whitespace)
            && (r == [] || (r[0] !in Whitespace && r[|r| - 1] !in Whitespace))
  {
    Strip(s, Whitespace)
  }

  /** The trimmed input is empty exactly when the input is all whitespace. */
  lemma TrimEmptyIff(s: string)
    ensures Trim(s) == [] <==> AllIn(s, Whitespace)
  {
    StripEmpty(s, StripStart(s, Whitespace), Strip(s, Whitespace), Whitespace);
  }

  /** Trimming twice is trimming once. */
  lemma TrimIdempotent(s: string)
    ensures Trim(Trim(s)) == Trim(s)
  {
    StripIdempotent(s, Whitespace);
  }

  /** Number of occurrences of `c` in `s`. */
  function Occurrences(s: string, c: char): nat {
    if s == [] then 0 else (if s[0] == c then 1 else 0) + Occurrences(s[1..], c)
  }

  /** `s.split(sep)` for a one-character separator: the pieces between the
      separators, in order; there is always one more piece than there are
      separators (so the empty string yields one empty piece), and no piece
      contains the separator. */
  function Split(s: string, sep: char): (pieces: seq<string>)
    ensures |pieces| == Occurrences(s, sep) + 1
    ensures forall i :: 0 <= i < |pieces| ==> sep !in pieces[i]
  {
    if s == [] then [[]]
    else
      var rest := Split(s[1..], sep);
      if s[0] == sep then [[]] + rest
      else [[s[0]] + rest[0]] + rest[1..]
  }

  /** `pieces.join(sep)`. */
  function Join(pieces: seq<string>, sep: char): string {
    if |pieces| == 0 then []
    else if |pieces| == 1 then pieces[0]
    else pieces[0] + [sep] + Join(pieces[1..], sep)
  }

  /** Split loses nothing: joining the pieces gives back the input. */
  lemma {:induction false} JoinSplit(s: string, sep: char)
    ensures Join(Split(s, sep), sep) == s
  {
    if s != [] {
      var rest := Split(s[1..], sep);
      JoinSplit(s[1..], sep);
      if s[0] == sep {
        assert Split(s, sep) == [[]] + rest;
        assert s == [] + [sep] + s[1..];
      } else if |rest| == 1 {
        assert Split(s, sep) == [[s[0]] + rest[0]];
        assert s == [s[0]] + s[1..];
      } else {
        assert Split(s, sep)[1..] == rest[1..];
        assert s == [s[0]] + s[1..];
      }
    }
  }

  /** A piece without the separator in front of the rest of the text
      becomes the first piece. */
  lemma {:induction false} SplitCons(p: string, rest: string, sep: char)
    requires sep !in p
    ensures Split(p + [sep] + rest, sep) == [p] + Split(rest, sep)
  {
    if p != [] {
      SplitCons(p[1..], rest, sep);
      assert (p + [sep] + rest)[1..] == p[1..] + [sep] + rest;
      assert p == [p[0]] + p[1..];
    } else {
      assert ([] + [sep] + rest)[1..] == rest;
    }
  }

  /** A text without the separator is a single piece. */
  lemma {:induction false} SplitNoSep(p: string, sep: char)
    requires sep !in p
    ensures Split(p, sep) == [p]
  {
    if p != [] {
      SplitNoSep(p[1..], sep);
      assert p == [p[0]] + p[1..];
    }
  }

  /** The other direction: separator-free pieces survive join then split. */
  lemma {:induction false} SplitJoin(pieces: seq<string>, sep: char)
    requires |pieces| >= 1
    requires forall i :: 0 <= i < |pieces| ==> sep !in pieces[i]
    ensures Split(Join(pieces, sep), sep) == pieces
  {
    if |pieces| == 1 {
      SplitNoSep(pieces[0], sep);
    } else {
      SplitJoin(pieces[1..], sep);
      SplitCons(pieces[0], Join(pieces[1..], sep), sep);
      assert pieces == [pieces[0]] + pieces[1..];
    }
  }

  /** The batch example: "a,b,c" adds "a", "b" and "c", in that order. */
  lemma SplitExample()
    ensures Split("a,b,c", Comma) == ["a", "b", "c"]
  {
    SplitJoin(["a", "b", "c"], Comma);
    assert Join(["a", "b", "c"], Comma) == "a,b,c";
  }
}
