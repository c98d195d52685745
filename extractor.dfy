/**
 * Include extraction (`find_neighbors` with `include_regex`): every non-overlapping match of
 * `#include\s+["<](.*)[">]` in a file's text, leftmost first, each giving the text between
 * the opening delimiter and the last closing delimiter of its line; nothing at all when the
 * stripped text starts with "//".
 */
module Extractor {
  import opened Strings
  import opened Wrappers

  const Directive: string := "#include"

  /** The characters the pattern accepts before the token: `["<"]`. */
  predicate IsOpening(c: char)
  {
    c == '"' || c == '<'
  }

  /** The characters the pattern accepts after the token: `[">]`. */
  predicate IsClosing(c: char)
  {
    c == '"' || c == '>'
  }

  /** One match: it starts at `start`, captures `token`, and the search resumes at `end`. */
  datatype Hit = Hit(start: nat, token: string, end: nat)

  /**
   * The pattern matches at `p` with its whitespace run ending just before the opening
   * delimiter at `q` and its closing delimiter at `c`: `\s+` covers `p + 8 .. q`, `.*`
   * covers `q + 1 .. c` and never crosses a newline.
   */
  ghost predicate MatchesWith(s: string, p: nat, q: nat, c: nat)
  {
    && p + |Directive| < q < c < |s|
    && s[p..p + |Directive|] == Directive
    && (forall k :: p + |Directive| <= k < q ==> IsSpace(s[k]))
    && IsOpening(s[q]) && IsClosing(s[c])
    && (forall k :: q < k < c ==> s[k] != '\n')
  }

  /** The first index from `i` on that is not whitespace, or `|s|`. */
  function SkipSpaces(s: string, i: nat): (r: nat)
    requires i <= |s|
    ensures i <= r <= |s|
    decreases |s| - i
  {
    if i < |s| && IsSpace(s[i]) then SkipSpaces(s, i + 1) else i
  }

  /** `SkipSpaces` stops at the first character that is not whitespace. */
  lemma {:induction false} SkipSpacesStops(s: string, i: nat)
    requires i <= |s|
    ensures forall k :: i <= k < SkipSpaces(s, i) ==> IsSpace(s[k])
    ensures SkipSpaces(s, i) < |s| ==> !IsSpace(s[SkipSpaces(s, i)])
    decreases |s| - i
  {
    if i < |s| && IsSpace(s[i]) {
      SkipSpacesStops(s, i + 1);
    }
  }

  /** The index of the first newline from `i` on, or `|s|`: where `.` stops matching. */
  function LineEnd(s: string, i: nat): (r: nat)
    requires i <= |s|
    ensures i <= r <= |s|
    decreases |s| - i
  {
    if i < |s| && s[i] != '\n' then LineEnd(s, i + 1) else i
  }

  /** `LineEnd` stops at the first newline. */
  lemma {:induction false} LineEndStops(s: string, i: nat)
    requires i <= |s|
    ensures forall k :: i <= k < LineEnd(s, i) ==> s[k] != '\n'
    ensures LineEnd(s, i) < |s| ==> s[LineEnd(s, i)] == '\n'
    decreases |s| - i
  {
    if i < |s| && s[i] != '\n' {
      LineEndStops(s, i + 1);
    }
  }

  /** The last index in `lo .. hi - 1` holding a closing delimiter, or -1. */
  function LastClosing(s: string, lo: nat, hi: nat): (r: int)
    requires lo <= hi <= |s|
    ensures r == -1 || lo <= r < hi
    decreases hi - lo
  {
    if hi == lo then -1
    else if IsClosing(s[hi - 1]) then hi - 1
    else LastClosing(s, lo, hi - 1)
  }

  /** `LastClosing` finds a closing delimiter, and none lies after it in the range. */
  lemma {:induction false} LastClosingIsLast(s: string, lo: nat, hi: nat)
    requires lo <= hi <= |s|
    ensures LastClosing(s, lo, hi) >= 0 ==> IsClosing(s[LastClosing(s, lo, hi)])
    ensures forall k :: LastClosing(s, lo, hi) < k < hi && lo <= k ==> !IsClosing(s[k])
    decreases hi - lo
  {
    if hi != lo && !IsClosing(s[hi - 1]) {
      LastClosingIsLast(s, lo, hi - 1);
    }
  }

  /**
   * The match that the backtracking regex engine finds when it tries position `p`: the
   * whitespace run is taken whole, then `.*` backs off to the line's last closing delimiter.
   */
  function MatchAt(s: string, p: nat): (r: Option<Hit>)
    ensures r.Some? ==> r.value.start == p < r.value.end <= |s|
  {
    if p + |Directive| <= |s| && s[p..p + |Directive|] == Directive then
      var q := SkipSpaces(s, p + |Directive|);
      if q > p + |Directive| && q < |s| && IsOpening(s[q]) then
        var e := LineEnd(s, q + 1);
        var c := LastClosing(s, q + 1, e);
        if c >= 0 then Some(Hit(p, s[q + 1..c], c + 1)) else None
      else None
    else None
  }

  /**
   * Any match at `p` has the one whitespace run `SkipSpaces` finds, and its closing
   * delimiter lies on the opening delimiter's line, at or before the line's last one;
   * so `MatchAt` finds something.
   */
  lemma MatchIsBoundedBy(s: string, p: nat, q: nat, c: nat)
    ensures MatchesWith(s, p, q, c) ==>
              && q == SkipSpaces(s, p + |Directive|)
              && c < LineEnd(s, q + 1)
              && c <= LastClosing(s, q + 1, LineEnd(s, q + 1))
              && MatchAt(s, p).Some?
  {
    if MatchesWith(s, p, q, c) {
      var r := SkipSpaces(s, p + |Directive|);
      SkipSpacesStops(s, p + |Directive|);
      assert !IsSpace(s[q]);
      assert r == q;
      var e := LineEnd(s, q + 1);
      LineEndStops(s, q + 1);
      assert c < e;
      LastClosingIsLast(s, q + 1, e);
    }
  }

  /** What `MatchAt` finds is a match of the pattern, with the capture and the end it reports. */
  lemma MatchAtIsMatch(s: string, p: nat)
    requires MatchAt(s, p).Some?
    ensures var q := SkipSpaces(s, p + |Directive|);
            var c := LastClosing(s, q + 1, LineEnd(s, q + 1));
            && MatchesWith(s, p, q, c)
            && MatchAt(s, p).value.token == s[q + 1..c]
            && MatchAt(s, p).value.end == c + 1
  {
    var q := SkipSpaces(s, p + |Directive|);
    var e := LineEnd(s, q + 1);
    var c := LastClosing(s, q + 1, e);
    SkipSpacesStops(s, p + |Directive|);
    LineEndStops(s, q + 1);
    LastClosingIsLast(s, q + 1, e);
    assert MatchAt(s, p) == Some(Hit(p, s[q + 1..c], c + 1));
    assert p + |Directive| < q < c < |s|;
  }

  /**
   * `MatchAt` agrees with the pattern: it finds nothing exactly when no match starts at
   * `p`, and otherwise it finds the match with the one possible whitespace run and the
   * rightmost closing delimiter (greedy `.*`).
   */
  lemma MatchAtIsGreedyMatch(s: string, p: nat)
    ensures MatchAt(s, p).None? <==> forall q: nat, c: nat :: !MatchesWith(s, p, q, c)
    ensures MatchAt(s, p).Some? ==>
              exists q: nat, c: nat ::
                && MatchesWith(s, p, q, c)
                && MatchAt(s, p).value.token == s[q + 1..c]
                && MatchAt(s, p).value.end == c + 1
                && forall q': nat, c': nat :: MatchesWith(s, p, q', c') ==> q' == q && c' <= c
  {
    forall q': nat, c': nat
      ensures MatchesWith(s, p, q', c') ==>
                && q' == SkipSpaces(s, p + |Directive|)
                && c' <= LastClosing(s, q' + 1, LineEnd(s, q' + 1))
                && MatchAt(s, p).Some?
    {
      MatchIsBoundedBy(s, p, q', c');
    }
    if MatchAt(s, p).Some? {
      MatchAtIsMatch(s, p);
      var q := SkipSpaces(s, p + |Directive|);
      var c := LastClosing(s, q + 1, LineEnd(s, q + 1));
      assert MatchesWith(s, p, q, c);
    }
  }

  /**
   * `re.findall` from position `i`: try each position in turn; after a match, go on
   * from its end.
   */
  function Scan(s: string, i: nat): seq<Hit>
    requires i <= |s|
    decreases |s| - i
  {
    if i == |s| then []
    else
      match MatchAt(s, i)
      case Some(h) => [h] + Scan(s, h.end)
      case None => Scan(s, i + 1)
  }

  /** Each hit of the scan from `i` is the match found at its own start, which is at or after `i`. */
  lemma {:induction false} ScanHitsAreMatches(s: string, i: nat)
    requires i <= |s|
    ensures forall j :: 0 <= j < |Scan(s, i)| ==>
              i <= Scan(s, i)[j].start && MatchAt(s, Scan(s, i)[j].start) == Some(Scan(s, i)[j])
    decreases |s| - i
  {
    if i < |s| {
      match MatchAt(s, i)
      case Some(h) =>
        ScanHitsAreMatches(s, h.end);
      case None =>
        ScanHitsAreMatches(s, i + 1);
    }
  }

  /** The hits come in text order and do not overlap. */
  lemma {:induction false} ScanInOrder(s: string, i: nat)
    requires i <= |s|
    ensures forall j :: 0 <= j < |Scan(s, i)| - 1 ==> Scan(s, i)[j].end <= Scan(s, i)[j + 1].start
    decreases |s| - i
  {
    if i < |s| {
      match MatchAt(s, i)
      case Some(h) =>
        ScanInOrder(s, h.end);
        ScanHitsAreMatches(s, h.end);
        var rest := Scan(s, h.end);
        assert Scan(s, i) == [h] + rest;
      case None =>
        ScanInOrder(s, i + 1);
    }
  }

  /** Position `k` lies inside one of the hits, from its start up to (not including) its end. */
  predicate Covers(hits: seq<Hit>, k: nat)
  {
    exists j :: 0 <= j < |hits| && hits[j].start <= k < hits[j].end
  }

  /** Putting a hit in front keeps every covered position covered and adds the hit's own span. */
  lemma CoversCons(h: Hit, rest: seq<Hit>, k: nat)
    requires Covers(rest, k) || h.start <= k < h.end
    ensures Covers([h] + rest, k)
  {
    var r := [h] + rest;
    if h.start <= k < h.end {
      assert r[0] == h;
    } else {
      var j :| 0 <= j < |rest| && rest[j].start <= k < rest[j].end;
      assert r[j + 1] == rest[j];
    }
  }

  /** Every position from `i` where a match starts is the start of a hit or lies inside one. */
  lemma {:induction false} ScanMissesNothing(s: string, i: nat, k: nat)
    requires i <= k < |s| && MatchAt(s, k).Some?
    ensures Covers(Scan(s, i), k)
    decreases |s| - i, 1
  {
    var m := MatchAt(s, i);
    if m.Some? {
      HitCovers(s, i, k, m.value);
    } else {
      assert Scan(s, i) == Scan(s, i + 1);
      ScanMissesNothing(s, i + 1, k);
    }
  }

  /** The step of `ScanMissesNothing` where a match starts at `i`. */
  lemma {:induction false} HitCovers(s: string, i: nat, k: nat, h: Hit)
    requires i <= k < |s| && MatchAt(s, k).Some? && MatchAt(s, i) == Some(h)
    ensures Covers(Scan(s, i), k)
    decreases |s| - i, 0
  {
    assert Scan(s, i) == [h] + Scan(s, h.end);
    if k >= h.end {
      ScanMissesNothing(s, h.end, k);
    }
    CoversCons(h, Scan(s, h.end), k);
  }

  /** The captured texts of the hits, in order. */
  function Tokens(hits: seq<Hit>): (r: seq<string>)
    ensures |r| == |hits|
    ensures forall j :: 0 <= j < |hits| ==> r[j] == hits[j].token
  {
    if hits == [] then [] else [hits[0].token] + Tokens(hits[1..])
  }

  /** The whole-file short-circuit: the stripped text starts with a line comment marker. */
  predicate CommentedOut(code: string)
  {
    StartsWith(Strip(code), "//")
  }

  /** `find_neighbors` applied to a file whose decoded text is `code`. */
  function FindNeighbors(code: string): (r: seq<string>)
    ensures CommentedOut(code) ==> r == []
    ensures forall t :: t in r ==> '\n' !in t
  {
    if CommentedOut(code) then []
    else
      NoTokenSpansLines(code);
      Tokens(Scan(code, 0))
  }

  /** The token of a match is text of one line: it holds no newline. */
  lemma MatchTokenIsOneLine(s: string, p: nat)
    requires MatchAt(s, p).Some?
    ensures '\n' !in MatchAt(s, p).value.token
  {
    var q := SkipSpaces(s, p + |Directive|);
    var e := LineEnd(s, q + 1);
    var c := LastClosing(s, q + 1, e);
    LineEndStops(s, q + 1);
    assert MatchAt(s, p).value.token == s[q + 1..c];
    SliceAvoids(s, q + 1, c, e, '\n');
  }

  /** A slice that stays before a bound, below which `ch` does not occur, holds no `ch`. */
  lemma SliceAvoids(s: string, a: nat, b: nat, bound: nat, ch: char)
    requires a <= b <= bound <= |s|
    requires forall k :: a <= k < bound ==> s[k] != ch
    ensures ch !in s[a..b]
  {
    assert forall k :: 0 <= k < b - a ==> s[a..b][k] == s[a + k];
  }

  /** A token captured by the scan of a text never spans two lines. */
  lemma NoTokenSpansLines(code: string)
    ensures forall t :: t in Tokens(Scan(code, 0)) ==> '\n' !in t
  {
    ScanHitsAreMatches(code, 0);
    var hits := Scan(code, 0);
    var ts := Tokens(hits);
    forall j | 0 <= j < |ts|
      ensures '\n' !in ts[j]
    {
      MatchTokenIsOneLine(code, hits[j].start);
    }
  }

  /**
   * The comment short-circuit is all or nothing: once the text, past its leading whitespace,
   * starts with "//", no text that follows yields a token, whatever includes it holds.
   */
  lemma CommentedOutWhateverFollows(code: string, rest: string)
    requires StartsWith(TrimStart(code), "//")
    ensures FindNeighbors(code + rest) == []
  {
    StripStartsWithAppend(code, rest, "//");
  }

  /** Without the comment marker, the tokens are those of the `findall` scan from the start of the text. */
  lemma UncommentedYieldsEveryMatch(code: string)
    requires !StartsWith(TrimStart(code), "//")
    ensures FindNeighbors(code) == Tokens(Scan(code, 0))
  {
    StripStartsWith(code, "//");
  }
}
