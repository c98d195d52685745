/**
 * The Python string operations the engine relies on: `str.strip`, `str.startswith`,
 * `str.rfind`, the `in` substring test, `str.split(',')` with its inverse `','.join`,
 * and the decimal rendering of a number inside an f-string.
 */
module Strings {

  /** Python's `str.isspace` (also the class matched by `\s` in a `re` pattern). */
  predicate IsSpace(c: char)
  {
    c == ' ' || ('\t' <= c <= '\r')
    || ('\U{1C}' <= c <= '\U{1F}')
    || c == '\U{85}' || c == '\U{A0}' || c == '\U{1680}'
    || ('\U{2000}' <= c <= '\U{200A}')
    || c == '\U{2028}' || c == '\U{2029}' || c == '\U{202F}' || c == '\U{205F}' || c == '\U{3000}'
  }

  predicate StartsWith(s: string, prefix: string)
  {
    |prefix| <= |s| && s[..|prefix|] == prefix
  }

  /** `s` with its leading whitespace removed. */
  function TrimStart(s: string): (r: string)
    ensures |r| <= |s| && r == s[|s| - |r|..]
    ensures forall k :: 0 <= k < |s| - |r| ==> IsSpace(s[k])
    ensures r != [] ==> !IsSpace(r[0])
  {
    if s != [] && IsSpace(s[0]) then TrimStart(s[1..]) else s
  }

  /** `s` with its trailing whitespace removed. */
  function TrimEnd(s: string): (r: string)
    ensures |r| <= |s| && r == s[..|r|]
    ensures forall k :: |r| <= k < |s| ==> IsSpace(s[k])
    ensures r != [] ==> !IsSpace(r[|r| - 1])
  {
    if s != [] && IsSpace(s[|s| - 1]) then TrimEnd(s[..|s| - 1]) else s
  }

  /** Python's `s.strip()`. */
  function Strip(s: string): string
  {
    TrimEnd(TrimStart(s))
  }

  /** A non-space character of `t` survives `TrimEnd`. */
  lemma {:induction false} TrimEndKeeps(t: string, m: nat)
    requires m < |t| && !IsSpace(t[m])
    ensures m < |TrimEnd(t)|
    decreases |t|
  {
    if IsSpace(t[|t| - 1]) {
      TrimEndKeeps(t[..|t| - 1], m);
    }
  }

  /** A prefix of `t` at least as long as `p` starts with `p` exactly when `t` does. */
  lemma PrefixStartsWith(t: string, n: nat, p: string)
    requires |p| <= n <= |t|
    ensures StartsWith(t[..n], p) <==> StartsWith(t, p)
  {
    assert t[..n][..|p|] == t[..|p|];
  }

  /**
   * Stripping the end never changes whether a stripped text starts with a marker
   * made of non-space characters: only the leading whitespace matters.
   */
  lemma StripStartsWith(s: string, marker: string)
    requires forall k :: 0 <= k < |marker| ==> !IsSpace(marker[k])
    ensures StartsWith(Strip(s), marker) <==> StartsWith(TrimStart(s), marker)
  {
    var t := TrimStart(s);
    var r := TrimEnd(t);
    assert r == t[..|r|];
    if StartsWith(t, marker) && marker != [] {
      var m := |marker| - 1;
      assert t[m] == t[..|marker|][m];
      TrimEndKeeps(t, m);
      PrefixStartsWith(t, |r|, marker);
    } else if StartsWith(r, marker) {
      PrefixStartsWith(t, |r|, marker);
    }
  }

  /** Leading whitespace is all that `TrimStart` removes, so text appended after a non-blank text survives intact. */
  lemma {:induction false} TrimStartAppend(s: string, x: string)
    requires TrimStart(s) != []
    ensures TrimStart(s + x) == TrimStart(s) + x
  {
    if s != [] && IsSpace(s[0]) {
      assert (s + x)[1..] == s[1..] + x;
      TrimStartAppend(s[1..], x);
    }
  }

  /** A prefix of a text is a prefix of the text with anything appended. */
  lemma StartsWithAppend(t: string, x: string, p: string)
    requires StartsWith(t, p)
    ensures StartsWith(t + x, p)
  {
    assert (t + x)[..|p|] == t[..|p|];
  }

  /** A marker that starts the text past its leading whitespace still starts it whatever is appended. */
  lemma StripStartsWithAppend(s: string, x: string, marker: string)
    requires forall k :: 0 <= k < |marker| ==> !IsSpace(marker[k])
    requires StartsWith(TrimStart(s), marker)
    ensures StartsWith(Strip(s + x), marker)
  {
    if TrimStart(s) != [] {
      TrimStartAppend(s, x);
      StartsWithAppend(TrimStart(s), x, marker);
    }
    StripStartsWith(s + x, marker);
  }

  /** `t` occurs in `s` starting at index `i`. */
  predicate OccursAt(s: string, t: string, i: int)
  {
    0 <= i <= |s| - |t| && s[i..i + |t|] == t
  }

  /** Python's `t in s` for strings: `t` occurs as a contiguous substring of `s`. */
  function Contains(s: string, t: string): (r: bool)
    ensures r <==> exists i :: OccursAt(s, t, i)
  {
    if |s| < |t| then false
    else if s[..|t|] == t then assert OccursAt(s, t, 0); true
    else
      var r := Contains(s[1..], t);
      assert r ==> exists i :: OccursAt(s, t, i) by {
        if r {
          var i :| OccursAt(s[1..], t, i);
          assert s[i + 1..i + 1 + |t|] == s[1..][i..i + |t|];
          assert OccursAt(s, t, i + 1);
        }
      }
      assert (exists i :: OccursAt(s, t, i)) ==> r by {
        if exists i :: OccursAt(s, t, i) {
          var i :| OccursAt(s, t, i);
          assert i != 0;
          assert s[1..][i - 1..i - 1 + |t|] == s[i..i + |t|];
          assert OccursAt(s[1..], t, i - 1);
        }
      }
      r
  }

  /** Python's `s.rfind(c)`: the index of the last `c` in `s`, or -1. */
  function RFind(s: string, c: char): (r: int)
    ensures -1 <= r < |s|
    ensures r >= 0 ==> s[r] == c
    ensures forall k :: r < k < |s| ==> s[k] != c
  {
    if s == [] then -1
    else if s[|s| - 1] == c then |s| - 1
    else RFind(s[..|s| - 1], c)
  }

  /** The last `c` of a suffix is the last `c` of the whole text, if it lies in that suffix. */
  lemma RFindSuffix(s: string, c: char, n: nat)
    requires n <= |s|
    ensures RFind(s[n..], c) == if RFind(s, c) >= n then RFind(s, c) - n else -1
  {
    var i := RFind(s, c);
    var t := s[n..];
    assert forall k :: 0 <= k < |t| ==> t[k] == s[k + n];
    if i >= n {
      assert t[i - n] == c;
    }
  }

  /** Python's `s.find(c)`: the index of the first `c` in `s`, or -1. */
  function Find(s: string, c: char): (r: int)
    ensures -1 <= r < |s|
    ensures r >= 0 ==> s[r] == c
    ensures forall k :: 0 <= k < |s| && (r < 0 || k < r) ==> s[k] != c
  {
    if s == [] then -1
    else if s[0] == c then 0
    else
      var r := Find(s[1..], c);
      if r < 0 then -1 else r + 1
  }

  /** Python's `sep.join(parts)`. */
  function Join(parts: seq<string>, sep: string): string
  {
    if parts == [] then ""
    else if |parts| == 1 then parts[0]
    else parts[0] + sep + Join(parts[1..], sep)
  }

  /** Joining a part in front of at least one more part puts the separator between them. */
  lemma JoinCons(head: string, rest: seq<string>, sep: string)
    requires rest != []
    ensures Join([head] + rest, sep) == head + sep + Join(rest, sep)
  {
    assert ([head] + rest)[1..] == rest;
  }

  /** Nothing before the first `c` is a `c`. */
  lemma NoneBeforeFind(s: string, c: char)
    requires Find(s, c) >= 0
    ensures c !in s[..Find(s, c)]
  {
    var i := Find(s, c);
    forall k | 0 <= k < i ensures s[..i][k] != c {
      assert s[..i][k] == s[k];
    }
  }

  /** A text is its piece before index `i`, the character at `i`, and the rest. */
  lemma CutAt(s: string, i: nat)
    requires i < |s|
    ensures s == s[..i] + [s[i]] + s[i + 1..]
  {
  }

  /**
   * Python's `s.split(sep)`: at least one piece, no piece holds the separator,
   * and joining the pieces back gives `s`.
   */
  function Split(s: string, sep: char): (r: seq<string>)
    ensures |r| >= 1
    ensures forall k :: 0 <= k < |r| ==> sep !in r[k]
    ensures Join(r, [sep]) == s
    decreases |s|
  {
    var i := Find(s, sep);
    if i < 0 then [s]
    else
      var rest := Split(s[i + 1..], sep);
      NoneBeforeFind(s, sep);
      CutAt(s, i);
      JoinCons(s[..i], rest, [sep]);
      [s[..i]] + rest
  }

  /** Splitting undoes joining, when no part holds the separator. */
  lemma {:induction false} SplitJoin(parts: seq<string>, sep: char)
    requires |parts| >= 1
    requires forall k :: 0 <= k < |parts| ==> sep !in parts[k]
    ensures Split(Join(parts, [sep]), sep) == parts
    decreases |parts|
  {
    if |parts| > 1 {
      var s := Join(parts, [sep]);
      var head := parts[0];
      assert s == head + [sep] + Join(parts[1..], [sep]);
      assert s[|head|] == sep;
      assert forall k :: 0 <= k < |head| ==> s[k] == head[k];
      assert Find(s, sep) == |head|;
      assert s[|head| + 1..] == Join(parts[1..], [sep]);
      assert s[..|head|] == head;
      SplitJoin(parts[1..], sep);
    } else {
      var s := parts[0];
      assert Find(s, sep) < 0;
    }
  }

  function DigitChar(d: nat): char
    requires d < 10
  {
    "0123456789"[d]
  }

  predicate IsDigit(c: char)
  {
    '0' <= c <= '9'
  }

  /** The decimal rendering of `n`, as `str(n)` writes it. */
  function NatToString(n: nat): (r: string)
    ensures |r| >= 1
  {
    if n < 10 then [DigitChar(n)]
    else NatToString(n / 10) + [DigitChar(n % 10)]
  }

  /** The rendering is made of digits, with no leading zero. */
  lemma {:induction false} NatToStringDigits(n: nat)
    ensures AllDigits(NatToString(n))
    ensures |NatToString(n)| > 1 ==> NatToString(n)[0] != '0'
  {
    if n >= 10 {
      NatToStringDigits(n / 10);
      var r := NatToString(n);
      assert r[0] == NatToString(n / 10)[0];
      forall k | 0 <= k < |r|
        ensures IsDigit(r[k])
      {
        if k < |r| - 1 {
          assert r[k] == NatToString(n / 10)[k];
        }
      }
    }
  }

  /** The value of a digit character. */
  function DigitValue(c: char): int
  {
    c as int - '0' as int
  }

  /** Reads a decimal numeral back, as `int(s)` does for digit strings. */
  function ParseNat(s: string): int
  {
    if s == [] then 0
    else ParseNat(s[..|s| - 1]) * 10 + DigitValue(s[|s| - 1])
  }

  /** Reading the rendering back gives the number: the counts written into the text dump are recoverable. */
  lemma {:induction false} ParseNatToString(n: nat)
    ensures ParseNat(NatToString(n)) == n
  {
    var r := NatToString(n);
    assert DigitValue(DigitChar(n % 10)) == n % 10;
    if n >= 10 {
      ParseNatToString(n / 10);
      assert r[..|r| - 1] == NatToString(n / 10);
    }
  }

  predicate AllDigits(s: string)
  {
    forall k :: 0 <= k < |s| ==> IsDigit(s[k])
  }

  /** Where a run of digits is followed by a non-digit, no other run of digits can reach past it. */
  lemma DigitRunEnd(a: string, x: string, b: string, y: string)
    requires AllDigits(b)
    requires x != [] && !IsDigit(x[0])
    requires a + x == b + y
    ensures |b| <= |a|
  {
    var s := b + y;
    assert s[|a|] == (a + x)[|a|] == x[0];
  }

  /**
   * A run of digits followed by text that does not start with a digit splits only one way:
   * the digits read back from the text are the ones written.
   */
  lemma DigitsThenOther(a: string, x: string, b: string, y: string)
    requires AllDigits(a) && AllDigits(b)
    requires x != [] && y != [] && !IsDigit(x[0]) && !IsDigit(y[0])
    requires a + x == b + y
    ensures a == b && x == y
  {
    DigitRunEnd(a, x, b, y);
    DigitRunEnd(b, y, a, x);
    var s := a + x;
    assert a == s[..|a|] && b == s[..|b|];
    assert x == s[|a|..] && y == s[|b|..];
  }

  /** Text that follows the same prefix is the same text. */
  lemma PrefixCancel(p: string, u: string, v: string)
    requires p + u == p + v
    ensures u == v
  {
    assert u == (p + u)[|p|..];
    assert v == (p + v)[|p|..];
  }

  /** Distinct numbers are rendered differently. */
  lemma NatToStringInjective(m: nat, n: nat)
    requires NatToString(m) == NatToString(n)
    ensures m == n
  {
    ParseNatToString(m);
    ParseNatToString(n);
  }
}
