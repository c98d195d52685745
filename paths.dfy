/**
 * Path helpers: POSIX `os.path.basename`, `os.path.dirname` and `os.path.join`, and the
 * tool's own `normalize` (a file's node name) and `get_extension`, both plain slicing
 * around the last '.'.
 */
module Paths {
  import opened Strings

  /** The recognised header extensions; their edges are drawn red. */
  const ValidHeaders: seq<string> := [".h", ".hpp", ".cuh"]
  /** The recognised source extensions; their edges are drawn blue. */
  const ValidSources: seq<string> := [".c", ".cc", ".cpp", ".cu"]
  /** A file is a graph node only if its extension is one of these. */
  const ValidExtensions: seq<string> := ValidHeaders + ValidSources

  /** `os.path.basename`: the text after the last '/'. */
  function Basename(p: string): string
  {
    p[RFind(p, '/') + 1..]
  }

  /** The base name is the longest suffix of the path without a '/'. */
  lemma BasenameIsLastComponent(p: string)
    ensures |Basename(p)| <= |p| && Basename(p) == p[|p| - |Basename(p)|..]
    ensures '/' !in Basename(p)
    ensures |Basename(p)| < |p| ==> p[|p| - |Basename(p)| - 1] == '/'
  {
    var i := RFind(p, '/');
    assert forall k :: i + 1 <= k < |p| ==> p[k] == p[i + 1..][k - i - 1];
  }

  predicate AllSlashes(s: string)
  {
    forall k :: 0 <= k < |s| ==> s[k] == '/'
  }

  /** `s.rstrip('/')`. */
  function TrimSlashes(s: string): (r: string)
    ensures |r| <= |s| && r == s[..|r|]
    ensures forall k :: |r| <= k < |s| ==> s[k] == '/'
    ensures r != [] ==> r[|r| - 1] != '/'
  {
    if s != [] && s[|s| - 1] == '/' then TrimSlashes(s[..|s| - 1]) else s
  }

  /**
   * `os.path.dirname`: the text up to the last '/', with trailing slashes removed
   * unless it is made of slashes only.
   */
  function Dirname(p: string): (r: string)
    ensures |r| <= |p| && r == p[..|r|]
    ensures r == "" <==> '/' !in p
  {
    var i := RFind(p, '/') + 1;
    var head := p[..i];
    if head != "" && !AllSlashes(head) then
      var r := TrimSlashes(head);
      assert r != "" by {
        var k :| 0 <= k < |head| && head[k] != '/';
      }
      r
    else head
  }

  /** `os.path.join(a, b)` for two components. */
  function JoinPath(a: string, b: string): string
  {
    if StartsWith(b, "/") then b
    else if a == "" || a[|a| - 1] == '/' then a + b
    else a + "/" + b
  }

  /** The entry named `name` listed in directory `d` has base name `name`. */
  lemma BasenameOfJoinPath(d: string, name: string)
    requires name != "" && '/' !in name
    ensures Basename(JoinPath(d, name)) == name
  {
    var p := JoinPath(d, name);
    assert !StartsWith(name, "/") by { assert name[0] != '/'; }
    assert p == (p[..|p| - |name|] + name);
    var i := RFind(p, '/');
    assert forall k :: |p| - |name| <= k < |p| ==> p[k] == name[k - (|p| - |name|)];
    if |p| > |name| {
      assert p[|p| - |name| - 1] == '/';
    }
  }

  /** The entry named `name` listed in directory `d` has directory name `d`, for a plain directory path `d`. */
  lemma DirnameOfJoinPath(d: string, name: string)
    requires name != "" && '/' !in name
    requires d != "" && d[|d| - 1] != '/'
    ensures Dirname(JoinPath(d, name)) == d
  {
    var p := JoinPath(d, name);
    assert !StartsWith(name, "/") by { assert name[0] != '/'; }
    assert p == d + "/" + name;
    var i := RFind(p, '/');
    assert p[|d|] == '/';
    assert forall k :: |d| < k < |p| ==> p[k] == name[k - |d| - 1];
    var head := p[..i + 1];
    assert head == d + "/";
    assert !AllSlashes(head) by { assert head[|d| - 1] != '/'; }
    var r := TrimSlashes(head);
    assert head[|d| - 1] != '/';
  }

  /**
   * `normalize`: the node name of a file, its base name up to (not including) the
   * last '.', or the whole base name when it has no '.'.
   */
  function Normalize(p: string): string
  {
    var f := Basename(p);
    var e := RFind(f, '.');
    if e == -1 then f else f[..e]
  }

  /** A character missing from a text is missing from each of its prefixes. */
  lemma NotInPrefix(f: string, n: nat, c: char)
    requires n <= |f| && c !in f
    ensures c !in f[..n]
  {
    forall k | 0 <= k < n ensures f[..n][k] != c {
      assert f[..n][k] == f[k];
    }
  }

  /** `RFind` is -1 exactly when the character is absent, and nothing after it is that character. */
  lemma RFindFacts(f: string, c: char)
    ensures RFind(f, c) == -1 <==> c !in f
    ensures RFind(f, c) >= 0 ==> c !in f[RFind(f, c) + 1..]
  {
    var e := RFind(f, c);
    if c in f {
      var k :| 0 <= k < |f| && f[k] == c;
      assert e >= k;
    }
    if e >= 0 {
      var t := f[e + 1..];
      forall k | 0 <= k < |t| ensures t[k] != c {
        assert t[k] == f[e + 1 + k];
      }
    }
  }

  /** `normalize(p)` is the stem of the base name: everything before its last '.'; it never holds a '/'. */
  lemma NormalizeIsStem(p: string)
    ensures '/' !in Normalize(p)
    ensures StartsWith(Basename(p), Normalize(p))
    ensures |Normalize(p)| == |Basename(p)| <==> '.' !in Basename(p)
    ensures |Normalize(p)| < |Basename(p)| ==>
              Basename(p)[|Normalize(p)|] == '.' && '.' !in Basename(p)[|Normalize(p)| + 1..]
  {
    var f := Basename(p);
    BasenameIsLastComponent(p);
    var e := RFind(f, '.');
    RFindFacts(f, '.');
    if e >= 0 {
      assert Normalize(p) == f[..e];
      NotInPrefix(f, e, '/');
    } else {
      assert Normalize(p) == f;
    }
  }

  /**
   * `get_extension`: the suffix from the last '.' of the whole path; with no '.'
   * at all Python's `path[-1:]` leaves just the last character.
   */
  function GetExtension(p: string): string
  {
    var i := RFind(p, '.');
    if i == -1 then (if p == "" then p else p[|p| - 1..]) else p[i..]
  }

  /**
   * `get_extension(p)` is a suffix of `p`; with a '.' in `p` it starts at the last '.'
   * and holds no other '.'; without one it is the last character alone.
   */
  lemma ExtensionIsSuffix(p: string)
    ensures |GetExtension(p)| <= |p| && GetExtension(p) == p[|p| - |GetExtension(p)|..]
    ensures '.' in p ==> GetExtension(p) != [] && GetExtension(p)[0] == '.' && '.' !in GetExtension(p)[1..]
    ensures '.' !in p ==> |GetExtension(p)| == if p == "" then 0 else 1
  {
    var i := RFind(p, '.');
    var r := GetExtension(p);
    assert i >= 0 ==> forall k :: 0 <= k < |r| - 1 ==> r[1..][k] == p[i + 1 + k];
  }

  /** Where the last '.' sits in a directory name, the extension takes in the rest of the path. */
  lemma DotInDirectoryLeaks(d: string, name: string)
    requires '.' in d && '.' !in name && '/' !in name && name != ""
    requires d[|d| - 1] != '/'
    ensures '/' in GetExtension(JoinPath(d, name))
  {
    var p := JoinPath(d, name);
    assert !StartsWith(name, "/") by { assert name[0] != '/'; }
    assert p == d + "/" + name;
    var r := GetExtension(p);
    var k :| 0 <= k < |d| && d[k] == '.';
    assert p[k] == '.';
    var i := RFind(p, '.');
    assert i >= k;
    assert p[|d|] == '/';
    assert forall j :: |d| < j < |p| ==> p[j] == name[j - |d| - 1];
    assert r == p[i..];
    assert r[|d| - i] == '/';
  }

  /** Every recognised extension is a '.' followed by at least one character that is neither '.' nor '/'. */
  lemma ValidExtensionShape(ext: string)
    requires ext in ValidExtensions
    ensures |ext| >= 2 && ext[0] == '.'
    ensures forall k :: 1 <= k < |ext| ==> ext[k] != '.' && ext[k] != '/'
  {
  }

  /** When the extension holds no '/', the last '.' of the path comes after its last '/'. */
  lemma LastDotAfterLastSlash(p: string)
    requires '.' in p && '/' !in GetExtension(p)
    ensures 0 <= RFind(p, '.') && RFind(p, '/') < RFind(p, '.')
    ensures GetExtension(p) == p[RFind(p, '.')..]
  {
    var i := RFind(p, '.');
    var j := RFind(p, '/');
    var ext := GetExtension(p);
    assert p[i..] == ext;
    assert forall k :: i <= k < |p| ==> p[k] == ext[k - i];
  }

  /** When the last '.' of a path lies in its base name, `normalize(p)` is the text between the last '/' and that '.'. */
  lemma NormalizeBetween(p: string)
    requires RFind(p, '/') < RFind(p, '.')
    ensures Normalize(p) == p[RFind(p, '/') + 1..RFind(p, '.')]
  {
    var j, i := RFind(p, '/'), RFind(p, '.');
    var f := p[j + 1..];
    assert Basename(p) == f;
    RFindSuffix(p, '.', j + 1);
    assert RFind(f, '.') == i - (j + 1);
    assert Normalize(p) == f[..i - (j + 1)];
    SuffixPrefix(p, j + 1, i);
  }

  /** The start of a suffix is a slice of the whole text. */
  lemma SuffixPrefix(p: string, a: nat, b: nat)
    requires a <= b <= |p|
    ensures p[a..][..b - a] == p[a..b]
  {
  }

  /** Two adjacent slices of a text make up the slice that spans both. */
  lemma AdjacentSlices(p: string, a: nat, b: nat)
    requires a <= b <= |p|
    ensures p[a..b] + p[b..] == p[a..]
  {
  }

  /**
   * When the last '.' of a path lies in its base name, `normalize(p)` followed by
   * `get_extension(p)` puts back exactly the base name.
   */
  lemma NormalizeThenExtension(p: string)
    requires RFind(p, '/') < RFind(p, '.')
    ensures Normalize(p) + GetExtension(p) == Basename(p)
  {
    NormalizeBetween(p);
    AdjacentSlices(p, RFind(p, '/') + 1, RFind(p, '.'));
  }

  /**
   * A file with a recognised extension is labelled by its base name: `normalize(p)`
   * followed by `get_extension(p)` puts back exactly what `normalize` cut off.
   */
  lemma LabelIsBasename(p: string)
    requires GetExtension(p) in ValidExtensions
    ensures Normalize(p) + GetExtension(p) == Basename(p)
  {
    var ext := GetExtension(p);
    ValidExtensionShape(ext);
    assert '.' in p;
    assert '/' !in ext by {
      assert forall k :: 0 <= k < |ext| ==> ext[k] != '/';
    }
    LastDotAfterLastSlash(p);
    NormalizeThenExtension(p);
  }
}
