/**
 * File discovery (`find_all_files`): walks a directory listing in order, descends into
 * subdirectories and splices their files in where the subdirectory was met, and keeps a
 * non-directory entry when its extension is recognised and it is not a test file.
 * The directory tree stands for what `os.scandir` would list.
 */
module Catalog {
  import opened Strings
  import opened Paths

  /** One entry of a directory listing, named relative to the directory that lists it. */
  datatype Entry = File(name: string) | Dir(name: string, children: seq<Entry>)

  /** A test file: its node name has at least four characters and holds "test". */
  predicate IsTestName(n: string)
  {
    |n| >= 4 && Contains(n, "test")
  }

  /** Whether the non-directory entry at `path` becomes a graph node. */
  predicate Kept(path: string, ignoreTests: bool)
  {
    GetExtension(path) in ValidExtensions && !(ignoreTests && IsTestName(Normalize(path)))
  }

  /**
   * What `find_all_files(dir)` returns for the listing `es` of `dir`: the entries in listing
   * order, a subdirectory (when recursing) replaced by its own result.
   */
  function Listed(dir: string, es: seq<Entry>, ignoreTests: bool, recursive: bool): (r: seq<string>)
    ensures forall p :: p in r ==> Kept(p, ignoreTests)
    decreases es
  {
    if es == [] then []
    else
      var e := es[|es| - 1];
      var path := JoinPath(dir, e.name);
      var here :=
        if e.Dir? && recursive then Listed(path, e.children, ignoreTests, true)
        else if Kept(path, ignoreTests) then [path]
        else [];
      Listed(dir, es[..|es| - 1], ignoreTests, recursive) + here
  }

  /**
   * Every path the walk looks at, before any filtering: the non-directory entries, and
   * also the directory entries when it does not recurse.
   */
  function Walk(dir: string, es: seq<Entry>, recursive: bool): (r: seq<string>)
    ensures !recursive ==> |r| == |es| && forall i :: 0 <= i < |es| ==> r[i] == JoinPath(dir, es[i].name)
    decreases es
  {
    if es == [] then []
    else
      var e := es[|es| - 1];
      var path := JoinPath(dir, e.name);
      var here := if e.Dir? && recursive then Walk(path, e.children, true) else [path];
      Walk(dir, es[..|es| - 1], recursive) + here
  }

  /** The paths of `ps` that are kept, in order. */
  function Filter(ps: seq<string>, ignoreTests: bool): (r: seq<string>)
    ensures forall p :: p in r <==> p in ps && Kept(p, ignoreTests)
  {
    if ps == [] then []
    else
      var last := ps[|ps| - 1];
      var r := Filter(ps[..|ps| - 1], ignoreTests) + (if Kept(last, ignoreTests) then [last] else []);
      assert ps == ps[..|ps| - 1] + [last];
      r
  }

  lemma {:induction false} FilterAppend(a: seq<string>, b: seq<string>, ignoreTests: bool)
    ensures Filter(a + b, ignoreTests) == Filter(a, ignoreTests) + Filter(b, ignoreTests)
    decreases |b|
  {
    if b != [] {
      var last := b[|b| - 1];
      assert (a + b)[..|a + b| - 1] == a + b[..|b| - 1];
      FilterAppend(a, b[..|b| - 1], ignoreTests);
    } else {
      assert a + b == a;
    }
  }

  /** Discovery is a filter over the walk: the kept paths among all visited entries, in visiting order. */
  lemma {:induction false} ListedIsFilteredWalk(dir: string, es: seq<Entry>, ignoreTests: bool, recursive: bool)
    ensures Listed(dir, es, ignoreTests, recursive) == Filter(Walk(dir, es, recursive), ignoreTests)
    decreases es
  {
    if es != [] {
      var e := es[|es| - 1];
      var path := JoinPath(dir, e.name);
      ListedIsFilteredWalk(dir, es[..|es| - 1], ignoreTests, recursive);
      if e.Dir? && recursive {
        ListedIsFilteredWalk(path, e.children, ignoreTests, true);
      }
      var here := if e.Dir? && recursive then Walk(path, e.children, true) else [path];
      FilterAppend(Walk(dir, es[..|es| - 1], recursive), here, ignoreTests);
    }
  }

  /**
   * A path is discovered exactly when the walk visits it, its extension is recognised and,
   * with test files ignored, its node name is not a test name.
   */
  lemma DiscoveredIff(dir: string, es: seq<Entry>, ignoreTests: bool, recursive: bool, p: string)
    ensures p in Listed(dir, es, ignoreTests, recursive) <==>
              p in Walk(dir, es, recursive) && GetExtension(p) in ValidExtensions
              && !(ignoreTests && |Normalize(p)| >= 4 && Contains(Normalize(p), "test"))
  {
    ListedIsFilteredWalk(dir, es, ignoreTests, recursive);
  }

  lemma ListedSnoc(dir: string, es: seq<Entry>, i: nat, ignoreTests: bool, recursive: bool)
    requires i < |es|
    ensures Listed(dir, es[..i + 1], ignoreTests, recursive)
         == Listed(dir, es[..i], ignoreTests, recursive)
            + (if es[i].Dir? && recursive then Listed(JoinPath(dir, es[i].name), es[i].children, ignoreTests, true)
               else if Kept(JoinPath(dir, es[i].name), ignoreTests) then [JoinPath(dir, es[i].name)]
               else [])
  {
    assert es[..i + 1][..i] == es[..i];
  }

  /** `find_all_files`: the listing's kept files, subdirectories spliced in where they are met. */
  method FindAllFiles(dir: string, es: seq<Entry>, ignoreTests: bool, recursive: bool) returns (files: seq<string>)
    ensures files == Listed(dir, es, ignoreTests, recursive)
    decreases es
  {
    files := [];
    for i := 0 to |es|
      invariant files == Listed(dir, es[..i], ignoreTests, recursive)
    {
      var entry := es[i];
      var path := JoinPath(dir, entry.name);
      ListedSnoc(dir, es, i, ignoreTests, recursive);
      if entry.Dir? && recursive {
        var sub := FindAllFiles(path, entry.children, ignoreTests, true);
        files := files + sub;
      } else if GetExtension(path) in ValidExtensions {
        var skip := false;
        if ignoreTests {
          var normPath := Normalize(path);
          if |normPath| >= 4 {
            if Contains(normPath, "test") {
              skip := true;
            }
          }
        }
        if !skip {
          files := files + [path];
        }
      }
    }
    assert es[..|es|] == es;
  }
}
