/**
 * Clustering as the graph builder does it: files are grouped flat by their full directory
 * name (`folder_to_files`, keys in order of first appearance), and each group's cluster is
 * named by cutting off the character-wise common prefix of all directory names
 * (`os.path.commonprefix`), not a path-segment prefix.
 */
module Clusters {
  import opened Strings
  import opened Paths

  /** No value occurs twice. */
  predicate Distinct(s: seq<string>)
  {
    forall i, j :: 0 <= i < j < |s| ==> s[i] != s[j]
  }

  /** The directories of `files`, each once, in order of first appearance. */
  function DirKeys(files: seq<string>): seq<string>
  {
    if files == [] then []
    else
      var keys := DirKeys(files[..|files| - 1]);
      var d := Dirname(files[|files| - 1]);
      if d in keys then keys else keys + [d]
  }

  /** Each directory of a file is listed exactly once, and nothing else is. */
  lemma {:induction false} DirKeysAreTheDirectories(files: seq<string>)
    ensures Distinct(DirKeys(files))
    ensures forall d :: d in DirKeys(files) <==> exists f :: f in files && Dirname(f) == d
  {
    if files != [] {
      var prefix := files[..|files| - 1];
      assert files == prefix + [files[|files| - 1]];
      DirKeysAreTheDirectories(prefix);
    }
  }

  /** The files of `files` whose directory is `d`, in order. */
  function FilesIn(files: seq<string>, d: string): seq<string>
  {
    if files == [] then []
    else
      var last := files[|files| - 1];
      FilesIn(files[..|files| - 1], d) + (if Dirname(last) == d then [last] else [])
  }

  /** The group of `d` holds exactly the files whose directory is `d`. */
  lemma {:induction false} FilesInIsTheGroup(files: seq<string>, d: string)
    ensures forall f :: f in FilesIn(files, d) <==> f in files && Dirname(f) == d
  {
    if files != [] {
      var prefix := files[..|files| - 1];
      assert files == prefix + [files[|files| - 1]];
      FilesInIsTheGroup(prefix, d);
    }
  }

  /** The groups of the directories `keys`, one after the other: the order the graph loop visits files in. */
  function GroupedOrder(keys: seq<string>, files: seq<string>): seq<string>
  {
    if keys == [] then [] else FilesIn(files, keys[0]) + GroupedOrder(keys[1..], files)
  }

  lemma FilesInSnoc(files: seq<string>, f: string, d: string)
    ensures FilesIn(files + [f], d) == FilesIn(files, d) + (if Dirname(f) == d then [f] else [])
  {
    assert (files + [f])[..|files|] == files;
  }

  /** One more file adds itself to exactly the group of its directory, if that group is listed. */
  lemma {:induction false} GroupedOrderSnoc(keys: seq<string>, files: seq<string>, f: string)
    requires Distinct(keys)
    ensures multiset(GroupedOrder(keys, files + [f]))
         == multiset(GroupedOrder(keys, files)) + (if Dirname(f) in keys then multiset{f} else multiset{})
  {
    if keys != [] {
      var k := keys[0];
      var tail := keys[1..];
      assert keys == [k] + tail;
      assert Distinct(tail) && k !in tail by {
        assert forall i :: 0 <= i < |tail| ==> tail[i] == keys[i + 1];
      }
      GroupedOrderSnoc(tail, files, f);
      FilesInSnoc(files, f, k);
      var extra := if Dirname(f) == k then [f] else [];
      MultisetAppend(FilesIn(files + [f], k), FilesIn(files, k), extra);
      var ma := multiset(extra);
      var mb := if Dirname(f) in tail then multiset{f} else multiset{};
      MultisetOfParts(GroupedOrder(keys, files + [f]), FilesIn(files + [f], k), GroupedOrder(tail, files + [f]),
                      GroupedOrder(keys, files), FilesIn(files, k), GroupedOrder(tail, files), ma, mb);
      assert ma + mb == if Dirname(f) in keys then multiset{f} else multiset{};
    }
  }

  /** A sequence extended by `extra` gains exactly the elements of `extra`. */
  lemma MultisetAppend(a: seq<string>, a0: seq<string>, extra: seq<string>)
    requires a == a0 + extra
    ensures multiset(a) == multiset(a0) + multiset(extra)
  {
  }

  /** Two parts that each gain some elements make a whole that gains them all. */
  lemma MultisetOfParts(x: seq<string>, a: seq<string>, b: seq<string>, x0: seq<string>, a0: seq<string>, b0: seq<string>,
                        ma: multiset<string>, mb: multiset<string>)
    requires x == a + b && x0 == a0 + b0
    requires multiset(a) == multiset(a0) + ma && multiset(b) == multiset(b0) + mb
    ensures multiset(x) == multiset(x0) + ma + mb
  {
  }

  lemma {:induction false} FilesInNone(files: seq<string>, d: string)
    requires forall f :: f in files ==> Dirname(f) != d
    ensures FilesIn(files, d) == []
  {
    if files != [] {
      FilesInNone(files[..|files| - 1], d);
    }
  }

  lemma {:induction false} GroupedOrderAppendKey(keys: seq<string>, d: string, files: seq<string>)
    ensures GroupedOrder(keys + [d], files) == GroupedOrder(keys, files) + FilesIn(files, d)
  {
    if keys != [] {
      assert (keys + [d])[1..] == keys[1..] + [d];
      GroupedOrderAppendKey(keys[1..], d, files);
    }
  }

  /**
   * Grouping by directory loses and duplicates nothing: visiting the groups one after the
   * other visits every file exactly as often as it occurs in `files`.
   */
  lemma {:induction false} GroupingIsPermutation(files: seq<string>)
    ensures multiset(GroupedOrder(DirKeys(files), files)) == multiset(files)
  {
    if files != [] {
      var prefix := files[..|files| - 1];
      var f := files[|files| - 1];
      assert files == prefix + [f];
      var keys := DirKeys(prefix);
      var d := Dirname(f);
      DirKeysAreTheDirectories(prefix);
      GroupingIsPermutation(prefix);
      GroupedOrderSnoc(keys, prefix, f);
      if d !in keys {
        GroupedOrderAppendKey(keys, d, files);
        FilesInSnoc(prefix, f, d);
        FilesInNone(prefix, d);
      }
    }
  }

  /** Each file belongs to the group of its own directory and to no other. */
  lemma FileInExactlyOneGroup(files: seq<string>, f: string, d: string)
    requires f in files
    ensures d in DirKeys(files) && f in FilesIn(files, d) <==> d == Dirname(f)
  {
    DirKeysAreTheDirectories(files);
    FilesInIsTheGroup(files, d);
  }

  /**
   * A file listed directly under a directory `d` (written without a trailing '/') is grouped
   * under `d`, in `d`'s cluster and no other, and keeps its entry name as its base name.
   */
  lemma ListedEntryGroupedUnderItsDirectory(files: seq<string>, d: string, name: string, d': string)
    requires JoinPath(d, name) in files
    requires name != "" && '/' !in name
    requires d != "" && d[|d| - 1] != '/'
    ensures d' in DirKeys(files) && JoinPath(d, name) in FilesIn(files, d') <==> d' == d
    ensures Basename(JoinPath(d, name)) == name
  {
    DirnameOfJoinPath(d, name);
    BasenameOfJoinPath(d, name);
    FileInExactlyOneGroup(files, JoinPath(d, name), d');
  }

  /** The common prefix of two strings, character by character. */
  function CommonPrefix2(a: string, b: string): string
  {
    if a == [] || b == [] || a[0] != b[0] then [] else [a[0]] + CommonPrefix2(a[1..], b[1..])
  }

  /** Putting the same character in front of a text and of one of its prefixes keeps it a prefix. */
  lemma StartsWithCons(c: char, t: string, y: string)
    requires StartsWith(t, y)
    ensures StartsWith([c] + t, [c] + y)
  {
    assert ([c] + t)[..|y| + 1] == [c] + t[..|y|];
  }

  /** A non-empty prefix of a text begins with its first character, and the rest of it is a prefix of the rest. */
  lemma StartsWithTail(a: string, x: string)
    requires x != [] && StartsWith(a, x)
    ensures x[0] == a[0] && StartsWith(a[1..], x[1..])
  {
    assert x[0] == a[..|x|][0];
    assert a[1..][..|x| - 1] == a[..|x|][1..];
  }

  /** `CommonPrefix2` starts both strings, and every string that starts both starts it: it is the longest one. */
  lemma {:induction false} CommonPrefix2IsLongest(a: string, b: string)
    ensures StartsWith(a, CommonPrefix2(a, b)) && StartsWith(b, CommonPrefix2(a, b))
    ensures forall x :: StartsWith(a, x) && StartsWith(b, x) ==> StartsWith(CommonPrefix2(a, b), x)
  {
    if !(a == [] || b == [] || a[0] != b[0]) {
      CommonPrefix2IsLongest(a[1..], b[1..]);
      var t := CommonPrefix2(a[1..], b[1..]);
      StartsWithCons(a[0], a[1..], t);
      StartsWithCons(b[0], b[1..], t);
      assert [a[0]] + a[1..] == a && [b[0]] + b[1..] == b;
      forall x | StartsWith(a, x) && StartsWith(b, x)
        ensures StartsWith([a[0]] + t, x)
      {
        if x != [] {
          StartsWithTail(a, x);
          StartsWithTail(b, x);
          StartsWithCons(a[0], t, x[1..]);
          assert [x[0]] + x[1..] == x;
        }
      }
    }
  }

  /** `os.path.commonprefix`: the common prefix of all strings of `strs`, and "" for none. */
  function CommonPrefix(strs: seq<string>): string
  {
    if strs == [] then ""
    else if |strs| == 1 then strs[0]
    else CommonPrefix2(strs[0], CommonPrefix(strs[1..]))
  }

  /** A prefix of the first string and of a text that starts all the others starts them all. */
  lemma StartsAll(strs: seq<string>, rest: string, r: string)
    requires |strs| > 1 && StartsWith(strs[0], r) && StartsWith(rest, r)
    requires forall s :: s in strs[1..] ==> StartsWith(s, rest)
    ensures forall s :: s in strs ==> StartsWith(s, r)
  {
    forall s | s in strs
      ensures StartsWith(s, r)
    {
      if s != strs[0] {
        assert s in strs[1..];
        assert s[..|r|] == rest[..|r|];
      }
    }
  }

  /**
   * `CommonPrefix` starts every string of `strs`, and every string that starts them all
   * starts it: it is the longest common prefix.
   */
  lemma {:induction false} CommonPrefixIsLongest(strs: seq<string>)
    ensures forall s :: s in strs ==> StartsWith(s, CommonPrefix(strs))
    ensures strs != [] ==> forall x :: (forall s :: s in strs ==> StartsWith(s, x)) ==> StartsWith(CommonPrefix(strs), x)
  {
    if |strs| > 1 {
      var rest := CommonPrefix(strs[1..]);
      CommonPrefixIsLongest(strs[1..]);
      CommonPrefix2IsLongest(strs[0], rest);
      StartsAll(strs, rest, CommonPrefix(strs));
      forall x | forall s :: s in strs ==> StartsWith(s, x)
        ensures StartsWith(CommonPrefix(strs), x)
      {
        assert forall s :: s in strs[1..] ==> s in strs;
      }
    }
  }

  /**
   * The name of the cluster of `folder`, as `folder1_name` is computed. The prefix is cut
   * character by character: `src/ab` and `src/ac` share the prefix `src/a`, so their
   * clusters are named `b` and `c`.
   */
  function ClusterName(folder: string, prefix: string): (r: string)
    ensures |r| <= |folder| && r == folder[|folder| - |r|..]
    ensures prefix != "" && StartsWith(folder, prefix) ==> prefix + r == folder
    ensures !StartsWith(folder, prefix) ==> r == folder
  {
    if prefix != "" && StartsWith(folder, prefix) then folder[|prefix|..] else folder
  }

  /** Every cluster name is its directory with the common prefix of all directories cut off. */
  lemma ClusterNameStripsCommonPrefix(folders: seq<string>, folder: string)
    requires folder in folders
    ensures CommonPrefix(folders) + ClusterName(folder, CommonPrefix(folders)) == folder
  {
    var cp := CommonPrefix(folders);
    CommonPrefixIsLongest(folders);
    assert StartsWith(folder, cp);
    assert folder == folder[..|cp|] + folder[|cp|..];
  }

  /** With a single directory, the common prefix is the whole directory and its cluster name is empty. */
  lemma SingleFolderHasEmptyName(folder: string)
    ensures ClusterName(folder, CommonPrefix([folder])) == ""
  {
  }

  /**
   * The grouping loop of the graph builder: `folders` lists the directories in order of
   * first appearance and `groups` maps each to its files, in order.
   */
  method GroupByFolder(files: seq<string>) returns (folders: seq<string>, groups: map<string, seq<string>>)
    ensures folders == DirKeys(files)
    ensures forall d :: d in groups <==> d in folders
    ensures forall d :: d in groups ==> groups[d] == FilesIn(files, d)
  {
    folders, groups := [], map[];
    for i := 0 to |files|
      invariant folders == DirKeys(files[..i])
      invariant forall d :: d in groups <==> d in folders
      invariant forall d :: d in groups ==> groups[d] == FilesIn(files[..i], d)
    {
      var path := files[i];
      var d := Dirname(path);
      assert files[..i + 1] == files[..i] + [path];
      assert files[..i + 1][..i] == files[..i];
      if d !in groups {
        DirKeysAreTheDirectories(files[..i]);
        FilesInNone(files[..i], d);
        folders := folders + [d];
        groups := groups[d := []];
      }
      groups := groups[d := groups[d] + [path]];
      forall d' | d' in groups
        ensures groups[d'] == FilesIn(files[..i + 1], d')
      {
        FilesInSnoc(files[..i], path, d');
      }
    }
    assert files[..|files|] == files;
  }
}
