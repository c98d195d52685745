/**
 * Include resolution (`get_absolute_path`): the include directories named in a
 * comma-separated list are tried in order, then the including file's own directory;
 * the first joined path that exists is returned, normalised, and `None` when none exists.
 * The filesystem test and `os.path.normpath` are parameters.
 */
module Resolver {
  import opened Strings
  import opened Paths
  import opened Wrappers

  /** The directories tried for a token included by `path`, in order. */
  function Candidates(path: string, includeDirs: string): (r: seq<string>)
    ensures |r| >= 2 && r[|r| - 1] == Dirname(path)
  {
    Split(includeDirs, ',') + [Dirname(path)]
  }

  /** The index of the first directory of `dirs` under which `token` exists. */
  function FirstExisting(dirs: seq<string>, token: string, pathExists: string -> bool): (r: Option<nat>)
    ensures r.None? <==> forall k :: 0 <= k < |dirs| ==> !pathExists(JoinPath(dirs[k], token))
    ensures r.Some? ==>
              && r.value < |dirs|
              && pathExists(JoinPath(dirs[r.value], token))
              && forall k :: 0 <= k < r.value ==> !pathExists(JoinPath(dirs[k], token))
  {
    if dirs == [] then None
    else if pathExists(JoinPath(dirs[0], token)) then Some(0)
    else
      match FirstExisting(dirs[1..], token, pathExists)
      case None => None
      case Some(k) => Some(k + 1)
  }

  /** What `get_absolute_path(path, token, includeDirs)` returns. */
  function Resolve(path: string, token: string, includeDirs: string,
                   pathExists: string -> bool, normpath: string -> string): (r: Option<string>)
    ensures var dirs := Candidates(path, includeDirs);
            r.None? <==> forall k :: 0 <= k < |dirs| ==> !pathExists(JoinPath(dirs[k], token))
    ensures var dirs := Candidates(path, includeDirs);
            r.Some? ==> exists k :: 0 <= k < |dirs| && pathExists(JoinPath(dirs[k], token)) && r.value == normpath(JoinPath(dirs[k], token))
  {
    var dirs := Candidates(path, includeDirs);
    match FirstExisting(dirs, token, pathExists)
    case None => None
    case Some(k) => Some(normpath(JoinPath(dirs[k], token)))
  }

  /** Resolution fails exactly when the token exists under none of the candidate directories. */
  lemma ResolveNoneIff(path: string, token: string, includeDirs: string,
                       pathExists: string -> bool, normpath: string -> string)
    ensures Resolve(path, token, includeDirs, pathExists, normpath).None? <==>
              forall d :: d in Candidates(path, includeDirs) ==> !pathExists(JoinPath(d, token))
  {
    var dirs := Candidates(path, includeDirs);
    if Resolve(path, token, includeDirs, pathExists, normpath).Some? {
      var k := FirstExisting(dirs, token, pathExists).value;
      assert dirs[k] in dirs;
    }
  }

  /**
   * A resolved token is the normalised join with the first candidate directory under which
   * it exists; the explicit directories are tried before the includer's own.
   */
  lemma ResolveIsFirstMatch(path: string, token: string, includeDirs: string,
                            pathExists: string -> bool, normpath: string -> string)
    requires Resolve(path, token, includeDirs, pathExists, normpath).Some?
    ensures exists k ::
              var dirs := Candidates(path, includeDirs);
              && 0 <= k < |dirs|
              && pathExists(JoinPath(dirs[k], token))
              && Resolve(path, token, includeDirs, pathExists, normpath).value == normpath(JoinPath(dirs[k], token))
              && forall j :: 0 <= j < k ==> !pathExists(JoinPath(dirs[j], token))
  {
    var dirs := Candidates(path, includeDirs);
    var k := FirstExisting(dirs, token, pathExists).value;
    assert 0 <= k < |dirs|;
  }

  /** When an explicit include directory holds the token, the includer's own directory is never consulted. */
  lemma ExplicitDirectoryWins(path: string, token: string, includeDirs: string,
                              pathExists: string -> bool, normpath: string -> string, i: nat)
    requires i < |Split(includeDirs, ',')| && pathExists(JoinPath(Split(includeDirs, ',')[i], token))
    ensures exists k :: 0 <= k <= i &&
              Resolve(path, token, includeDirs, pathExists, normpath)
                == Some(normpath(JoinPath(Split(includeDirs, ',')[k], token)))
  {
    var dirs := Candidates(path, includeDirs);
    assert dirs[i] == Split(includeDirs, ',')[i];
    var k := FirstExisting(dirs, token, pathExists).value;
    assert k <= i;
    assert dirs[k] == Split(includeDirs, ',')[k];
  }

  /**
   * An empty include list still contributes one candidate, the empty directory: the token
   * is first tried as written, relative to the working directory.
   */
  lemma EmptyIncludeListTriesTokenAsIs(path: string, token: string)
    ensures Candidates(path, "") == ["", Dirname(path)]
    ensures JoinPath(Candidates(path, "")[0], token) == token
  {
    assert Find("", ',') == -1;
  }

  /** `get_absolute_path`: a first-match loop over the candidate directories. */
  method GetAbsolutePath(path: string, token: string, includeDirs: string,
                         pathExists: string -> bool, normpath: string -> string)
    returns (r: Option<string>)
    ensures r == Resolve(path, token, includeDirs, pathExists, normpath)
  {
    var dirs := Split(includeDirs, ',');
    dirs := dirs + [Dirname(path)];
    var i := 0;
    while i < |dirs|
      invariant 0 <= i <= |dirs|
      invariant dirs == Candidates(path, includeDirs)
      invariant forall k :: 0 <= k < i ==> !pathExists(JoinPath(dirs[k], token))
    {
      var maybe := JoinPath(dirs[i], token);
      if pathExists(maybe) {
        return Some(normpath(maybe));
      }
      i := i + 1;
    }
    return None;
  }
}
