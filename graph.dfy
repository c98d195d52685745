/**
 * What `create_graph` computes, stated as functions of the discovered files: the numbering
 * of the nodes, the edges the include loop adds (in the order the clusters are visited),
 * the unresolved includes it records per directory, and the lines of the text dump
 * (`graph.txt`) and of the Graphviz dump (`graph.gv`).
 */
module Graph {
  import opened Wrappers
  import opened Strings
  import opened Paths
  import opened Catalog
  import opened Extractor
  import opened Resolver
  import opened Clusters

  /** The switches of `create_graph` that shape its result. */
  datatype Options = Options(
    includeDirs: string,
    createCluster: bool,
    labelCluster: bool,
    gv: bool,
    text: bool,
    ignoreTests: bool,
    showPath: bool,
    flip: bool)

  /**
   * What the program asks of the filesystem: the listing of a directory (`None` when it
   * cannot be listed), the decoded text of a file, `os.path.exists` and `os.path.normpath`.
   */
  datatype FileSystem = FileSystem(
    scan: string -> Option<seq<Entry>>,
    read: string -> string,
    pathExists: string -> bool,
    normpath: string -> string)

  datatype Color = Black | Red | Blue

  function ColorName(c: Color): string
  {
    match c
    case Black => "black"
    case Red => "red"
    case Blue => "blue"
  }

  /** The colour of the edges drawn from `path`: red from a header, blue from a source, black otherwise. */
  function EdgeColor(path: string): Color
  {
    var ext := GetExtension(path);
    var c := if ext in ValidHeaders then Red else Black;
    if ext in ValidSources then Blue else c
  }

  /**
   * The header and source lists share no extension, so the colour names the kind of the
   * file: red exactly for headers, blue exactly for sources, black for anything else.
   */
  lemma EdgeColorByKind(path: string)
    ensures EdgeColor(path) == Red <==> GetExtension(path) in ValidHeaders
    ensures EdgeColor(path) == Blue <==> GetExtension(path) in ValidSources
    ensures EdgeColor(path) == Black <==> GetExtension(path) !in ValidExtensions
  {
    var ext := GetExtension(path);
    assert ext in ValidHeaders ==> ext !in ValidSources;
  }

  /** An include that became an edge: `includer` includes `included`. */
  datatype Edge = Edge(includer: string, included: string, color: Color)

  /** An edge as it is handed to the graph, from `tail` to `head`. */
  datatype GraphEdge = GraphEdge(tail: string, head: string, color: Color)

  /** The graph edge for `e`: from the includer, or from the included file when flipped. */
  function Orient(e: Edge, flip: bool): GraphEdge
  {
    if flip then GraphEdge(e.included, e.includer, e.color) else GraphEdge(e.includer, e.included, e.color)
  }

  function OrientAll(es: seq<Edge>, flip: bool): seq<GraphEdge>
  {
    if es == [] then [] else OrientAll(es[..|es| - 1], flip) + [Orient(es[|es| - 1], flip)]
  }

  lemma {:induction false} OrientAllElementwise(es: seq<Edge>, flip: bool)
    ensures |OrientAll(es, flip)| == |es|
    ensures forall i :: 0 <= i < |es| ==> OrientAll(es, flip)[i] == Orient(es[i], flip)
  {
    if es != [] {
      OrientAllElementwise(es[..|es| - 1], flip);
    }
  }

  lemma {:induction false} OrientAllAppend(a: seq<Edge>, b: seq<Edge>, flip: bool)
    ensures OrientAll(a + b, flip) == OrientAll(a, flip) + OrientAll(b, flip)
    decreases |b|
  {
    if b == [] {
      assert a + b == a;
    } else {
      assert (a + b)[..|a + b| - 1] == a + b[..|b| - 1];
      OrientAllAppend(a, b[..|b| - 1], flip);
    }
  }

  /**
   * The fixed context of the include loop: the tokens a file includes, where the token of
   * a file resolves to, and the node set.
   */
  datatype Env = Env(tokens: string -> seq<string>, resolve: (string, string) -> Option<string>, nodes: set<string>)

  /**
   * The context `create_graph` works in for the discovered `files`: tokens are found by
   * `find_neighbors` in the file's text and resolved by `get_absolute_path`.
   */
  function EnvOf(files: seq<string>, includeDirs: string, fs: FileSystem): Env
  {
    Env(path => FindNeighbors(fs.read(path)),
        (path, token) => Resolve(path, token, includeDirs, fs.pathExists, fs.normpath),
        set f | f in files)
  }

  /** The context of a run tokenizes with `find_neighbors`, resolves with `get_absolute_path` and has the files as nodes. */
  lemma EnvOfParts(files: seq<string>, includeDirs: string, fs: FileSystem)
    ensures forall p :: EnvOf(files, includeDirs, fs).tokens(p) == FindNeighbors(fs.read(p))
    ensures forall p, t :: EnvOf(files, includeDirs, fs).resolve(p, t) == Resolve(p, t, includeDirs, fs.pathExists, fs.normpath)
    ensures EnvOf(files, includeDirs, fs).nodes == set f | f in files
  {
  }

  /** The test `abs_path != path and abs_path in nodes`. */
  predicate MakesEdge(env: Env, path: string, target: Option<string>)
  {
    target.Some? && target.value != path && target.value in env.nodes
  }

  /** The files that the tokens of `path` add edges to, in token order. */
  function Targets(env: Env, path: string, tokens: seq<string>): seq<string>
  {
    if tokens == [] then []
    else
      var prev := Targets(env, path, tokens[..|tokens| - 1]);
      var target := env.resolve(path, tokens[|tokens| - 1]);
      if MakesEdge(env, path, target) then prev + [target.value] else prev
  }

  /** A file is a target exactly when it is another node that one of the tokens resolves to. */
  lemma {:induction false} TargetsIff(env: Env, path: string, tokens: seq<string>)
    ensures forall t :: t in Targets(env, path, tokens) <==>
              t != path && t in env.nodes && exists tok :: tok in tokens && env.resolve(path, tok) == Some(t)
  {
    if tokens != [] {
      var prefix := tokens[..|tokens| - 1];
      var last := tokens[|tokens| - 1];
      assert tokens == prefix + [last];
      TargetsIff(env, path, prefix);
    }
  }

  /** One edge from `path`, coloured `c`, to each of `targets`. */
  function EdgesFrom(path: string, c: Color, targets: seq<string>): seq<Edge>
  {
    if targets == [] then [] else EdgesFrom(path, c, targets[..|targets| - 1]) + [Edge(path, targets[|targets| - 1], c)]
  }

  lemma {:induction false} EdgesFromIff(path: string, c: Color, targets: seq<string>)
    ensures forall e :: e in EdgesFrom(path, c, targets) <==> e.includer == path && e.color == c && e.included in targets
  {
    if targets != [] {
      var last := targets[|targets| - 1];
      assert targets == targets[..|targets| - 1] + [last];
      EdgesFromIff(path, c, targets[..|targets| - 1]);
    }
  }

  lemma EdgesFromSnoc(path: string, c: Color, targets: seq<string>, t: string)
    ensures EdgesFrom(path, c, targets + [t]) == EdgesFrom(path, c, targets) + [Edge(path, t, c)]
  {
    assert (targets + [t])[..|targets|] == targets;
  }

  /** The edges that the file at `path` adds. */
  function FileEdges(env: Env, path: string): seq<Edge>
  {
    EdgesFrom(path, EdgeColor(path), Targets(env, path, env.tokens(path)))
  }

  /** The edges added while visiting `paths` in order. */
  function PathsEdges(env: Env, paths: seq<string>): seq<Edge>
  {
    if paths == [] then [] else PathsEdges(env, paths[..|paths| - 1]) + FileEdges(env, paths[|paths| - 1])
  }

  lemma PathsEdgesSnoc(env: Env, x: seq<string>, p: string)
    ensures PathsEdges(env, x + [p]) == PathsEdges(env, x) + FileEdges(env, p)
  {
    assert (x + [p])[..|x|] == x;
  }

  lemma {:induction false} PathsEdgesAppend(env: Env, a: seq<string>, b: seq<string>)
    ensures PathsEdges(env, a + b) == PathsEdges(env, a) + PathsEdges(env, b)
    decreases |b|
  {
    if b == [] {
      assert a + b == a;
    } else {
      var init, last := b[..|b| - 1], b[|b| - 1];
      assert a + b == (a + init) + [last];
      assert b == init + [last];
      PathsEdgesAppend(env, a, init);
      PathsEdgesSnoc(env, a + init, last);
      PathsEdgesSnoc(env, init, last);
      EdgesRegroup(PathsEdges(env, a + b), PathsEdges(env, a + init), PathsEdges(env, b),
                   PathsEdges(env, a), PathsEdges(env, init), FileEdges(env, last));
    }
  }

  /** Edges `u` then `v` then `w`, grouped either way. */
  lemma EdgesRegroup(x: seq<Edge>, y: seq<Edge>, z: seq<Edge>, u: seq<Edge>, v: seq<Edge>, w: seq<Edge>)
    requires x == y + w && y == u + v && z == v + w
    ensures x == u + z
  {
  }

  /**
   * An edge is added while visiting `paths` exactly when its includer is visited, it is not a
   * self loop, it ends at a node, it carries its includer's colour, and one of the includer's
   * tokens resolves to its other end.
   */
  lemma {:induction false} PathsEdgesIff(env: Env, paths: seq<string>)
    ensures forall e :: e in PathsEdges(env, paths) <==>
              && e.includer in paths
              && e.included != e.includer
              && e.included in env.nodes
              && e.color == EdgeColor(e.includer)
              && exists tok :: tok in env.tokens(e.includer) && env.resolve(e.includer, tok) == Some(e.included)
  {
    if paths != [] {
      var prefix := paths[..|paths| - 1];
      var last := paths[|paths| - 1];
      assert paths == prefix + [last];
      PathsEdgesIff(env, prefix);
      TargetsIff(env, last, env.tokens(last));
      EdgesFromIff(last, EdgeColor(last), Targets(env, last, env.tokens(last)));
    }
  }

  /** `unresolved[d].add(token)` on a map of sets. */
  function Record(u: map<string, set<string>>, d: string, token: string): map<string, set<string>>
  {
    u[d := (if d in u then u[d] else {}) + {token}]
  }

  predicate Holds(u: map<string, set<string>>, d: string, t: string)
  {
    d in u && t in u[d]
  }

  /** Every directory recorded has at least one unresolved token, as with a `defaultdict(set)` only ever added to. */
  predicate NoEmptyEntry(u: map<string, set<string>>)
  {
    forall d :: d in u ==> u[d] != {}
  }

  /** The record after the tokens of `path` are resolved, starting from `u`. */
  function Unresolved(env: Env, u: map<string, set<string>>, path: string, tokens: seq<string>): map<string, set<string>>
  {
    if tokens == [] then u
    else
      var prev := Unresolved(env, u, path, tokens[..|tokens| - 1]);
      var token := tokens[|tokens| - 1];
      if env.resolve(path, token).None? then Record(prev, Dirname(path), token) else prev
  }

  lemma {:induction false} UnresolvedIff(env: Env, u: map<string, set<string>>, path: string, tokens: seq<string>)
    requires NoEmptyEntry(u)
    ensures NoEmptyEntry(Unresolved(env, u, path, tokens))
    ensures forall d, t :: Holds(Unresolved(env, u, path, tokens), d, t) <==>
              Holds(u, d, t) || (d == Dirname(path) && t in tokens && env.resolve(path, t).None?)
  {
    if tokens != [] {
      var prefix := tokens[..|tokens| - 1];
      var last := tokens[|tokens| - 1];
      assert tokens == prefix + [last];
      UnresolvedIff(env, u, path, prefix);
      var prev := Unresolved(env, u, path, prefix);
      forall d, t
        ensures Holds(Unresolved(env, u, path, tokens), d, t) <==>
                  Holds(prev, d, t) || (d == Dirname(path) && t == last && env.resolve(path, last).None?)
      {
      }
    }
  }

  /** The record after visiting `paths` in order, starting from `u`. */
  function PathsUnresolved(env: Env, u: map<string, set<string>>, paths: seq<string>): map<string, set<string>>
  {
    if paths == [] then u
    else
      var last := paths[|paths| - 1];
      Unresolved(env, PathsUnresolved(env, u, paths[..|paths| - 1]), last, env.tokens(last))
  }

  lemma {:induction false} PathsUnresolvedAppend(env: Env, u: map<string, set<string>>, a: seq<string>, b: seq<string>)
    ensures PathsUnresolved(env, u, a + b) == PathsUnresolved(env, PathsUnresolved(env, u, a), b)
    decreases |b|
  {
    if b == [] {
      assert a + b == a;
    } else {
      assert (a + b)[..|a + b| - 1] == a + b[..|b| - 1];
      PathsUnresolvedAppend(env, u, a, b[..|b| - 1]);
    }
  }

  /**
   * A token is recorded under directory `d` exactly when some visited file of that directory
   * includes it and it resolves nowhere; no directory is recorded without a token.
   */
  lemma {:induction false} PathsUnresolvedIff(env: Env, u: map<string, set<string>>, paths: seq<string>)
    requires NoEmptyEntry(u)
    ensures NoEmptyEntry(PathsUnresolved(env, u, paths))
    ensures forall d, t :: Holds(PathsUnresolved(env, u, paths), d, t) <==>
              || Holds(u, d, t)
              || exists p :: p in paths && Dirname(p) == d && t in env.tokens(p) && env.resolve(p, t).None?
  {
    if paths != [] {
      var prefix := paths[..|paths| - 1];
      var last := paths[|paths| - 1];
      assert paths == prefix + [last];
      PathsUnresolvedIff(env, u, prefix);
      UnresolvedIff(env, PathsUnresolved(env, u, prefix), last, env.tokens(last));
    }
  }

  /**
   * One more token of `path`: it adds an edge exactly when it resolves to another node,
   * and a record exactly when it does not resolve.
   */
  lemma IncludeStep(env: Env, path: string, c: Color, tokens: seq<string>, j: nat, u: map<string, set<string>>)
    requires j < |tokens|
    ensures var t := env.resolve(path, tokens[j]);
            EdgesFrom(path, c, Targets(env, path, tokens[..j + 1]))
            == EdgesFrom(path, c, Targets(env, path, tokens[..j])) + if MakesEdge(env, path, t) then [Edge(path, t.value, c)] else []
    ensures Unresolved(env, u, path, tokens[..j + 1])
            == if env.resolve(path, tokens[j]).None? then Record(Unresolved(env, u, path, tokens[..j]), Dirname(path), tokens[j])
               else Unresolved(env, u, path, tokens[..j])
  {
    assert tokens[..j + 1][..j] == tokens[..j];
    var t := env.resolve(path, tokens[j]);
    if MakesEdge(env, path, t) {
      EdgesFromSnoc(path, c, Targets(env, path, tokens[..j]), t.value);
    }
  }

  /** `files_to_numbers`: each file numbered by its position, counted from 1; a repeated file keeps its last number. */
  function Numbering(files: seq<string>): map<string, nat>
  {
    if files == [] then map[] else Numbering(files[..|files| - 1])[files[|files| - 1] := |files|]
  }

  /** Every file has a number in `1..|files|`, the position of its last occurrence, and nothing else has one. */
  lemma {:induction false} NumberingIsLastPosition(files: seq<string>)
    ensures forall f :: f in Numbering(files) <==> f in files
    ensures forall f :: f in Numbering(files) ==>
              && 1 <= Numbering(files)[f] <= |files|
              && files[Numbering(files)[f] - 1] == f
              && forall j :: Numbering(files)[f] <= j < |files| ==> files[j] != f
  {
    if files != [] {
      var prefix := files[..|files| - 1];
      assert files == prefix + [files[|files| - 1]];
      NumberingIsLastPosition(prefix);
    }
  }

  /** Without repeated files, the `i`-th file is numbered `i + 1`. */
  lemma NumberingInOrder(files: seq<string>)
    requires Distinct(files)
    ensures forall i :: 0 <= i < |files| ==> files[i] in Numbering(files)
    ensures forall i :: 0 <= i < |files| ==> Numbering(files)[files[i]] == i + 1
  {
    NumberingIsLastPosition(files);
    forall i | 0 <= i < |files|
      ensures Numbering(files)[files[i]] == i + 1
    {
      assert files[i] in Numbering(files);
    }
  }

  /** The number of `f`, as the lookup `files_to_numbers[f]`; every file looked up has one. */
  function Number(numbers: map<string, nat>, f: string): nat
  {
    if f in numbers then numbers[f] else 0
  }

  /** The label of a node: its path, or its node name followed by its extension. */
  function Label(path: string, showPath: bool): string
  {
    if showPath then path else Normalize(path) + GetExtension(path)
  }

  function TextNodeLine(n: nat, caption: string): string
  {
    NatToString(n) + " " + caption + "\n"
  }

  function GvNodeLine(n: nat, caption: string): string
  {
    "\t" + NatToString(n) + " [label=\"" + caption + "\"];\n"
  }

  /** The node lines of the text dump, one per file, in file order. */
  function TextNodeLines(files: seq<string>, showPath: bool): (r: seq<string>)
    ensures |r| == |files|
  {
    if files == [] then []
    else TextNodeLines(files[..|files| - 1], showPath) + [TextNodeLine(|files|, Label(files[|files| - 1], showPath))]
  }

  /** The node line of the `i`-th file carries its 1-based position and its label. */
  lemma {:induction false} TextNodeLinesElementwise(files: seq<string>, showPath: bool)
    ensures forall i :: 0 <= i < |files| ==> TextNodeLines(files, showPath)[i] == TextNodeLine(i + 1, Label(files[i], showPath))
  {
    if files != [] {
      var init := files[..|files| - 1];
      TextNodeLinesElementwise(init, showPath);
      forall i | 0 <= i < |files| - 1
        ensures TextNodeLines(files, showPath)[i] == TextNodeLine(i + 1, Label(files[i], showPath))
      {
        assert init[i] == files[i];
      }
    }
  }

  /** The node line of file `i` follows those of the files before it, after any heading lines `head`. */
  lemma TextNodeLinesSnoc(head: seq<string>, files: seq<string>, i: nat, showPath: bool, caption: string)
    requires i < |files| && caption == Label(files[i], showPath)
    ensures head + TextNodeLines(files[..i + 1], showPath)
         == head + TextNodeLines(files[..i], showPath) + [NatToString(i + 1) + " " + caption + "\n"]
  {
    assert files[..i + 1][..i] == files[..i];
  }

  /** The node lines of the Graphviz dump, one per file, in file order. */
  function GvNodeLines(files: seq<string>, showPath: bool): (r: seq<string>)
    ensures |r| == |files|
  {
    if files == [] then []
    else GvNodeLines(files[..|files| - 1], showPath) + [GvNodeLine(|files|, Label(files[|files| - 1], showPath))]
  }

  /** The Graphviz node line of file `i` follows those of the files before it, after any lines `head`. */
  lemma GvNodeLinesSnoc(head: seq<string>, files: seq<string>, i: nat, showPath: bool, caption: string)
    requires i < |files| && caption == Label(files[i], showPath)
    ensures head + GvNodeLines(files[..i + 1], showPath)
         == head + GvNodeLines(files[..i], showPath) + ["\t" + NatToString(i + 1) + " [label=\"" + caption + "\"];\n"]
  {
    assert files[..i + 1][..i] == files[..i];
  }

  function TextEdgeLine(numbers: map<string, nat>, e: Edge): string
  {
    NatToString(Number(numbers, e.includer)) + " " + NatToString(Number(numbers, e.included)) + "\n"
  }

  function GvEdgeLine(numbers: map<string, nat>, e: Edge): string
  {
    "\t" + NatToString(Number(numbers, e.includer)) + " -> " + NatToString(Number(numbers, e.included))
    + " [color = " + ColorName(e.color) + "];\n"
  }

  function TextEdgeLines(numbers: map<string, nat>, es: seq<Edge>): (r: seq<string>)
    ensures |r| == |es|
  {
    if es == [] then [] else TextEdgeLines(numbers, es[..|es| - 1]) + [TextEdgeLine(numbers, es[|es| - 1])]
  }

  function GvEdgeLines(numbers: map<string, nat>, es: seq<Edge>): (r: seq<string>)
    ensures |r| == |es|
  {
    if es == [] then [] else GvEdgeLines(numbers, es[..|es| - 1]) + [GvEdgeLine(numbers, es[|es| - 1])]
  }

  lemma {:induction false} TextEdgeLinesAppend(numbers: map<string, nat>, a: seq<Edge>, b: seq<Edge>)
    ensures TextEdgeLines(numbers, a + b) == TextEdgeLines(numbers, a) + TextEdgeLines(numbers, b)
    decreases |b|
  {
    if b == [] {
      assert a + b == a;
    } else {
      assert (a + b)[..|a + b| - 1] == a + b[..|b| - 1];
      TextEdgeLinesAppend(numbers, a, b[..|b| - 1]);
    }
  }

  lemma {:induction false} GvEdgeLinesAppend(numbers: map<string, nat>, a: seq<Edge>, b: seq<Edge>)
    ensures GvEdgeLines(numbers, a + b) == GvEdgeLines(numbers, a) + GvEdgeLines(numbers, b)
    decreases |b|
  {
    if b == [] {
      assert a + b == a;
    } else {
      assert (a + b)[..|a + b| - 1] == a + b[..|b| - 1];
      GvEdgeLinesAppend(numbers, a, b[..|b| - 1]);
    }
  }

  /** Edges added after others extend the graph after what the others added. */
  lemma OrientAfter(flip: bool, es: seq<Edge>, more: seq<Edge>, graph: seq<GraphEdge>)
    ensures graph + OrientAll(es, flip) + OrientAll(more, flip) == graph + OrientAll(es + more, flip)
  {
    OrientAllAppend(es, more, flip);
  }

  /** Edges added after others extend the text dump after the lines of the others. */
  lemma TextLinesAfter(numbers: map<string, nat>, es: seq<Edge>, more: seq<Edge>, text: seq<string>)
    ensures text + TextEdgeLines(numbers, es) + TextEdgeLines(numbers, more) == text + TextEdgeLines(numbers, es + more)
  {
    TextEdgeLinesAppend(numbers, es, more);
  }

  /** Edges added after others extend the Graphviz dump after the lines of the others. */
  lemma GvLinesAfter(numbers: map<string, nat>, es: seq<Edge>, more: seq<Edge>, gv: seq<string>)
    ensures gv + GvEdgeLines(numbers, es) + GvEdgeLines(numbers, more) == gv + GvEdgeLines(numbers, es + more)
  {
    GvEdgeLinesAppend(numbers, es, more);
  }

  /** One more file of a group: its edges extend the graph after those of the files before it. */
  lemma GroupEdgesStep(env: Env, flip: bool, group: seq<string>, j: nat, graph: seq<GraphEdge>)
    requires j < |group|
    ensures graph + OrientAll(PathsEdges(env, group[..j]), flip) + OrientAll(FileEdges(env, group[j]), flip)
         == graph + OrientAll(PathsEdges(env, group[..j + 1]), flip)
  {
    assert group[..j + 1] == group[..j] + [group[j]];
    PathsEdgesSnoc(env, group[..j], group[j]);
    OrientAfter(flip, PathsEdges(env, group[..j]), FileEdges(env, group[j]), graph);
  }

  /** One more file of a group: its edge lines extend the text dump after those of the files before it. */
  lemma GroupTextStep(env: Env, numbers: map<string, nat>, group: seq<string>, j: nat, text: seq<string>)
    requires j < |group|
    ensures text + TextEdgeLines(numbers, PathsEdges(env, group[..j])) + TextEdgeLines(numbers, FileEdges(env, group[j]))
         == text + TextEdgeLines(numbers, PathsEdges(env, group[..j + 1]))
  {
    assert group[..j + 1] == group[..j] + [group[j]];
    PathsEdgesSnoc(env, group[..j], group[j]);
    TextLinesAfter(numbers, PathsEdges(env, group[..j]), FileEdges(env, group[j]), text);
  }

  /** One more file of a group: its edge lines extend the Graphviz dump after those of the files before it. */
  lemma GroupGvStep(env: Env, numbers: map<string, nat>, group: seq<string>, j: nat, gv: seq<string>)
    requires j < |group|
    ensures gv + GvEdgeLines(numbers, PathsEdges(env, group[..j])) + GvEdgeLines(numbers, FileEdges(env, group[j]))
         == gv + GvEdgeLines(numbers, PathsEdges(env, group[..j + 1]))
  {
    assert group[..j + 1] == group[..j] + [group[j]];
    PathsEdgesSnoc(env, group[..j], group[j]);
    GvLinesAfter(numbers, PathsEdges(env, group[..j]), FileEdges(env, group[j]), gv);
  }

  /** One more file of a group: its unresolved tokens are recorded after those of the files before it. */
  lemma GroupUnresolvedStep(env: Env, u: map<string, set<string>>, group: seq<string>, j: nat)
    requires j < |group|
    ensures Unresolved(env, PathsUnresolved(env, u, group[..j]), group[j], env.tokens(group[j]))
         == PathsUnresolved(env, u, group[..j + 1])
  {
    assert group[..j + 1][..j] == group[..j];
  }

  lemma {:induction false} TextEdgeLinesElementwise(numbers: map<string, nat>, es: seq<Edge>)
    ensures forall k :: 0 <= k < |es| ==> TextEdgeLines(numbers, es)[k] == TextEdgeLine(numbers, es[k])
  {
    if es != [] {
      TextEdgeLinesElementwise(numbers, es[..|es| - 1]);
    }
  }

  /** The numbers of the files of a cluster, in order. */
  function Members(numbers: map<string, nat>, group: seq<string>): (r: seq<nat>)
    ensures |r| == |group|
  {
    if group == [] then [] else Members(numbers, group[..|group| - 1]) + [Number(numbers, group[|group| - 1])]
  }

  lemma MembersStep(numbers: map<string, nat>, group: seq<string>, j: nat)
    requires j < |group|
    ensures Members(numbers, group[..j]) + [Number(numbers, group[j])] == Members(numbers, group[..j + 1])
  {
    assert group[..j + 1][..j] == group[..j];
  }

  function MemberLines(members: seq<nat>): (r: seq<string>)
    ensures |r| == |members|
  {
    if members == [] then [] else MemberLines(members[..|members| - 1]) + ["\t\t" + NatToString(members[|members| - 1]) + ";\n"]
  }

  /** The Graphviz block of one cluster: its opening line, its label, one line per member, its closing line. */
  function ClusterLines(counter: nat, name: string, members: seq<nat>, labelCluster: bool): seq<string>
  {
    ["\tsubgraph cluster_" + NatToString(counter) + " {\n"]
    + (if labelCluster then ["\t\tlabel = \"" + name + "\";\n"] else [])
    + MemberLines(members)
    + ["\t}\n"]
  }

  /** The cluster block written line by line after `prefix` is `prefix` followed by the whole block. */
  lemma ClusterLinesAfter(prefix: seq<string>, counter: nat, name: string, members: seq<nat>, labelCluster: bool)
    ensures prefix + ["\tsubgraph cluster_" + NatToString(counter) + " {\n"]
            + (if labelCluster then ["\t\tlabel = \"" + name + "\";\n"] else [])
            + MemberLines(members) + ["\t}\n"]
         == prefix + ClusterLines(counter, name, members, labelCluster)
  {
  }

  /** How the Graphviz dump is laid out: whether it is written, and whether and how clusters are drawn. */
  datatype GvStyle = GvStyle(gv: bool, createCluster: bool, labelCluster: bool)

  /** The Graphviz lines written for one directory: its edge lines, then its cluster block. */
  function FolderGvLines(env: Env, style: GvStyle, numbers: map<string, nat>, counter: nat, name: string,
                         group: seq<string>): seq<string>
  {
    (if style.gv then GvEdgeLines(numbers, PathsEdges(env, group)) else [])
    + (if style.createCluster && style.gv then ClusterLines(counter, name, Members(numbers, group), style.labelCluster) else [])
  }

  /** A directory's edge lines followed by its cluster block, written after `prefix`, are `prefix` followed by its lines. */
  lemma FolderGvLinesAfter(prefix: seq<string>, env: Env, style: GvStyle, numbers: map<string, nat>, counter: nat,
                           name: string, group: seq<string>)
    ensures prefix + (if style.gv then GvEdgeLines(numbers, PathsEdges(env, group)) else [])
            + (if style.createCluster && style.gv then ClusterLines(counter, name, Members(numbers, group), style.labelCluster) else [])
         == prefix + FolderGvLines(env, style, numbers, counter, name, group)
  {
    var edgeLines := if style.gv then GvEdgeLines(numbers, PathsEdges(env, group)) else [];
    var cluster := if style.createCluster && style.gv then ClusterLines(counter, name, Members(numbers, group), style.labelCluster) else [];
    assert FolderGvLines(env, style, numbers, counter, name, group) == edgeLines + cluster;
    AppendAfter(prefix, edgeLines, cluster);
  }

  /** Lines written after `prefix`, then more lines, are `prefix` followed by both. */
  lemma AppendAfter(prefix: seq<string>, a: seq<string>, b: seq<string>)
    ensures prefix + a + b == prefix + (a + b)
  {
  }

  /** The cluster number only matters for a directory's Graphviz lines when clusters are drawn. */
  lemma FolderGvLinesCounter(env: Env, style: GvStyle, numbers: map<string, nat>, c1: nat, c2: nat, name: string,
                             group: seq<string>)
    requires style.createCluster && style.gv ==> c1 == c2
    ensures FolderGvLines(env, style, numbers, c1, name, group) == FolderGvLines(env, style, numbers, c2, name, group)
  {
  }

  /** The Graphviz lines of the first `i + 1` directories are those of the first `i`, then those of directory `i`. */
  lemma FoldersGvLinesSnoc(env: Env, style: GvStyle, numbers: map<string, nat>, files: seq<string>, folders: seq<string>,
                           i: nat, prefix: string)
    requires i < |folders|
    ensures FoldersGvLines(env, style, numbers, files, folders[..i + 1], prefix)
         == FoldersGvLines(env, style, numbers, files, folders[..i], prefix)
            + FolderGvLines(env, style, numbers, i, ClusterName(folders[i], prefix), FilesIn(files, folders[i]))
  {
    var fs := folders[..i + 1];
    assert fs[..i] == folders[..i] && fs[i] == folders[i];
  }

  /** The Graphviz lines written for the directories `folders`, the `i`-th one as cluster number `i`. */
  function FoldersGvLines(env: Env, style: GvStyle, numbers: map<string, nat>, files: seq<string>,
                          folders: seq<string>, prefix: string): seq<string>
  {
    if folders == [] then []
    else
      var n := |folders| - 1;
      FoldersGvLines(env, style, numbers, files, folders[..n], prefix)
      + FolderGvLines(env, style, numbers, n, ClusterName(folders[n], prefix), FilesIn(files, folders[n]))
  }

  /** One more directory visited: its files' edges extend the graph after those of the directories before it. */
  lemma FolderEdgesStep(env: Env, flip: bool, folders: seq<string>, files: seq<string>, i: nat, graph: seq<GraphEdge>)
    requires i < |folders|
    ensures graph + OrientAll(PathsEdges(env, GroupedOrder(folders[..i], files)), flip)
            + OrientAll(PathsEdges(env, FilesIn(files, folders[i])), flip)
         == graph + OrientAll(PathsEdges(env, GroupedOrder(folders[..i + 1], files)), flip)
  {
    var visited := GroupedOrder(folders[..i], files);
    var group := FilesIn(files, folders[i]);
    assert folders[..i + 1] == folders[..i] + [folders[i]];
    GroupedOrderAppendKey(folders[..i], folders[i], files);
    PathsEdgesAppend(env, visited, group);
    OrientAfter(flip, PathsEdges(env, visited), PathsEdges(env, group), graph);
  }

  /** One more directory visited: its files' unresolved tokens are recorded after those of the directories before it. */
  lemma FolderUnresolvedStep(env: Env, u: map<string, set<string>>, folders: seq<string>, files: seq<string>, i: nat)
    requires i < |folders|
    ensures PathsUnresolved(env, PathsUnresolved(env, u, GroupedOrder(folders[..i], files)), FilesIn(files, folders[i]))
         == PathsUnresolved(env, u, GroupedOrder(folders[..i + 1], files))
  {
    assert folders[..i + 1] == folders[..i] + [folders[i]];
    GroupedOrderAppendKey(folders[..i], folders[i], files);
    PathsUnresolvedAppend(env, u, GroupedOrder(folders[..i], files), FilesIn(files, folders[i]));
  }

  /** One more directory visited: its files' edge lines extend the text dump after those of the directories before it. */
  lemma FolderTextStep(env: Env, numbers: map<string, nat>, folders: seq<string>, files: seq<string>, i: nat,
                       text: seq<string>)
    requires i < |folders|
    ensures text + TextEdgeLines(numbers, PathsEdges(env, GroupedOrder(folders[..i], files)))
            + TextEdgeLines(numbers, PathsEdges(env, FilesIn(files, folders[i])))
         == text + TextEdgeLines(numbers, PathsEdges(env, GroupedOrder(folders[..i + 1], files)))
  {
    var visited := GroupedOrder(folders[..i], files);
    var group := FilesIn(files, folders[i]);
    assert folders[..i + 1] == folders[..i] + [folders[i]];
    GroupedOrderAppendKey(folders[..i], folders[i], files);
    PathsEdgesAppend(env, visited, group);
    TextLinesAfter(numbers, PathsEdges(env, visited), PathsEdges(env, group), text);
  }

  /**
   * One more directory visited: its Graphviz lines follow those of the directories before it;
   * its cluster number is its position, which only matters when clusters are drawn.
   */
  lemma FolderGvStep(env: Env, style: GvStyle, numbers: map<string, nat>, files: seq<string>, folders: seq<string>,
                     i: nat, prefix: string, counter: nat, gv: seq<string>)
    requires i < |folders|
    requires style.createCluster && style.gv ==> counter == i
    ensures gv + FoldersGvLines(env, style, numbers, files, folders[..i], prefix)
            + FolderGvLines(env, style, numbers, counter, ClusterName(folders[i], prefix), FilesIn(files, folders[i]))
         == gv + FoldersGvLines(env, style, numbers, files, folders[..i + 1], prefix)
  {
    var group := FilesIn(files, folders[i]);
    var name := ClusterName(folders[i], prefix);
    FoldersGvLinesSnoc(env, style, numbers, files, folders, i, prefix);
    FolderGvLinesCounter(env, style, numbers, counter, i, name, group);
    AppendAfter(gv, FoldersGvLines(env, style, numbers, files, folders[..i], prefix),
                FolderGvLines(env, style, numbers, i, name, group));
  }

  function Header(nodes: nat, edges: nat): string
  {
    "Nodes count: " + NatToString(nodes) + " Edges count: " + NatToString(edges) + "\n"
  }

  /** The count header is read back unambiguously: the node and edge counts it shows are the ones written. */
  lemma HeaderInjective(nodes: nat, edges: nat, nodes': nat, edges': nat)
    requires Header(nodes, edges) == Header(nodes', edges')
    ensures nodes == nodes' && edges == edges'
  {
    NatToStringDigits(nodes);
    NatToStringDigits(edges);
    NatToStringDigits(nodes');
    NatToStringDigits(edges');
    CountsLineInjective(NatToString(nodes), NatToString(edges), NatToString(nodes'), NatToString(edges'));
    NatToStringInjective(nodes, nodes');
    NatToStringInjective(edges, edges');
  }

  /** The line of counts, for any digit strings, shows which digits were written. */
  lemma CountsLineInjective(n: string, e: string, n': string, e': string)
    requires AllDigits(n) && AllDigits(e) && AllDigits(n') && AllDigits(e')
    requires "Nodes count: " + n + " Edges count: " + e + "\n" == "Nodes count: " + n' + " Edges count: " + e' + "\n"
    ensures n == n' && e == e'
  {
    var rest, rest' := " Edges count: " + (e + "\n"), " Edges count: " + (e' + "\n");
    assert "Nodes count: " + n + " Edges count: " + e + "\n" == "Nodes count: " + (n + rest);
    assert "Nodes count: " + n' + " Edges count: " + e' + "\n" == "Nodes count: " + (n' + rest');
    PrefixCancel("Nodes count: ", n + rest, n' + rest');
    DigitsThenOther(n, rest, n', rest');
    PrefixCancel(" Edges count: ", e + "\n", e' + "\n");
    DigitsThenOther(e, "\n", e', "\n");
  }

  function GvOpening(name: string): string
  {
    "digraph " + name + " {\n"
  }

  /** The lines of `graph.txt`: the count header is computed from the number of lines, as the program does. */
  function TextDump(files: seq<string>, numbers: map<string, nat>, edges: seq<Edge>, showPath: bool): seq<string>
  {
    var lines := ["", "Nodes:\n"] + TextNodeLines(files, showPath) + ["Edges:\n"] + TextEdgeLines(numbers, edges);
    lines[0 := Header(|files|, |lines| - |files| - 3)]
  }

  function StyleOf(opts: Options): GvStyle
  {
    GvStyle(opts.gv, opts.createCluster, opts.labelCluster)
  }

  /** The lines of `graph.gv`. */
  function GvDump(env: Env, style: GvStyle, files: seq<string>, name: string, showPath: bool): seq<string>
  {
    var folders := DirKeys(files);
    [GvOpening(name)] + GvNodeLines(files, showPath)
    + FoldersGvLines(env, style, Numbering(files), files, folders, CommonPrefix(folders)) + ["}"]
  }

  /** What a run leaves behind: the graph's edges, the unresolved includes and the two dumps (empty when not written). */
  datatype Output = Output(
    graphEdges: seq<GraphEdge>,
    unresolved: map<string, set<string>>,
    textLines: seq<string>,
    gvLines: seq<string>)

  /** The files in the order the graph loop visits them: directory by directory. */
  function Visited(files: seq<string>): seq<string>
  {
    GroupedOrder(DirKeys(files), files)
  }

  /** The include edges of a run over `files`, in the order they are added. */
  function Edges(files: seq<string>, includeDirs: string, fs: FileSystem): seq<Edge>
  {
    PathsEdges(EnvOf(files, includeDirs, fs), Visited(files))
  }

  /** The unresolved includes of a run over `files`, by directory. */
  function UnresolvedOf(files: seq<string>, includeDirs: string, fs: FileSystem): map<string, set<string>>
  {
    PathsUnresolved(EnvOf(files, includeDirs, fs), map[], Visited(files))
  }

  /** The run of `create_graph` once `files` are discovered and the graph is named `name`. */
  function Build(files: seq<string>, name: string, opts: Options, fs: FileSystem): (r: Output)
    ensures |r.graphEdges| == |Edges(files, opts.includeDirs, fs)|
    ensures r.textLines != [] <==> opts.text
    ensures r.gvLines != [] <==> opts.gv
  {
    OrientAllElementwise(Edges(files, opts.includeDirs, fs), opts.flip);
    var edges := Edges(files, opts.includeDirs, fs);
    Output(
      OrientAll(edges, opts.flip),
      UnresolvedOf(files, opts.includeDirs, fs),
      if opts.text then TextDump(files, Numbering(files), edges, opts.showPath) else [],
      if opts.gv then GvDump(EnvOf(files, opts.includeDirs, fs), StyleOf(opts), files, name, opts.showPath) else [])
  }

  /** The roots named by `folder`: a comma-separated list of directories. */
  function Roots(folder: string): seq<string>
  {
    if ',' in folder then Split(folder, ',') else [folder]
  }

  /** The node names of `paths`, in order. */
  function Stems(paths: seq<string>): (r: seq<string>)
    ensures |r| == |paths|
  {
    if paths == [] then [] else Stems(paths[..|paths| - 1]) + [Normalize(paths[|paths| - 1])]
  }

  /** `n_folder`: the node names of the roots joined with "__". */
  function GraphName(folder: string): string
  {
    if ',' in folder then Join(Stems(Split(folder, ',')), "__") else Normalize(folder)
  }

  /** The files of the roots, one root after the other, or the first root that cannot be listed. */
  function Discover(roots: seq<string>, fs: FileSystem, ignoreTests: bool): Result<seq<string>, string>
  {
    if roots == [] then Success([])
    else
      match Discover(roots[..|roots| - 1], fs, ignoreTests)
      case Failure(e) => Failure(e)
      case Success(files) =>
        var root := roots[|roots| - 1];
        match fs.scan(root)
        case None => Failure(root)
        case Some(es) => Success(files + Listed(root, es, ignoreTests, true))
  }

  /** `create_graph(folder, ...)`: it fails on the first root that cannot be listed. */
  function CreateGraphSpec(folder: string, opts: Options, fs: FileSystem): (r: Result<Output, string>)
    ensures r.Success? <==> forall k :: 0 <= k < |Roots(folder)| ==> fs.scan(Roots(folder)[k]).Some?
    ensures r.Failure? ==> r.error in Roots(folder) && fs.scan(r.error).None?
    ensures r.Success? ==> Discover(Roots(folder), fs, opts.ignoreTests).Success?
                           && r.value == Build(Discover(Roots(folder), fs, opts.ignoreTests).value, GraphName(folder), opts, fs)
  {
    DiscoverFailsAtFirstUnlistable(Roots(folder), fs, opts.ignoreTests);
    match Discover(Roots(folder), fs, opts.ignoreTests)
    case Failure(e) => Failure(e)
    case Success(files) => Success(Build(files, GraphName(folder), opts, fs))
  }

  /** Once a prefix of the roots fails, the whole discovery fails the same way. */
  lemma {:induction false} DiscoverStopsAtFailure(roots: seq<string>, i: nat, fs: FileSystem, ignoreTests: bool)
    requires i <= |roots| && Discover(roots[..i], fs, ignoreTests).Failure?
    ensures Discover(roots, fs, ignoreTests) == Discover(roots[..i], fs, ignoreTests)
    decreases |roots| - i
  {
    if i < |roots| {
      assert roots[..i + 1][..i] == roots[..i];
      DiscoverStopsAtFailure(roots, i + 1, fs, ignoreTests);
    } else {
      assert roots[..i] == roots;
    }
  }

  /**
   * Discovery succeeds exactly when every root can be listed; otherwise it reports the first
   * root that cannot.
   */
  lemma {:induction false} DiscoverFailsAtFirstUnlistable(roots: seq<string>, fs: FileSystem, ignoreTests: bool)
    ensures Discover(roots, fs, ignoreTests).Success? <==> forall k :: 0 <= k < |roots| ==> fs.scan(roots[k]).Some?
    ensures Discover(roots, fs, ignoreTests).Failure? ==>
              exists k :: 0 <= k < |roots| && roots[k] == Discover(roots, fs, ignoreTests).error
                          && fs.scan(roots[k]).None? && forall j :: 0 <= j < k ==> fs.scan(roots[j]).Some?
  {
    if roots != [] {
      var n := |roots| - 1;
      var prefix := roots[..n];
      DiscoverFailsAtFirstUnlistable(prefix, fs, ignoreTests);
      assert forall k :: 0 <= k < n ==> prefix[k] == roots[k];
      var before := Discover(prefix, fs, ignoreTests);
      if before.Failure? {
        assert Discover(roots, fs, ignoreTests) == before;
        var k :| 0 <= k < n && prefix[k] == before.error && fs.scan(prefix[k]).None?
                 && forall j :: 0 <= j < k ==> fs.scan(prefix[j]).Some?;
        assert roots[k] == prefix[k];
      } else if fs.scan(roots[n]).None? {
        assert Discover(roots, fs, ignoreTests) == Failure(roots[n]);
      }
    }
  }

  /** A single root is discovered by listing it, and fails exactly when it cannot be listed. */
  lemma DiscoverOneRoot(root: string, fs: FileSystem, ignoreTests: bool)
    ensures Discover([root], fs, ignoreTests)
         == match fs.scan(root)
            case None => Failure(root)
            case Some(es) => Success(Listed(root, es, ignoreTests, true))
  {
    assert [root][..0] == [];
    if fs.scan(root).Some? {
      var listed := Listed(root, fs.scan(root).value, ignoreTests, true);
      assert [] + listed == listed;
    }
  }

  /** A folder without a comma is one root, and both ways of naming the graph agree on it. */
  lemma SingleRootAgrees(folder: string)
    requires ',' !in folder
    ensures Split(folder, ',') == [folder]
    ensures Join(Stems(Split(folder, ',')), "__") == Normalize(folder)
  {
    assert Find(folder, ',') < 0;
  }

  /** The graph loop visits every discovered file and nothing else. */
  lemma VisitedAreTheFiles(files: seq<string>)
    ensures forall p :: p in Visited(files) <==> p in files
  {
    GroupingIsPermutation(files);
    assert forall p :: p in Visited(files) <==> p in multiset(Visited(files));
  }

  /**
   * The edges of a run are exactly the includes between two different discovered files: the
   * includer's token resolves to the other file, and the edge has the includer's colour.
   */
  lemma EdgesIff(files: seq<string>, includeDirs: string, fs: FileSystem, e: Edge)
    ensures e in Edges(files, includeDirs, fs) <==>
              && e.includer in files
              && e.included in files
              && e.included != e.includer
              && e.color == EdgeColor(e.includer)
              && exists tok :: tok in FindNeighbors(fs.read(e.includer))
                               && Resolve(e.includer, tok, includeDirs, fs.pathExists, fs.normpath) == Some(e.included)
  {
    var env := EnvOf(files, includeDirs, fs);
    PathsEdgesIff(env, Visited(files));
    VisitedAreTheFiles(files);
  }

  /** Every end of an edge has a number in `1..|files|` that names that very file. */
  lemma EdgeEndsAreNumbered(files: seq<string>, includeDirs: string, fs: FileSystem, e: Edge)
    requires e in Edges(files, includeDirs, fs)
    ensures 1 <= Number(Numbering(files), e.includer) <= |files|
    ensures files[Number(Numbering(files), e.includer) - 1] == e.includer
    ensures 1 <= Number(Numbering(files), e.included) <= |files|
    ensures files[Number(Numbering(files), e.included) - 1] == e.included
  {
    EdgeEndsInFiles(files, includeDirs, fs, e);
    BothNumbered(files, e.includer, e.included);
  }

  lemma EdgeEndsInFiles(files: seq<string>, includeDirs: string, fs: FileSystem, e: Edge)
    requires e in Edges(files, includeDirs, fs)
    ensures e.includer in files && e.included in files
  {
    var env := EnvOf(files, includeDirs, fs);
    assert env.nodes == set f | f in files;
    EdgeEndsAreFiles(files, env, e);
  }

  lemma BothNumbered(files: seq<string>, a: string, b: string)
    requires a in files && b in files
    ensures 1 <= Number(Numbering(files), a) <= |files| && files[Number(Numbering(files), a) - 1] == a
    ensures 1 <= Number(Numbering(files), b) <= |files| && files[Number(Numbering(files), b) - 1] == b
  {
    FileIsNumbered(files, a);
    FileIsNumbered(files, b);
  }

  /** A discovered file's number lies in `1..|files|` and names that file. */
  lemma FileIsNumbered(files: seq<string>, f: string)
    requires f in files
    ensures 1 <= Number(Numbering(files), f) <= |files| && files[Number(Numbering(files), f) - 1] == f
  {
    NumberingIsLastPosition(files);
  }

  lemma EdgeEndsAreFiles(files: seq<string>, env: Env, e: Edge)
    requires env.nodes == set f | f in files
    requires e in PathsEdges(env, Visited(files))
    ensures e.includer in files && e.included in files
  {
    PathsEdgesIff(env, Visited(files));
    VisitedAreTheFiles(files);
  }

  lemma UnresolvedOfIff(files: seq<string>, env: Env)
    ensures NoEmptyEntry(PathsUnresolved(env, map[], Visited(files)))
    ensures forall d, t :: Holds(PathsUnresolved(env, map[], Visited(files)), d, t) <==>
              exists p :: p in files && Dirname(p) == d && t in env.tokens(p) && env.resolve(p, t).None?
  {
    PathsUnresolvedIff(env, map[], Visited(files));
    VisitedAreTheFiles(files);
  }

  /**
   * A token is reported unresolved under directory `d` exactly when a discovered file of `d`
   * includes it and it exists under none of the candidate directories; no directory is
   * reported without a token.
   */
  lemma UnresolvedIffNowhere(files: seq<string>, includeDirs: string, fs: FileSystem, d: string, t: string)
    ensures NoEmptyEntry(UnresolvedOf(files, includeDirs, fs))
    ensures Holds(UnresolvedOf(files, includeDirs, fs), d, t) <==>
              exists p :: p in files && Dirname(p) == d && t in FindNeighbors(fs.read(p))
                          && Resolve(p, t, includeDirs, fs.pathExists, fs.normpath).None?
  {
    var env := EnvOf(files, includeDirs, fs);
    UnresolvedOfIff(files, env);
    assert forall p :: env.tokens(p) == FindNeighbors(fs.read(p));
    assert forall p :: env.resolve(p, t) == Resolve(p, t, includeDirs, fs.pathExists, fs.normpath);
  }

  /** Flipping turns every graph edge around and changes nothing else: the dumps always read includer first. */
  lemma FlipOnlyTurnsGraphEdges(files: seq<string>, name: string, opts: Options, fs: FileSystem)
    ensures var plain := Build(files, name, opts.(flip := false), fs);
            var flipped := Build(files, name, opts.(flip := true), fs);
            && flipped.unresolved == plain.unresolved
            && flipped.textLines == plain.textLines
            && flipped.gvLines == plain.gvLines
            && |flipped.graphEdges| == |plain.graphEdges|
            && forall i :: 0 <= i < |plain.graphEdges| ==>
                 flipped.graphEdges[i] == GraphEdge(plain.graphEdges[i].head, plain.graphEdges[i].tail, plain.graphEdges[i].color)
  {
    var edges := Edges(files, opts.includeDirs, fs);
    OrientAllElementwise(edges, false);
    OrientAllElementwise(edges, true);
  }

  lemma TextDumpLayout(files: seq<string>, numbers: map<string, nat>, edges: seq<Edge>, showPath: bool)
    ensures var t := TextDump(files, numbers, edges, showPath);
            && |t| == |files| + |edges| + 3
            && t[0] == Header(|files|, |edges|)
            && t[1] == "Nodes:\n"
            && (forall i :: 0 <= i < |files| ==> t[2 + i] == TextNodeLine(i + 1, Label(files[i], showPath)))
            && t[|files| + 2] == "Edges:\n"
            && forall k :: 0 <= k < |edges| ==> t[|files| + 3 + k] == TextEdgeLine(numbers, edges[k])
  {
    TextDumpHeadings(files, numbers, edges, showPath);
    TextDumpNodes(files, numbers, edges, showPath);
    TextDumpEdges(files, numbers, edges, showPath);
  }

  /** The node lines of the text dump, one per file in order, right after the "Nodes:" heading. */
  lemma TextDumpNodes(files: seq<string>, numbers: map<string, nat>, edges: seq<Edge>, showPath: bool)
    ensures var t := TextDump(files, numbers, edges, showPath);
            forall i :: 0 <= i < |files| ==> 2 + i < |t| && t[2 + i] == TextNodeLine(i + 1, Label(files[i], showPath))
  {
    TextDumpIs(files, numbers, edges, showPath);
    DumpNodes(TextDump(files, numbers, edges, showPath), TextNodeLines(files, showPath), TextEdgeLines(numbers, edges), Header(|files|, |edges|));
    TextNodeLinesElementwise(files, showPath);
  }

  /** The count header, the node heading and the edge heading of the text dump. */
  lemma TextDumpHeadings(files: seq<string>, numbers: map<string, nat>, edges: seq<Edge>, showPath: bool)
    ensures var t := TextDump(files, numbers, edges, showPath);
            && |t| == |files| + |edges| + 3
            && t[0] == Header(|files|, |edges|)
            && t[1] == "Nodes:\n"
            && t[|files| + 2] == "Edges:\n"
  {
    TextDumpIs(files, numbers, edges, showPath);
    DumpLayout(TextNodeLines(files, showPath), TextEdgeLines(numbers, edges), Header(|files|, |edges|));
  }

  /** The edge lines of the text dump, one per edge in order, after the headings and the node lines. */
  lemma TextDumpEdges(files: seq<string>, numbers: map<string, nat>, edges: seq<Edge>, showPath: bool)
    ensures var t := TextDump(files, numbers, edges, showPath);
            forall k :: 0 <= k < |edges| ==> |files| + 3 + k < |t| && t[|files| + 3 + k] == TextEdgeLine(numbers, edges[k])
  {
    var edgeLines := TextEdgeLines(numbers, edges);
    TextDumpIs(files, numbers, edges, showPath);
    DumpEdges(TextDump(files, numbers, edges, showPath), TextNodeLines(files, showPath), edgeLines, Header(|files|, |edges|));
    TextEdgeLinesElementwise(numbers, edges);
  }

  /** The text dump with its header filled in: the edge count is the number of edge lines. */
  lemma TextDumpIs(files: seq<string>, numbers: map<string, nat>, edges: seq<Edge>, showPath: bool)
    ensures TextDump(files, numbers, edges, showPath)
         == (["", "Nodes:\n"] + TextNodeLines(files, showPath) + ["Edges:\n"] + TextEdgeLines(numbers, edges))[0 := Header(|files|, |edges|)]
  {
    var lines := ["", "Nodes:\n"] + TextNodeLines(files, showPath) + ["Edges:\n"] + TextEdgeLines(numbers, edges);
    assert |lines| - |files| - 3 == |edges|;
  }

  /** Where the headings sit in a text dump whose first line is `header`. */
  lemma DumpLayout(nodeLines: seq<string>, edgeLines: seq<string>, header: string)
    ensures var t := (["", "Nodes:\n"] + nodeLines + ["Edges:\n"] + edgeLines)[0 := header];
            && |t| == |nodeLines| + |edgeLines| + 3
            && t[0] == header
            && t[1] == "Nodes:\n"
            && t[|nodeLines| + 2] == "Edges:\n"
  {
  }

  /** The node lines of a text dump whose first line is `header` sit right after the first two lines. */
  lemma DumpNodes(t: seq<string>, nodeLines: seq<string>, edgeLines: seq<string>, header: string)
    requires t == (["", "Nodes:\n"] + nodeLines + ["Edges:\n"] + edgeLines)[0 := header]
    ensures forall i :: 0 <= i < |nodeLines| ==> 2 + i < |t| && t[2 + i] == nodeLines[i]
  {
    var lines := ["", "Nodes:\n"] + nodeLines + ["Edges:\n"] + edgeLines;
    forall i | 0 <= i < |nodeLines|
      ensures 2 + i < |t| && t[2 + i] == nodeLines[i]
    {
      assert lines[2 + i] == nodeLines[i];
    }
  }

  /** The edge lines of a text dump whose first line is `header` sit after the headings and the node lines. */
  lemma DumpEdges(t: seq<string>, nodeLines: seq<string>, edgeLines: seq<string>, header: string)
    requires t == (["", "Nodes:\n"] + nodeLines + ["Edges:\n"] + edgeLines)[0 := header]
    ensures forall k :: 0 <= k < |edgeLines| ==> |nodeLines| + 3 + k < |t| && t[|nodeLines| + 3 + k] == edgeLines[k]
  {
    var lines := ["", "Nodes:\n"] + nodeLines + ["Edges:\n"] + edgeLines;
    forall k | 0 <= k < |edgeLines|
      ensures |nodeLines| + 3 + k < |t| && t[|nodeLines| + 3 + k] == edgeLines[k]
    {
      assert lines[|nodeLines| + 3 + k] == edgeLines[k];
    }
  }

  /**
   * Reading the counts back from the first line of the text dump gives exactly the number
   * of files and the number of edges of the run.
   */
  lemma HeaderRecoversCounts(files: seq<string>, name: string, opts: Options, fs: FileSystem, nodes: nat, edges: nat)
    requires opts.text
    ensures |Build(files, name, opts, fs).textLines| >= 3
    ensures Build(files, name, opts, fs).textLines[0] == Header(nodes, edges)
        <==> nodes == |files| && edges == |Edges(files, opts.includeDirs, fs)|
  {
    TextDumpShape(files, name, opts, fs);
    OrientAllElementwise(Edges(files, opts.includeDirs, fs), opts.flip);
    if Build(files, name, opts, fs).textLines[0] == Header(nodes, edges) {
      HeaderInjective(nodes, edges, |files|, |Edges(files, opts.includeDirs, fs)|);
    }
  }

  /**
   * The text dump is the count header, the node lines and the edge lines: the edge count in
   * the header is the number of edges, and the last lines are the edges in the order they are added.
   */
  lemma TextDumpShape(files: seq<string>, name: string, opts: Options, fs: FileSystem)
    requires opts.text
    ensures var t := Build(files, name, opts, fs).textLines;
            var edges := Edges(files, opts.includeDirs, fs);
            && |t| == |files| + |edges| + 3
            && t[0] == Header(|files|, |Build(files, name, opts, fs).graphEdges|)
            && t[1] == "Nodes:\n"
            && (forall i :: 0 <= i < |files| ==> t[2 + i] == TextNodeLine(i + 1, Label(files[i], opts.showPath)))
            && t[|files| + 2] == "Edges:\n"
            && forall k :: 0 <= k < |edges| ==> t[|files| + 3 + k] == TextEdgeLine(Numbering(files), edges[k])
  {
    var edges := Edges(files, opts.includeDirs, fs);
    OrientAllElementwise(edges, opts.flip);
    TextDumpLayout(files, Numbering(files), edges, opts.showPath);
  }

  /** The Graphviz lines of the directories, without clusters, are the edge lines of the files visited so far. */
  lemma {:induction false} FoldersGvLinesWithoutClusters(env: Env, style: GvStyle, numbers: map<string, nat>,
                                                         files: seq<string>, folders: seq<string>, prefix: string)
    requires style.gv && !style.createCluster
    ensures FoldersGvLines(env, style, numbers, files, folders, prefix)
         == GvEdgeLines(numbers, PathsEdges(env, GroupedOrder(folders, files)))
  {
    if folders != [] {
      var n := |folders| - 1;
      var init := folders[..n];
      var group := FilesIn(files, folders[n]);
      var visited := GroupedOrder(init, files);
      FoldersGvLinesWithoutClusters(env, style, numbers, files, init, prefix);
      LastFolderWithoutCluster(env, style, numbers, files, folders, prefix);
      GroupedOrderLastKey(folders, files);
      PathsEdgesAppend(env, visited, group);
      GvEdgeLinesAppend(numbers, PathsEdges(env, visited), PathsEdges(env, group));
      LinesRegroup(FoldersGvLines(env, style, numbers, files, folders, prefix), FoldersGvLines(env, style, numbers, files, init, prefix),
                   GvEdgeLines(numbers, PathsEdges(env, visited)), GvEdgeLines(numbers, PathsEdges(env, group)),
                   GvEdgeLines(numbers, PathsEdges(env, GroupedOrder(folders, files))));
    }
  }

  /** Without clusters, the last directory adds only its edge lines. */
  lemma LastFolderWithoutCluster(env: Env, style: GvStyle, numbers: map<string, nat>, files: seq<string>,
                                 folders: seq<string>, prefix: string)
    requires style.gv && !style.createCluster && folders != []
    ensures FoldersGvLines(env, style, numbers, files, folders, prefix)
         == FoldersGvLines(env, style, numbers, files, folders[..|folders| - 1], prefix)
            + GvEdgeLines(numbers, PathsEdges(env, FilesIn(files, folders[|folders| - 1])))
  {
  }

  /** The groups of all the directories are those of all but the last, then the last one's. */
  lemma GroupedOrderLastKey(folders: seq<string>, files: seq<string>)
    requires folders != []
    ensures GroupedOrder(folders, files)
         == GroupedOrder(folders[..|folders| - 1], files) + FilesIn(files, folders[|folders| - 1])
  {
    var n := |folders| - 1;
    assert folders == folders[..n] + [folders[n]];
    GroupedOrderAppendKey(folders[..n], folders[n], files);
  }

  /** Lines `y` then `w`, where `y` is `u`, are the lines `u` then `w`. */
  lemma LinesRegroup(x: seq<string>, y: seq<string>, u: seq<string>, w: seq<string>, z: seq<string>)
    requires x == y + w && y == u && z == u + w
    ensures x == z
  {
  }

  /** Without the Graphviz dump, no Graphviz line is written for any directory. */
  lemma {:induction false} FoldersGvLinesSilent(env: Env, style: GvStyle, numbers: map<string, nat>,
                                                files: seq<string>, folders: seq<string>, prefix: string)
    requires !style.gv
    ensures FoldersGvLines(env, style, numbers, files, folders, prefix) == []
  {
    if folders != [] {
      FoldersGvLinesSilent(env, style, numbers, files, folders[..|folders| - 1], prefix);
    }
  }

  /** Without clusters the Graphviz dump is the opening line, the node lines, the edge lines and the closing brace. */
  lemma GvDumpWithoutClusters(files: seq<string>, name: string, opts: Options, fs: FileSystem)
    requires opts.gv && !opts.createCluster
    ensures Build(files, name, opts, fs).gvLines
         == [GvOpening(name)] + GvNodeLines(files, opts.showPath)
            + GvEdgeLines(Numbering(files), Edges(files, opts.includeDirs, fs)) + ["}"]
  {
    var folders := DirKeys(files);
    FoldersGvLinesWithoutClusters(EnvOf(files, opts.includeDirs, fs), StyleOf(opts), Numbering(files), files, folders, CommonPrefix(folders));
  }

  /** A number lies among a group's members exactly when its file is in the group: distinct files get distinct numbers. */
  lemma {:induction false} MembersIff(files: seq<string>, group: seq<string>, f: string)
    requires f in files
    requires forall h :: h in group ==> h in files
    ensures Number(Numbering(files), f) in Members(Numbering(files), group) <==> f in group
  {
    if group != [] {
      var n := |group| - 1;
      var init := group[..n];
      assert group == init + [group[n]];
      MembersIff(files, init, f);
      FileIsNumbered(files, f);
      FileIsNumbered(files, group[n]);
    }
  }

  /** Each file's number is a member of the cluster of its own directory and of no other cluster. */
  lemma FileInOneCluster(files: seq<string>, f: string, d: string)
    requires f in files
    ensures d in DirKeys(files) && Number(Numbering(files), f) in Members(Numbering(files), FilesIn(files, d))
            <==> d == Dirname(f)
  {
    FilesInIsTheGroup(files, d);
    MembersIff(files, FilesIn(files, d), f);
    FileInExactlyOneGroup(files, f, d);
  }

  /** With clusters, a directory's Graphviz lines are its edge lines followed by its cluster block. */
  lemma FolderGvLinesWithCluster(env: Env, style: GvStyle, numbers: map<string, nat>, counter: nat, name: string,
                                 group: seq<string>)
    requires style.gv && style.createCluster
    ensures FolderGvLines(env, style, numbers, counter, name, group)
         == GvEdgeLines(numbers, PathsEdges(env, group)) + ClusterLines(counter, name, Members(numbers, group), style.labelCluster)
  {
  }

  /** Lines `a` followed by `y`, where `y` is `b` followed by a block, end with that block. */
  lemma EndsWithBlock(whole: seq<string>, a: seq<string>, y: seq<string>, b: seq<string>, block: seq<string>)
    requires whole == a + y && y == b + block
    ensures whole == (a + b) + block + []
  {
  }

  /** A block inside some lines is still inside once more lines follow. */
  lemma BlockStaysInside(longer: seq<string>, whole: seq<string>, pre: seq<string>, block: seq<string>, post: seq<string>,
                         more: seq<string>)
    requires longer == whole + more && whole == pre + block + post
    ensures longer == pre + block + (post + more)
  {
  }

  /** With clusters, the Graphviz lines of the first `i + 1` directories end with the block of directory `i`. */
  lemma FoldersGvLinesEndWithBlock(env: Env, style: GvStyle, numbers: map<string, nat>, files: seq<string>,
                                   folders: seq<string>, prefix: string, i: nat)
    returns (pre: seq<string>)
    requires style.gv && style.createCluster
    requires i < |folders|
    ensures FoldersGvLines(env, style, numbers, files, folders[..i + 1], prefix)
         == pre + ClusterLines(i, ClusterName(folders[i], prefix), Members(numbers, FilesIn(files, folders[i])), style.labelCluster)
            + []
  {
    var group := FilesIn(files, folders[i]);
    var name := ClusterName(folders[i], prefix);
    FoldersGvLinesSnoc(env, style, numbers, files, folders, i, prefix);
    FolderGvLinesWithCluster(env, style, numbers, i, name, group);
    var init := FoldersGvLines(env, style, numbers, files, folders[..i], prefix);
    var edgeLines := GvEdgeLines(numbers, PathsEdges(env, group));
    EndsWithBlock(FoldersGvLines(env, style, numbers, files, folders[..i + 1], prefix), init,
                  FolderGvLines(env, style, numbers, i, name, group), edgeLines,
                  ClusterLines(i, name, Members(numbers, group), style.labelCluster));
    pre := init + edgeLines;
  }

  /** A block within the Graphviz lines of the first `k` directories stays there once directory `k` is added. */
  lemma FoldersGvLinesKeepBlock(env: Env, style: GvStyle, numbers: map<string, nat>, files: seq<string>,
                                folders: seq<string>, prefix: string, k: nat, pre: seq<string>, block: seq<string>,
                                post: seq<string>)
    requires k < |folders|
    requires FoldersGvLines(env, style, numbers, files, folders[..k], prefix) == pre + block + post
    ensures FoldersGvLines(env, style, numbers, files, folders[..k + 1], prefix)
         == pre + block + (post + FolderGvLines(env, style, numbers, k, ClusterName(folders[k], prefix), FilesIn(files, folders[k])))
  {
    FoldersGvLinesSnoc(env, style, numbers, files, folders, k, prefix);
    BlockStaysInside(FoldersGvLines(env, style, numbers, files, folders[..k + 1], prefix),
                     FoldersGvLines(env, style, numbers, files, folders[..k], prefix), pre, block, post,
                     FolderGvLines(env, style, numbers, k, ClusterName(folders[k], prefix), FilesIn(files, folders[k])));
  }

  /** With clusters, the block of directory `i` lies within the Graphviz lines of the first `k > i` directories. */
  lemma {:induction false} FoldersGvLinesHoldBlock(env: Env, style: GvStyle, numbers: map<string, nat>, files: seq<string>,
                                                   folders: seq<string>, prefix: string, i: nat, k: nat)
    returns (pre: seq<string>, post: seq<string>)
    requires style.gv && style.createCluster
    requires i < k <= |folders|
    ensures FoldersGvLines(env, style, numbers, files, folders[..k], prefix)
         == pre + ClusterLines(i, ClusterName(folders[i], prefix), Members(numbers, FilesIn(files, folders[i])), style.labelCluster)
            + post
    decreases k
  {
    if k == i + 1 {
      pre := FoldersGvLinesEndWithBlock(env, style, numbers, files, folders, prefix, i);
      post := [];
    } else {
      var block := ClusterLines(i, ClusterName(folders[i], prefix), Members(numbers, FilesIn(files, folders[i])), style.labelCluster);
      var p, q := FoldersGvLinesHoldBlock(env, style, numbers, files, folders, prefix, i, k - 1);
      FoldersGvLinesKeepBlock(env, style, numbers, files, folders, prefix, k - 1, p, block, q);
      pre := p;
      post := q + FolderGvLines(env, style, numbers, k - 1, ClusterName(folders[k - 1], prefix), FilesIn(files, folders[k - 1]));
    }
  }

  /** With clusters, the block of each directory lies within the Graphviz lines of all the directories. */
  lemma FoldersGvLinesHaveBlock(env: Env, style: GvStyle, numbers: map<string, nat>, files: seq<string>,
                                folders: seq<string>, prefix: string, i: nat)
    returns (pre: seq<string>, post: seq<string>)
    requires style.gv && style.createCluster
    requires i < |folders|
    ensures FoldersGvLines(env, style, numbers, files, folders, prefix)
         == pre + ClusterLines(i, ClusterName(folders[i], prefix), Members(numbers, FilesIn(files, folders[i])), style.labelCluster)
            + post
  {
    pre, post := FoldersGvLinesHoldBlock(env, style, numbers, files, folders, prefix, i, |folders|);
    assert folders[..|folders|] == folders;
  }

  /** The Graphviz lines of a run that writes them: the opening line, the node lines, the directories' lines and the closing brace. */
  lemma BuildGvLines(files: seq<string>, name: string, opts: Options, fs: FileSystem)
    requires opts.gv
    ensures Build(files, name, opts, fs).gvLines
         == [GvOpening(name)] + GvNodeLines(files, opts.showPath)
            + FoldersGvLines(EnvOf(files, opts.includeDirs, fs), StyleOf(opts), Numbering(files), files, DirKeys(files),
                             CommonPrefix(DirKeys(files)))
            + ["}"]
  {
  }

  /** A block within the middle part of some lines lies within the whole. */
  lemma BlockWithinMiddle(whole: seq<string>, head: seq<string>, middle: seq<string>, tail: seq<string>,
                          pre: seq<string>, block: seq<string>, post: seq<string>)
    requires whole == head + middle + tail && middle == pre + block + post
    ensures whole == (head + pre) + block + (post + tail)
  {
  }

  /**
   * With clusters, the directory of each file has a block of its own in the Graphviz dump: it is
   * numbered by the directory's position, labelled with the directory's cluster name, and lists
   * the file's number, which no other directory's block lists (FileInOneCluster).
   */
  lemma ClusterBlockOfFile(files: seq<string>, name: string, opts: Options, fs: FileSystem, f: string)
    returns (i: nat, pre: seq<string>, post: seq<string>)
    requires opts.gv && opts.createCluster && f in files
    ensures i < |DirKeys(files)| && DirKeys(files)[i] == Dirname(f)
    ensures Build(files, name, opts, fs).gvLines
         == pre + ClusterLines(i, ClusterName(Dirname(f), CommonPrefix(DirKeys(files))),
                               Members(Numbering(files), FilesIn(files, Dirname(f))), opts.labelCluster)
            + post
    ensures Number(Numbering(files), f) in Members(Numbering(files), FilesIn(files, Dirname(f)))
  {
    var folders := DirKeys(files);
    FileInOneCluster(files, f, Dirname(f));
    i :| 0 <= i < |folders| && folders[i] == Dirname(f);
    var env, style, numbers := EnvOf(files, opts.includeDirs, fs), StyleOf(opts), Numbering(files);
    var p, q := FoldersGvLinesHaveBlock(env, style, numbers, files, folders, CommonPrefix(folders), i);
    BuildGvLines(files, name, opts, fs);
    var head := [GvOpening(name)] + GvNodeLines(files, opts.showPath);
    BlockWithinMiddle(Build(files, name, opts, fs).gvLines, head,
                      FoldersGvLines(env, style, numbers, files, folders, CommonPrefix(folders)), ["}"],
                      p, ClusterLines(i, ClusterName(folders[i], CommonPrefix(folders)), Members(numbers, FilesIn(files, folders[i])), opts.labelCluster),
                      q);
    pre := head + p;
    post := q + ["}"];
  }
}
