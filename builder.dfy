/**
 * `create_graph` as the program runs it: a builder whose fields are the state its loops
 * update (the graph's edges, the unresolved record, the lines of both dumps and the cluster
 * counter), and the run that discovers the files and drives the builder. Each step is
 * proved against the functions of module `Graph`.
 */
module Builder {
  import opened Wrappers
  import opened Strings
  import opened Paths
  import opened Catalog
  import opened Extractor
  import opened Resolver
  import opened Clusters
  import opened Graph

  /** The label of a node: its path, or its node name followed by its extension. */
  method NodeLabel(path: string, showPath: bool) returns (caption: string)
    ensures caption == Label(path, showPath)
  {
    if showPath {
      caption := path;
    } else {
      caption := Normalize(path) + GetExtension(path);
    }
  }

  /** The colour of the edges drawn from `path`. */
  method ColorOf(path: string) returns (color: Color)
    ensures color == EdgeColor(path)
  {
    color := Black;
    var ext := GetExtension(path);
    if ext in ValidHeaders {
      color := Red;
    }
    if ext in ValidSources {
      color := Blue;
    }
  }

  /** The member lines of a cluster block, one per member number, in order. */
  method MemberListing(subgraphNodes: seq<nat>) returns (lines: seq<string>)
    ensures lines == MemberLines(subgraphNodes)
  {
    lines := [];
    for k := 0 to |subgraphNodes|
      invariant lines == MemberLines(subgraphNodes[..k])
    {
      lines := lines + ["\t\t" + NatToString(subgraphNodes[k]) + ";\n"];
      assert subgraphNodes[..k + 1][..k] == subgraphNodes[..k];
    }
    assert subgraphNodes[..|subgraphNodes|] == subgraphNodes;
  }

  /**
   * The fixed context agrees with the discovered files: the tokenizer reads and scans a
   * file, the resolver is `get_absolute_path` over the include directories, and the nodes
   * are the files.
   */
  ghost predicate Agrees(env: Env, numbers: map<string, nat>, files: seq<string>, opts: Options, fs: FileSystem)
  {
    && (forall p :: env.tokens(p) == FindNeighbors(fs.read(p)))
    && (forall p, t :: env.resolve(p, t) == Resolve(p, t, opts.includeDirs, fs.pathExists, fs.normpath))
    && env.nodes == (set f | f in files)
    && numbers == Numbering(files)
  }

  /** The context of a run over `files` agrees with them. */
  lemma EnvOfAgrees(files: seq<string>, opts: Options, fs: FileSystem)
    ensures Agrees(EnvOf(files, opts.includeDirs, fs), Numbering(files), files, opts, fs)
  {
    EnvOfParts(files, opts.includeDirs, fs);
  }

  class GraphBuilder {
    const files: seq<string>
    const opts: Options
    const fs: FileSystem
    /** The include loop's context: tokenizer, resolver and the node set `set(files)`. */
    const env: Env
    /** `files_to_numbers`. */
    const numbers: map<string, nat>

    /** The `graph.edge` calls made so far. */
    var graphEdges: seq<GraphEdge>
    var unresolved: map<string, set<string>>
    var strLines: seq<string>
    var gvLines: seq<string>
    var subgraphCounter: nat

    /** The fixed context agrees with the discovered files. */
    ghost predicate Valid()
    {
      Agrees(env, numbers, files, opts, fs)
    }

    constructor (files: seq<string>, opts: Options, fs: FileSystem)
      ensures Valid() && env == EnvOf(files, opts.includeDirs, fs) && numbers == Numbering(files)
      ensures this.files == files && this.opts == opts && this.fs == fs
      ensures graphEdges == [] && unresolved == map[] && strLines == [] && gvLines == [] && subgraphCounter == 0
    {
      this.files := files;
      this.opts := opts;
      this.fs := fs;
      env := EnvOf(files, opts.includeDirs, fs);
      numbers := Numbering(files);
      EnvOfAgrees(files, opts, fs);
      graphEdges := [];
      unresolved := map[];
      strLines := [];
      gvLines := [];
      subgraphCounter := 0;
    }

    /** The headings and node lines of the text dump, one node line per file in file order. */
    method WriteTextNodes()
      requires strLines == []
      modifies this`strLines
      ensures graphEdges == old(graphEdges) && unresolved == old(unresolved) && subgraphCounter == old(subgraphCounter)
      ensures strLines == if opts.text then ["", "Nodes:\n"] + TextNodeLines(files, opts.showPath) + ["Edges:\n"] else []
    {
      if opts.text {
        var lines := ["", "Nodes:\n"];
        for i := 0 to |files|
          invariant lines == ["", "Nodes:\n"] + TextNodeLines(files[..i], opts.showPath)
          modifies {}
        {
          var normalizedName := NodeLabel(files[i], opts.showPath);
          TextNodeLinesSnoc(["", "Nodes:\n"], files, i, opts.showPath, normalizedName);
          lines := lines + [NatToString(i + 1) + " " + normalizedName + "\n"];
        }
        assert files[..|files|] == files;
        strLines := lines + ["Edges:\n"];
      }
    }

    /** The opening line and node lines of the Graphviz dump, one node line per file in file order. */
    method WriteGvNodes(name: string)
      requires gvLines == []
      modifies this`gvLines
      ensures graphEdges == old(graphEdges) && unresolved == old(unresolved) && subgraphCounter == old(subgraphCounter)
      ensures strLines == old(strLines)
      ensures gvLines == if opts.gv then [GvOpening(name)] + GvNodeLines(files, opts.showPath) else []
    {
      if opts.gv {
        var lines := ["digraph " + name + " {\n"];
        for i := 0 to |files|
          invariant lines == [GvOpening(name)] + GvNodeLines(files[..i], opts.showPath)
          modifies {}
        {
          var normalizedName := NodeLabel(files[i], opts.showPath);
          GvNodeLinesSnoc([GvOpening(name)], files, i, opts.showPath, normalizedName);
          lines := lines + ["\t" + NatToString(i + 1) + " [label=\"" + normalizedName + "\"];\n"];
        }
        assert files[..|files|] == files;
        gvLines := lines;
      }
    }

    /**
     * One token of `path`: an unresolved one is recorded under the file's directory, and one
     * that resolves to another node becomes a graph edge, a text line and a Graphviz line.
     */
    method AddInclude(path: string, color: Color, neighbor: string)
      requires Valid()
      modifies this`graphEdges, this`unresolved, this`strLines, this`gvLines
      ensures var target := env.resolve(path, neighbor);
              var added := if MakesEdge(env, path, target) then [Edge(path, target.value, color)] else [];
              && graphEdges == old(graphEdges) + OrientAll(added, opts.flip)
              && unresolved == (if target.None? then Record(old(unresolved), Dirname(path), neighbor) else old(unresolved))
              && strLines == old(strLines) + (if opts.text then TextEdgeLines(numbers, added) else [])
              && gvLines == old(gvLines) + (if opts.gv then GvEdgeLines(numbers, added) else [])
    {
      var absPath := GetAbsolutePath(path, neighbor, opts.includeDirs, fs.pathExists, fs.normpath);
      assert absPath == env.resolve(path, neighbor);
      if absPath.None? {
        var d := Dirname(path);
        unresolved := unresolved[d := (if d in unresolved then unresolved[d] else {}) + {neighbor}];
      }
      if absPath.Some? && absPath.value != path && absPath.value in env.nodes {
        AddEdge(path, absPath.value, color);
      }
    }

    /** An include of `abs` by `path`: the graph edge, the text line and the Graphviz line. */
    method AddEdge(path: string, abs: string, color: Color)
      modifies this`graphEdges, this`strLines, this`gvLines
      ensures graphEdges == old(graphEdges) + OrientAll([Edge(path, abs, color)], opts.flip)
      ensures strLines == old(strLines) + if opts.text then TextEdgeLines(numbers, [Edge(path, abs, color)]) else []
      ensures gvLines == old(gvLines) + if opts.gv then GvEdgeLines(numbers, [Edge(path, abs, color)]) else []
    {
      graphEdges := graphEdges + [if opts.flip then GraphEdge(abs, path, color) else GraphEdge(path, abs, color)];
      if opts.text {
        strLines := strLines + [NatToString(Number(numbers, path)) + " " + NatToString(Number(numbers, abs)) + "\n"];
      }
      if opts.gv {
        gvLines := gvLines + ["\t" + NatToString(Number(numbers, path)) + " -> " + NatToString(Number(numbers, abs))
                              + " [color = " + ColorName(color) + "];\n"];
      }
    }

    /** The include loop of one file: each of its tokens in order, all coloured by the file's kind. */
    method AddIncludesOf(path: string)
      requires Valid()
      modifies this`graphEdges, this`unresolved, this`strLines, this`gvLines
      ensures graphEdges == old(graphEdges) + OrientAll(FileEdges(env, path), opts.flip)
      ensures unresolved == Unresolved(env, old(unresolved), path, env.tokens(path))
      ensures strLines == old(strLines) + if opts.text then TextEdgeLines(numbers, FileEdges(env, path)) else []
      ensures gvLines == old(gvLines) + if opts.gv then GvEdgeLines(numbers, FileEdges(env, path)) else []
    {
      var color := ColorOf(path);
      var neighbors := FindNeighbors(fs.read(path));
      assert neighbors == env.tokens(path);
      ghost var added: seq<Edge> := [];
      for j := 0 to |neighbors|
        invariant Valid()
        invariant added == EdgesFrom(path, color, Targets(env, path, neighbors[..j]))
        invariant graphEdges == old(graphEdges) + OrientAll(added, opts.flip)
        invariant unresolved == Unresolved(env, old(unresolved), path, neighbors[..j])
        invariant strLines == old(strLines) + if opts.text then TextEdgeLines(numbers, added) else []
        invariant gvLines == old(gvLines) + if opts.gv then GvEdgeLines(numbers, added) else []
      {
        IncludeStep(env, path, color, neighbors, j, old(unresolved));
        var target := env.resolve(path, neighbors[j]);
        ghost var step := if MakesEdge(env, path, target) then [Edge(path, target.value, color)] else [];
        OrientAfter(opts.flip, added, step, old(graphEdges));
        TextLinesAfter(numbers, added, step, old(strLines));
        GvLinesAfter(numbers, added, step, old(gvLines));
        AddInclude(path, color, neighbors[j]);
        added := added + step;
      }
      assert neighbors[..|neighbors|] == neighbors;
    }

    /**
     * The files of one directory in order: the include loop of each, collecting the numbers
     * of the cluster's members when clusters are drawn.
     */
    method AddGroup(group: seq<string>) returns (subgraphNodes: seq<nat>)
      requires Valid()
      modifies this`graphEdges, this`unresolved, this`strLines, this`gvLines
      ensures graphEdges == old(graphEdges) + OrientAll(PathsEdges(env, group), opts.flip)
      ensures unresolved == PathsUnresolved(env, old(unresolved), group)
      ensures strLines == old(strLines) + if opts.text then TextEdgeLines(numbers, PathsEdges(env, group)) else []
      ensures gvLines == old(gvLines) + if opts.gv then GvEdgeLines(numbers, PathsEdges(env, group)) else []
      ensures subgraphNodes == if opts.createCluster then Members(numbers, group) else []
    {
      subgraphNodes := [];
      for j := 0 to |group|
        invariant Valid()
        invariant graphEdges == old(graphEdges) + OrientAll(PathsEdges(env, group[..j]), opts.flip)
        invariant unresolved == PathsUnresolved(env, old(unresolved), group[..j])
        invariant strLines == old(strLines) + if opts.text then TextEdgeLines(numbers, PathsEdges(env, group[..j])) else []
        invariant gvLines == old(gvLines) + if opts.gv then GvEdgeLines(numbers, PathsEdges(env, group[..j])) else []
        invariant subgraphNodes == if opts.createCluster then Members(numbers, group[..j]) else []
      {
        subgraphNodes := AddMember(group, j, subgraphNodes, old(graphEdges), old(unresolved), old(strLines), old(gvLines));
      }
      assert group[..|group|] == group;
    }

    /**
     * File `j` of a directory's group: its number joins the cluster's members when clusters are
     * drawn, and its include loop extends what the files before it wrote after `graph0`,
     * `unresolved0`, `text0` and `gv0`.
     */
    method AddMember(group: seq<string>, j: nat, nodes: seq<nat>, ghost graph0: seq<GraphEdge>,
                     ghost unresolved0: map<string, set<string>>, ghost text0: seq<string>, ghost gv0: seq<string>)
      returns (subgraphNodes: seq<nat>)
      requires Valid() && j < |group|
      requires graphEdges == graph0 + OrientAll(PathsEdges(env, group[..j]), opts.flip)
      requires unresolved == PathsUnresolved(env, unresolved0, group[..j])
      requires strLines == text0 + if opts.text then TextEdgeLines(numbers, PathsEdges(env, group[..j])) else []
      requires gvLines == gv0 + if opts.gv then GvEdgeLines(numbers, PathsEdges(env, group[..j])) else []
      requires nodes == if opts.createCluster then Members(numbers, group[..j]) else []
      modifies this`graphEdges, this`unresolved, this`strLines, this`gvLines
      ensures graphEdges == graph0 + OrientAll(PathsEdges(env, group[..j + 1]), opts.flip)
      ensures unresolved == PathsUnresolved(env, unresolved0, group[..j + 1])
      ensures strLines == text0 + if opts.text then TextEdgeLines(numbers, PathsEdges(env, group[..j + 1])) else []
      ensures gvLines == gv0 + if opts.gv then GvEdgeLines(numbers, PathsEdges(env, group[..j + 1])) else []
      ensures subgraphNodes == if opts.createCluster then Members(numbers, group[..j + 1]) else []
    {
      var path := group[j];
      subgraphNodes := nodes;
      if opts.createCluster {
        MembersStep(numbers, group, j);
        subgraphNodes := subgraphNodes + [Number(numbers, path)];
      }
      GroupEdgesStep(env, opts.flip, group, j, graph0);
      GroupUnresolvedStep(env, unresolved0, group, j);
      if opts.text {
        GroupTextStep(env, numbers, group, j, text0);
      }
      if opts.gv {
        GroupGvStep(env, numbers, group, j, gv0);
      }
      AddIncludesOf(path);
    }

    /** The cluster block of one directory in the Graphviz dump, numbered by the cluster counter. */
    method WriteCluster(name: string, subgraphNodes: seq<nat>)
      modifies this`gvLines, this`subgraphCounter
      ensures gvLines == old(gvLines)
                         + if opts.createCluster && opts.gv then ClusterLines(old(subgraphCounter), name, subgraphNodes, opts.labelCluster) else []
      ensures opts.createCluster && opts.gv ==> subgraphCounter == old(subgraphCounter) + 1
      ensures !(opts.createCluster && opts.gv) ==> subgraphCounter == old(subgraphCounter)
    {
      var lines, counter := gvLines, subgraphCounter;
      if opts.createCluster {
        if opts.gv {
          lines := lines + ["\tsubgraph cluster_" + NatToString(counter) + " {\n"];
          counter := counter + 1;
        }
        if opts.labelCluster {
          if opts.gv {
            lines := lines + ["\t\tlabel = \"" + name + "\";\n"];
          }
        }
        if opts.gv {
          var memberLines := MemberListing(subgraphNodes);
          lines := lines + memberLines + ["\t}\n"];
          ClusterLinesAfter(old(gvLines), old(subgraphCounter), name, subgraphNodes, opts.labelCluster);
        }
      }
      gvLines, subgraphCounter := lines, counter;
    }

    /**
     * One directory: the include loop of each of its files in order, then, with clusters
     * drawn, its cluster block in the Graphviz dump.
     */
    method AddFolder(name: string, group: seq<string>)
      requires Valid()
      modifies this
      ensures graphEdges == old(graphEdges) + OrientAll(PathsEdges(env, group), opts.flip)
      ensures unresolved == PathsUnresolved(env, old(unresolved), group)
      ensures strLines == old(strLines) + if opts.text then TextEdgeLines(numbers, PathsEdges(env, group)) else []
      ensures gvLines == old(gvLines) + FolderGvLines(env, StyleOf(opts), numbers, old(subgraphCounter), name, group)
      ensures opts.createCluster && opts.gv ==> subgraphCounter == old(subgraphCounter) + 1
      ensures !(opts.createCluster && opts.gv) ==> subgraphCounter == old(subgraphCounter)
    {
      var subgraphNodes := AddGroup(group);
      WriteCluster(name, subgraphNodes);
      FolderGvLinesAfter(old(gvLines), env, StyleOf(opts), numbers, old(subgraphCounter), name, group);
    }

    /**
     * The directories in order, each under its name with the common prefix cut off: the
     * `i`-th one drawn, when clusters are, as cluster number `i`.
     */
    method AddFolders(folders: seq<string>, groups: map<string, seq<string>>, commonPrefix: string)
      requires Valid()
      requires forall d :: d in groups <==> d in folders
      requires forall d :: d in groups ==> groups[d] == FilesIn(files, d)
      requires subgraphCounter == 0
      modifies this
      ensures graphEdges == old(graphEdges) + OrientAll(PathsEdges(env, GroupedOrder(folders, files)), opts.flip)
      ensures unresolved == PathsUnresolved(env, old(unresolved), GroupedOrder(folders, files))
      ensures strLines == old(strLines) + if opts.text then TextEdgeLines(numbers, PathsEdges(env, GroupedOrder(folders, files))) else []
      ensures gvLines == old(gvLines) + FoldersGvLines(env, StyleOf(opts), numbers, files, folders, commonPrefix)
      ensures subgraphCounter == if opts.createCluster && opts.gv then |folders| else 0
    {
      for i := 0 to |folders|
        invariant graphEdges == old(graphEdges) + OrientAll(PathsEdges(env, GroupedOrder(folders[..i], files)), opts.flip)
        invariant unresolved == PathsUnresolved(env, old(unresolved), GroupedOrder(folders[..i], files))
        invariant strLines == old(strLines) + if opts.text then TextEdgeLines(numbers, PathsEdges(env, GroupedOrder(folders[..i], files))) else []
        invariant gvLines == old(gvLines) + FoldersGvLines(env, StyleOf(opts), numbers, files, folders[..i], commonPrefix)
        invariant opts.createCluster && opts.gv ==> subgraphCounter == i
        invariant !(opts.createCluster && opts.gv) ==> subgraphCounter == 0
      {
        var folder1 := folders[i];
        var folder1Name := ClusterName(folder1, commonPrefix);
        FolderEdgesStep(env, opts.flip, folders, files, i, old(graphEdges));
        FolderUnresolvedStep(env, old(unresolved), folders, files, i);
        if opts.text {
          FolderTextStep(env, numbers, folders, files, i, old(strLines));
        }
        FolderGvStep(env, StyleOf(opts), numbers, files, folders, i, commonPrefix, subgraphCounter, old(gvLines));
        AddFolder(folder1Name, groups[folder1]);
      }
      assert folders[..|folders|] == folders;
    }

    /**
     * The body of `create_graph` once the files are found, on a fresh builder: the node
     * lines, every directory's includes and cluster block, then the count header and the
     * closing brace.
     */
    method Assemble(name: string, folders: seq<string>, groups: map<string, seq<string>>, commonPrefix: string)
      requires Valid() && env == EnvOf(files, opts.includeDirs, fs)
      requires folders == DirKeys(files) && commonPrefix == CommonPrefix(folders)
      requires forall d :: d in groups <==> d in folders
      requires forall d :: d in groups ==> groups[d] == FilesIn(files, d)
      requires graphEdges == [] && unresolved == map[] && strLines == [] && gvLines == [] && subgraphCounter == 0
      modifies this
      ensures Output(graphEdges, unresolved, strLines, gvLines) == Build(files, name, opts, fs)
    {
      WriteTextNodes();
      WriteGvNodes(name);
      ghost var textHead, gvHead := strLines, gvLines;
      AddFolders(folders, groups, commonPrefix);
      ghost var body := strLines;
      Finish();
      RunIsBuild(files, name, opts, fs, env, numbers, folders, commonPrefix, textHead, body, gvHead,
                 graphEdges, unresolved, strLines, gvLines);
    }

    /** The count header of the text dump, computed from its length, and the closing brace of the Graphviz dump. */
    method Finish()
      requires opts.text ==> |strLines| >= |files| + 3
      modifies this`strLines, this`gvLines
      ensures graphEdges == old(graphEdges) && unresolved == old(unresolved)
      ensures strLines == if opts.text then old(strLines)[0 := Header(|files|, |old(strLines)| - |files| - 3)] else old(strLines)
      ensures gvLines == if opts.gv then old(gvLines) + ["}"] else old(gvLines)
    {
      if opts.text {
        strLines := strLines[0 := "Nodes count: " + NatToString(|files|)
                                  + " Edges count: " + NatToString(|strLines| - |files| - 3) + "\n"];
      }
      if opts.gv {
        gvLines := gvLines + ["}"];
      }
    }
  }

  /** The graph and the unresolved record a run leaves behind, as `Build` describes them. */
  lemma RunGraphIsBuild(files: seq<string>, opts: Options, fs: FileSystem, env: Env, folders: seq<string>,
                        graph0: seq<GraphEdge>, unresolved0: map<string, set<string>>,
                        graphEdges: seq<GraphEdge>, unresolved: map<string, set<string>>)
    requires env == EnvOf(files, opts.includeDirs, fs) && folders == DirKeys(files)
    requires graph0 == [] && unresolved0 == map[]
    requires graphEdges == graph0 + OrientAll(PathsEdges(env, GroupedOrder(folders, files)), opts.flip)
    requires unresolved == PathsUnresolved(env, unresolved0, GroupedOrder(folders, files))
    ensures graphEdges == OrientAll(Edges(files, opts.includeDirs, fs), opts.flip)
    ensures unresolved == UnresolvedOf(files, opts.includeDirs, fs)
  {
    assert graph0 + OrientAll(PathsEdges(env, GroupedOrder(folders, files)), opts.flip)
        == OrientAll(PathsEdges(env, GroupedOrder(folders, files)), opts.flip);
  }

  /** The text dump a run leaves behind: node lines and edge lines under the count header, as `Build` describes it. */
  lemma RunTextIsBuild(files: seq<string>, opts: Options, fs: FileSystem, env: Env, numbers: map<string, nat>,
                       folders: seq<string>, textHead: seq<string>, body: seq<string>, textLines: seq<string>)
    requires env == EnvOf(files, opts.includeDirs, fs) && numbers == Numbering(files) && folders == DirKeys(files)
    requires textHead == if opts.text then ["", "Nodes:\n"] + TextNodeLines(files, opts.showPath) + ["Edges:\n"] else []
    requires body == textHead + if opts.text then TextEdgeLines(numbers, PathsEdges(env, GroupedOrder(folders, files))) else []
    requires textLines == if opts.text then body[0 := Header(|files|, |body| - |files| - 3)] else body
    ensures textLines == if opts.text then TextDump(files, Numbering(files), Edges(files, opts.includeDirs, fs), opts.showPath) else []
  {
  }

  /** The Graphviz dump a run leaves behind: node lines, then each directory's lines, then the closing brace. */
  lemma RunGvIsBuild(files: seq<string>, name: string, opts: Options, fs: FileSystem, env: Env, numbers: map<string, nat>,
                     folders: seq<string>, commonPrefix: string, gvHead: seq<string>, gvLines: seq<string>)
    requires env == EnvOf(files, opts.includeDirs, fs) && numbers == Numbering(files) && folders == DirKeys(files) && commonPrefix == CommonPrefix(folders)
    requires gvHead == if opts.gv then [GvOpening(name)] + GvNodeLines(files, opts.showPath) else []
    requires var lines := gvHead + FoldersGvLines(env, StyleOf(opts), numbers, files, folders, commonPrefix);
             gvLines == if opts.gv then lines + ["}"] else lines
    ensures gvLines == if opts.gv then GvDump(env, StyleOf(opts), files, name, opts.showPath) else []
  {
    if !opts.gv {
      FoldersGvLinesSilent(env, StyleOf(opts), numbers, files, folders, commonPrefix);
    }
  }

  /** Everything a run leaves behind, as `Build` describes it. */
  lemma RunIsBuild(files: seq<string>, name: string, opts: Options, fs: FileSystem, env: Env, numbers: map<string, nat>,
                   folders: seq<string>, commonPrefix: string, textHead: seq<string>, body: seq<string>, gvHead: seq<string>,
                   graphEdges: seq<GraphEdge>, unresolved: map<string, set<string>>, textLines: seq<string>, gvLines: seq<string>)
    requires env == EnvOf(files, opts.includeDirs, fs) && numbers == Numbering(files) && folders == DirKeys(files) && commonPrefix == CommonPrefix(folders)
    requires graphEdges == [] + OrientAll(PathsEdges(env, GroupedOrder(folders, files)), opts.flip)
    requires unresolved == PathsUnresolved(env, map[], GroupedOrder(folders, files))
    requires textHead == if opts.text then ["", "Nodes:\n"] + TextNodeLines(files, opts.showPath) + ["Edges:\n"] else []
    requires body == textHead + if opts.text then TextEdgeLines(numbers, PathsEdges(env, GroupedOrder(folders, files))) else []
    requires textLines == if opts.text then body[0 := Header(|files|, |body| - |files| - 3)] else body
    requires gvHead == if opts.gv then [GvOpening(name)] + GvNodeLines(files, opts.showPath) else []
    requires var lines := gvHead + FoldersGvLines(env, StyleOf(opts), numbers, files, folders, commonPrefix);
             gvLines == if opts.gv then lines + ["}"] else lines
    ensures Output(graphEdges, unresolved, textLines, gvLines) == Build(files, name, opts, fs)
  {
    RunGraphIsBuild(files, opts, fs, env, folders, [], map[], graphEdges, unresolved);
    RunTextIsBuild(files, opts, fs, env, numbers, folders, textHead, body, textLines);
    RunGvIsBuild(files, name, opts, fs, env, numbers, folders, commonPrefix, gvHead, gvLines);
  }

  /** The graph-building part of `create_graph` over the discovered `files`, for a graph named `name`. */
  method Run(files: seq<string>, name: string, opts: Options, fs: FileSystem) returns (output: Output)
    ensures output == Build(files, name, opts, fs)
  {
    var folders, groups := GroupByFolder(files);
    var commonPrefix := CommonPrefix(folders);
    var b := new GraphBuilder(files, opts, fs);
    b.Assemble(name, folders, groups, commonPrefix);
    output := Output(b.graphEdges, b.unresolved, b.strLines, b.gvLines);
  }

  /** The loop over comma-separated roots: the files of each root in turn, or the first root that cannot be listed. */
  method DiscoverFiles(roots: seq<string>, fs: FileSystem, ignoreTests: bool) returns (r: Result<seq<string>, string>)
    ensures r == Discover(roots, fs, ignoreTests)
  {
    var files := [];
    for i := 0 to |roots|
      invariant Discover(roots[..i], fs, ignoreTests) == Success(files)
    {
      var ff := roots[i];
      assert roots[..i + 1][..i] == roots[..i];
      match fs.scan(ff)
      case None =>
        DiscoverStopsAtFailure(roots, i + 1, fs, ignoreTests);
        return Failure(ff);
      case Some(entries) =>
        var found := FindAllFiles(ff, entries, ignoreTests, true);
        files := files + found;
    }
    assert roots[..|roots|] == roots;
    return Success(files);
  }

  /** `create_graph(folder, ...)`: discover the files of each root, name the graph, and build it. */
  method CreateGraph(folder: string, opts: Options, fs: FileSystem) returns (r: Result<Output, string>)
    ensures r == CreateGraphSpec(folder, opts, fs)
  {
    var discovered: Result<seq<string>, string>;
    var name: string;
    if ',' in folder {
      name := Join(Stems(Split(folder, ',')), "__");
      discovered := DiscoverFiles(Split(folder, ','), fs, opts.ignoreTests);
    } else {
      DiscoverOneRoot(folder, fs, opts.ignoreTests);
      match fs.scan(folder)
      case None =>
        return Failure(folder);
      case Some(entries) =>
        var files := FindAllFiles(folder, entries, opts.ignoreTests, true);
        discovered := Success(files);
      name := Normalize(folder);
    }
    match discovered
    case Failure(e) =>
      return Failure(e);
    case Success(files) =>
      var output := Run(files, name, opts, fs);
      return Success(output);
  }
}
