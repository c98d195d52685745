# Include-graph engine of `dependency_graph.py`, in Dafny

`dependency_graph.py` builds the `#include` graph of a C/C++ source tree. This project models
its engine and proves what the engine computes. The engine has five parts:

- **Discovery** (`find_all_files`): the graph nodes are the files with a recognised header or
  source extension. Test files are dropped when asked. Directories are walked depth first.
- **Extraction** (`find_neighbors`): the tokens of the include pattern `#include\s+["<"](.*)[">]`.
  A file whose stripped text starts with `//` yields none.
- **Resolution** (`get_absolute_path`): a token resolves to the first candidate that exists.
  The candidates are the comma-separated include directories, then the includer's own directory.
- **Assembly** (`create_graph`): it does four things.
  - It groups the files by directory and numbers them from 1.
  - It adds one coloured edge per include that resolves to another discovered file.
  - It records the tokens that resolve nowhere, under the includer's directory.
  - It writes the lines of the text dump (`graph.txt`) and of the Graphviz dump (`graph.gv`).
- **Clustering**: one cluster per full directory name, visited in order of first appearance.
  A cluster's name is its directory with the character-wise common prefix of all directories
  cut off.

## Modules

| Module | File | What it holds |
|---|---|---|
| `Wrappers` | `wrappers.dfy` | `Option` and `Result`. |
| `Strings` | `strings.dfy` | Python's `strip`, `rfind`, `find`, `split`, `join`, `in` and `str(n)`, as functions with their properties. |
| `Paths` | `paths.dfy` | `basename`, `dirname`, `join`, `normalize` and `get_extension`. |
| `Catalog` | `catalog.dfy` | The directory tree (`Entry`), the node filter and `find_all_files` (a method with a loop). |
| `Extractor` | `extractor.dfy` | The include pattern as a matcher, `findall` as a left-to-right scan, and `find_neighbors`. |
| `Resolver` | `resolver.dfy` | The candidate directories, the first-match search, and `get_absolute_path` (a method with a loop). |
| `Clusters` | `clusters.dfy` | Grouping by directory, `os.path.commonprefix` and cluster names; `GroupByFolder` is the grouping loop. |
| `Graph` | `graph.dfy` | Functions that describe a whole run (`Build`, `Discover`, `CreateGraphSpec`), and the lemmas about them. |
| `Builder` | `builder.dfy` | `create_graph` as the program runs it: the class `GraphBuilder` holds the state that its loops update. |

The filesystem is a value of type `FileSystem` with four fields:

- `scan`: the listing of a root, or `None` when the root cannot be listed.
- `read`: the decoded text of a file.
- `pathExists`: stands for `os.path.exists`.
- `normpath`: stands for `os.path.normpath`.

A listing is a finite tree of `Entry` values. The path of each entry is `os.path.join` of the
listed directory and the entry's name.

The code groups files flat by full directory name and strips a character-wise common prefix
(`os.path.commonprefix`), so a cluster name can be cut inside a path segment: `src/ab` and
`src/ac` share the prefix `src/a`, and their clusters are named `b` and `c`.

## Model

All source cells refer to `dependency_graph.py`.

| member | source | states |
|---|---|---|
| Paths.BasenameIsLastComponent | dependency_graph.py:16 | `os.path.basename` is the longest suffix of the path without a '/', and the path has a '/' just before it. |
| Paths.Dirname | dependency_graph.py:86 | `os.path.dirname` is a prefix of the path. It is empty exactly when the path holds no '/'. |
| Paths.BasenameOfJoinPath | dependency_graph.py:44 | An entry listed in a directory keeps its entry name as its base name. |
| Paths.DirnameOfJoinPath | dependency_graph.py:86 | An entry listed in a directory written without a trailing '/' has that directory as its dirname. |
| Paths.Normalize | dependency_graph.py:14-19 | `normalize`: the base name up to its last '.', or the whole base name when it has none. It has no contract of its own; `NormalizeIsStem` and `NormalizeBetween` state its properties. |
| Paths.NormalizeIsStem | dependency_graph.py:14-19 | `normalize` never holds a '/'. It is a prefix of the base name. It is the whole base name exactly when the base name has no '.'; otherwise it stops at the base name's last '.'. |
| Paths.GetExtension | dependency_graph.py:22-24 | `get_extension`: the suffix from the path's last '.', or its last character when it has none. It has no contract of its own; `ExtensionIsSuffix` and `DotInDirectoryLeaks` state its properties. |
| Paths.ExtensionIsSuffix | dependency_graph.py:22-24 | `get_extension` is a suffix of the path. With a '.' in the path, it starts at the last '.' and holds no other '.'. Without one, it is the last character, or empty for the empty path. |
| Paths.DotInDirectoryLeaks | dependency_graph.py:22-24 | When the last '.' is in a directory name, the extension takes in a '/' from the rest of the path. |
| Paths.ValidExtensionShape | dependency_graph.py:9-11 | Every recognised extension is a '.' followed by characters that are neither '.' nor '/'. |
| Paths.LastDotAfterLastSlash | dependency_graph.py:22-24 | When the extension holds no '/', the last '.' comes after the last '/' and the extension starts there. |
| Paths.NormalizeBetween | dependency_graph.py:14-19 | When the last '.' is in the base name, `normalize` is the text between the last '/' and that '.'. |
| Paths.NormalizeThenExtension | dependency_graph.py:101 | When the last '.' is in the base name, the node label `normalize(p) + get_extension(p)` is the base name. |
| Paths.LabelIsBasename | dependency_graph.py:101 | For every discovered file, the label without `show_path` is its base name. |
| Strings.TrimStart | dependency_graph.py:53 | Leading whitespace removal: a suffix, everything cut is whitespace, and the result starts with a non-space. |
| Strings.TrimEnd | dependency_graph.py:53 | Trailing whitespace removal: a prefix, everything cut is whitespace, and the result ends with a non-space. |
| Strings.StripStartsWith | dependency_graph.py:53 | `code.strip().startswith(m)` holds exactly when the text without leading whitespace starts with `m`, for a marker without spaces. |
| Strings.TrimStartAppend | dependency_graph.py:53 | Text appended after a non-blank text survives the removal of leading whitespace. |
| Strings.StripStartsWithAppend | dependency_graph.py:53 | A comment marker at the start of the stripped text stays there whatever is appended. |
| Strings.Contains | dependency_graph.py:42 | `'test' in name` holds exactly when the text occurs at some index of the name. |
| Strings.RFind | dependency_graph.py:17 | `rfind` returns -1 or the index of the character, and the character occurs nowhere after it. |
| Strings.Split | dependency_graph.py:62 | `split(',')` gives at least one part. No part holds the separator. The parts joined with the separator give the text back. |
| Strings.SplitJoin | dependency_graph.py:62 | Splitting undoes joining when no part holds the separator. |
| Strings.NatToStringDigits | dependency_graph.py:171 | `str(n)` is all digits, with no leading zero. |
| Strings.ParseNatToString | dependency_graph.py:171 | Reading `str(n)` back as a decimal numeral gives `n`. |
| Strings.NatToStringInjective | dependency_graph.py:171 | Distinct numbers are written differently. |
| Catalog.Listed | dependency_graph.py:27-45 | Every path `find_all_files` returns has a recognised extension and passes the `ignore_tests` rule. `ListedIsFilteredWalk` gives the whole list. |
| Catalog.Walk | dependency_graph.py:33-44 | The paths the walk looks at. Without recursion they are the listing's entries, one path per entry, each the join of the directory and the entry's name. |
| Catalog.Filter | dependency_graph.py:36-44 | The paths kept are exactly the listed paths with a recognised extension and, with tests ignored, a node name that is not a test name. |
| Catalog.FilterAppend | dependency_graph.py:35 | Filtering two listings one after the other is filtering their concatenation, as the splice `files += ...` does. |
| Catalog.ListedIsFilteredWalk | dependency_graph.py:27-45 | The files found are the filter of the depth-first walk, in visiting order. Subdirectories are spliced in where they are met. |
| Catalog.DiscoveredIff | dependency_graph.py:33-45 | A path is found exactly when the walk visits it, its extension is recognised, and it is not a test file whose node name has four or more characters and holds "test". |
| Catalog.ListedSnoc | dependency_graph.py:33-44 | One more entry of a listing adds that entry's files after the files found so far. |
| Catalog.FindAllFiles | dependency_graph.py:27-45 | The loop over the listing returns exactly the files `Listed` describes. |
| Extractor.SkipSpaces | dependency_graph.py:8 | `\s+` consumes a run of whitespace that stays inside the text. |
| Extractor.SkipSpacesStops | dependency_graph.py:8 | The whitespace run is maximal: it stops at the first non-space. |
| Extractor.LineEnd | dependency_graph.py:8 | `.` matches no further than the first newline, which lies inside the text or at its end. |
| Extractor.LineEndStops | dependency_graph.py:8 | The line end is the first newline. |
| Extractor.LastClosing | dependency_graph.py:8 | The greedy `(.*)[">]` ends at an index within the line, or finds none. |
| Extractor.LastClosingIsLast | dependency_graph.py:8 | What it finds is a closing `"` or `>`, and no closing delimiter follows it on the line. |
| Extractor.MatchAt | dependency_graph.py:8 | A match found at `p` starts at `p` and ends after it, inside the text. |
| Extractor.MatchIsBoundedBy | dependency_graph.py:8 | Any way the pattern matches at `p` consumes the maximal whitespace run and closes on the line, no later than the last closing delimiter. A match then exists. |
| Extractor.MatchAtIsMatch | dependency_graph.py:8 | What `MatchAt` reports is a match of the pattern, with the capture and end it reports. |
| Extractor.MatchAtIsGreedyMatch | dependency_graph.py:8 | There is no match at `p` exactly when the pattern cannot match there. Otherwise the reported match is the greedy one: no match ends later. |
| Extractor.ScanHitsAreMatches | dependency_graph.py:53 | Each hit of `findall` is the match found at its own start, at or after the scan's start. |
| Extractor.ScanInOrder | dependency_graph.py:53 | Hits come in text order and do not overlap. |
| Extractor.ScanMissesNothing | dependency_graph.py:53 | Every position where a match starts is the start of a hit or lies inside one. |
| Extractor.HitCovers | dependency_graph.py:53 | The scan step at a match also covers every later position where a match starts. |
| Extractor.Tokens | dependency_graph.py:53 | One token per hit, in order: the captured text of each hit. |
| Extractor.MatchTokenIsOneLine | dependency_graph.py:8 | The captured token of a match holds no newline. |
| Extractor.NoTokenSpansLines | dependency_graph.py:53 | No token captured by the `findall` scan holds a newline. |
| Extractor.FindNeighbors | dependency_graph.py:48-53 | `find_neighbors` returns no token for a text whose stripped form starts with `//`, and no token it returns holds a newline. `CommentedOutWhateverFollows` and `UncommentedYieldsEveryMatch` give the tokens themselves. |
| Extractor.CommentedOutWhateverFollows | dependency_graph.py:53 | A text whose stripped form starts with `//` yields no token, whatever follows. |
| Extractor.UncommentedYieldsEveryMatch | dependency_graph.py:53 | Without the leading `//`, the tokens are those of the `findall` scan from the start of the text. |
| Resolver.Candidates | dependency_graph.py:62-63 | The candidates are at least two: the split include directories, then the includer's dirname last. |
| Resolver.FirstExisting | dependency_graph.py:64-68 | The search finds nothing exactly when the token exists under no candidate. Otherwise it returns the first candidate under which the token exists. |
| Resolver.Resolve | dependency_graph.py:61-68 | `get_absolute_path` returns `None` exactly when the token exists under no candidate directory. A path it returns is the normalised join of a candidate under which the token exists. |
| Resolver.ResolveNoneIff | dependency_graph.py:61-68 | Resolution returns `None` exactly when the token exists under no candidate directory. |
| Resolver.ResolveIsFirstMatch | dependency_graph.py:64-67 | A resolved path is the normalised join of the first candidate under which the token exists. |
| Resolver.ExplicitDirectoryWins | dependency_graph.py:62-67 | When explicit include directory `i` holds the token, the result is the join with an explicit directory at or before `i`, never with the includer's own directory. |
| Resolver.EmptyIncludeListTriesTokenAsIs | dependency_graph.py:62-65 | An empty include list gives the candidates `""` and the includer's dirname, and the first of them tries the token as written. |
| Resolver.GetAbsolutePath | dependency_graph.py:61-68 | The loop over the candidates returns what `Resolve` describes. |
| Clusters.DirKeysAreTheDirectories | dependency_graph.py:84-87 | The keys of `folder_to_files` are distinct, and they are exactly the directories of the files. |
| Clusters.FilesInIsTheGroup | dependency_graph.py:84-87 | A directory's group holds exactly the files whose dirname is that directory. |
| Clusters.GroupedOrderAppendKey | dependency_graph.py:124-128 | Visiting one more directory visits its group after the groups before it. |
| Clusters.GroupingIsPermutation | dependency_graph.py:124-128 | Visiting the groups in key order visits every file exactly as often as it occurs in `files`. |
| Clusters.FileInExactlyOneGroup | dependency_graph.py:84-86 | Each file is in the group of its own directory and in no other. |
| Clusters.ListedEntryGroupedUnderItsDirectory | dependency_graph.py:84-86 | A file found directly in a directory is grouped under that directory and no other, and keeps its entry name as its base name. |
| Clusters.CommonPrefix2IsLongest | dependency_graph.py:121 | The common prefix of two strings starts both, and every string that starts both starts it. |
| Clusters.CommonPrefix | dependency_graph.py:121 | `os.path.commonprefix` of the directory names, "" for none. It has no contract of its own; `CommonPrefixIsLongest` states that it is the longest common prefix. |
| Clusters.CommonPrefixIsLongest | dependency_graph.py:121 | `os.path.commonprefix` starts every directory name, and every string that starts them all starts it. |
| Clusters.ClusterName | dependency_graph.py:125 | A cluster name is a suffix of its directory: what follows a non-empty prefix the directory starts with, or the whole directory when it does not start with the prefix. |
| Clusters.ClusterNameStripsCommonPrefix | dependency_graph.py:121-125 | Every cluster name is its directory with the common prefix cut off. |
| Clusters.SingleFolderHasEmptyName | dependency_graph.py:121-125 | With a single directory, its cluster name is empty. |
| Clusters.GroupByFolder | dependency_graph.py:84-87 | The grouping loop lists the directories in order of first appearance and maps each to its files, in order. |
| Graph.EdgeColor | dependency_graph.py:129-139 | The colour of the edges drawn from a file, from its extension. It has no contract of its own; `EdgeColorByKind` states it. |
| Graph.EdgeColorByKind | dependency_graph.py:129-139 | Edges are red exactly from a header, blue exactly from a source, and black from anything else. |
| Graph.OrientAllElementwise | dependency_graph.py:151 | Each graph edge is its include, turned around exactly when `flip` is set. |
| Graph.TargetsIff | dependency_graph.py:146-150 | A file is a target of `path` exactly when it is another node that one of its tokens resolves to. |
| Graph.EdgesFromIff | dependency_graph.py:151 | The edges drawn from `path` are exactly one per target, with the includer's colour. |
| Graph.PathsEdgesIff | dependency_graph.py:128-151 | The edges added while visiting some paths are exactly the includes between a visited file and another node. |
| Graph.UnresolvedIff | dependency_graph.py:147-149 | A file's tokens record `t` under directory `d` exactly when `d` is the file's dirname and `t` resolves nowhere. Nothing else is added, and no entry is left empty. |
| Graph.PathsUnresolvedIff | dependency_graph.py:128-149 | The same for a whole visit: a token is recorded under `d` exactly when a visited file of `d` includes it and it resolves nowhere. |
| Graph.IncludeStep | dependency_graph.py:147-151 | One more token adds an edge exactly when it resolves to another node, and a record under the file's dirname exactly when it resolves nowhere. |
| Graph.Numbering | dependency_graph.py:94 | `files_to_numbers`, the last 1-based position of each file. It has no contract of its own; `NumberingIsLastPosition` states it. |
| Graph.NumberingIsLastPosition | dependency_graph.py:94 | `files_to_numbers` numbers exactly the files. Each number lies in `1..N` and is the file's last position. |
| Graph.NumberingInOrder | dependency_graph.py:94 | Without repeated files, the `i`-th file is numbered `i + 1`. |
| Graph.TextNodeLines | dependency_graph.py:97-105 | One node line per file. |
| Graph.TextNodeLinesElementwise | dependency_graph.py:97-105 | The node line of the `i`-th file is `i + 1`, a space and the file's label. |
| Graph.GvNodeLines | dependency_graph.py:110-115 | One Graphviz node line per file. |
| Graph.TextEdgeLines | dependency_graph.py:152-153 | One text edge line per edge. |
| Graph.GvEdgeLines | dependency_graph.py:154-156 | One Graphviz edge line per edge. |
| Graph.Members | dependency_graph.py:142 | One cluster member number per file of the group. |
| Graph.MemberLines | dependency_graph.py:166-167 | One member line per member number. |
| Graph.MembersIff | dependency_graph.py:142 | A file's number is among a group's members exactly when the file is in the group. |
| Graph.FileInOneCluster | dependency_graph.py:140-142 | Each file's number is a member of the cluster of its own directory and of no other. |
| Graph.Stems | dependency_graph.py:76 | One node name per root. |
| Graph.HeaderInjective | dependency_graph.py:171 | Two count headers are equal only when they show the same node count and the same edge count. |
| Graph.CountsLineInjective | dependency_graph.py:171 | The header text determines the digit strings of both counts. |
| Graph.HeaderRecoversCounts | dependency_graph.py:169-171 | In a text dump, the first line is the header for `(n, e)` exactly when `n` is the number of files and `e` the number of edges. |
| Graph.Discover | dependency_graph.py:75-81 | The files of each root in turn, or the first root that cannot be listed. It has no contract of its own; `DiscoverFailsAtFirstUnlistable` states it. |
| Graph.DiscoverStopsAtFailure | dependency_graph.py:78-79 | Once a root fails, discovery over all the roots fails the same way. |
| Graph.DiscoverFailsAtFirstUnlistable | dependency_graph.py:75-81 | Discovery succeeds exactly when every root can be listed; otherwise it reports the first root that cannot. |
| Graph.DiscoverOneRoot | dependency_graph.py:81 | A single root is discovered by listing it. It fails exactly when that root cannot be listed. |
| Graph.SingleRootAgrees | dependency_graph.py:75-82 | A folder without a comma is one root, and both ways of naming the graph agree on it. |
| Graph.VisitedAreTheFiles | dependency_graph.py:124-128 | The graph loop visits every discovered file and nothing else. |
| Graph.EdgesIff | dependency_graph.py:145-151 | Every edge of a run joins two different discovered files, where the includer has a token that resolves to the included file, and it carries the includer's colour. Every such pair gets an edge. |
| Graph.EdgeEndsAreFiles | dependency_graph.py:150 | Both ends of every edge are discovered files. |
| Graph.FileIsNumbered | dependency_graph.py:94 | A discovered file's number lies in `1..N` and names that file. |
| Graph.EdgeEndsAreNumbered | dependency_graph.py:150-156 | The numbers written for both ends of an edge lie in `1..N` and name those very files. |
| Graph.UnresolvedOfIff | dependency_graph.py:147-149 | The unresolved record of a run, over any resolver: exactly the tokens of a directory's files that resolve nowhere. |
| Graph.UnresolvedIffNowhere | dependency_graph.py:147-149 | A token is reported under directory `d` exactly when a discovered file of `d` includes it and it exists under no candidate directory. No directory is reported without a token. |
| Graph.Build | dependency_graph.py:84-176 | A run has one graph edge per include edge. The text dump is written exactly when `text` is set, the Graphviz dump exactly when `gv` is set. `EdgesIff`, `UnresolvedIffNowhere`, `TextDumpShape` and `ClusterBlockOfFile` give their contents. |
| Graph.CreateGraphSpec | dependency_graph.py:71-180 | `create_graph` succeeds exactly when every root can be listed. A failure names a root that cannot be listed. A success is the run over the discovered files under the graph's name. |
| Graph.FlipOnlyTurnsGraphEdges | dependency_graph.py:151-156 | `flip` turns every graph edge around and changes nothing else. Both dumps write the includer first either way. |
| Graph.TextDumpLayout | dependency_graph.py:95-171 | The text dump has N + E + 3 lines: the count header, "Nodes:", the node line `i + 1` and label of each file in order, "Edges:", then one line per edge in order. |
| Graph.TextDumpNodes | dependency_graph.py:97-105 | In the text dump, line `2 + i` is the node line of the `i`-th file. |
| Graph.TextDumpShape | dependency_graph.py:95-171 | The same for a run: header, headings, one node line per file with its number and label, one line per edge. The header's edge count is the number of graph edges. |
| Graph.GvDumpWithoutClusters | dependency_graph.py:107-175 | Without clusters, the Graphviz dump is the opening line, the node lines, one edge line per edge in order, and the closing brace. |
| Graph.FoldersGvLinesWithoutClusters | dependency_graph.py:124-168 | Without clusters, the directories' Graphviz lines are the edge lines of the files visited. |
| Graph.FoldersGvLinesSilent | dependency_graph.py:154-168 | Without the Graphviz dump, no Graphviz line is written. |
| Graph.FoldersGvLinesHaveBlock | dependency_graph.py:157-168 | With clusters, the block of each directory lies within the directories' Graphviz lines. |
| Graph.ClusterBlockOfFile | dependency_graph.py:157-168 | With clusters, each file's directory has a block in the Graphviz dump. The block is numbered by the directory's position, labelled with its cluster name, and lists the file's number. |
| Builder.NodeLabel | dependency_graph.py:98-101 | The node label is the path with `show_path`, otherwise `normalize(p) + get_extension(p)`; a base name for every discovered file (`LabelIsBasename`). |
| Builder.ColorOf | dependency_graph.py:129-139 | The colour chosen is the includer's kind (`EdgeColorByKind`). |
| Builder.MemberListing | dependency_graph.py:166-167 | The member loop writes one line per member number, in order. |
| Builder.GraphBuilder.constructor | dependency_graph.py:89-94 | A builder starts with the node set and the numbering of the files, and no edge, unresolved token, line or cluster. |
| Builder.GraphBuilder.WriteTextNodes | dependency_graph.py:95-106 | With `text`, the text dump starts with its two headings, one node line per file, then "Edges:". Nothing else changes. |
| Builder.GraphBuilder.WriteGvNodes | dependency_graph.py:107-115 | With `gv`, the Graphviz dump starts with the opening line and one node line per file. Nothing else changes. |
| Builder.GraphBuilder.AddInclude | dependency_graph.py:147-156 | One token: a token that resolves nowhere is recorded under the file's dirname. One that resolves to another node adds a graph edge, a text line and a Graphviz line. |
| Builder.GraphBuilder.AddEdge | dependency_graph.py:151-156 | One include adds its oriented graph edge, and its text and Graphviz lines when those dumps are written. |
| Builder.GraphBuilder.AddIncludesOf | dependency_graph.py:145-156 | A file's include loop adds exactly the file's edges, in token order, and records its unresolved tokens. |
| Builder.GraphBuilder.AddMember | dependency_graph.py:128-156 | One file of a group extends what the files before it wrote, and adds its number to the members when clusters are drawn. |
| Builder.GraphBuilder.AddGroup | dependency_graph.py:128-156 | A directory's files, in order, add exactly their edges and unresolved tokens, and collect the cluster's members when clusters are drawn. |
| Builder.GraphBuilder.WriteCluster | dependency_graph.py:157-168 | With clusters and `gv`, the cluster block is written with the counter's number and the counter goes up by one. Otherwise nothing changes. |
| Builder.GraphBuilder.AddFolder | dependency_graph.py:124-168 | One directory adds its edges and unresolved tokens, then its Graphviz lines, numbered by the counter. |
| Builder.GraphBuilder.AddFolders | dependency_graph.py:123-168 | The directories in order, the `i`-th drawn as cluster `i`. The result is the edges, the unresolved record and the lines of the whole visit. The cluster counter ends at the number of directories when clusters are drawn, and stays 0 otherwise. |
| Builder.GraphBuilder.Finish | dependency_graph.py:169-175 | The header's edge count is the number of lines minus N + 3, and the Graphviz dump gets its closing brace. |
| Builder.GraphBuilder.Assemble | dependency_graph.py:89-176 | On a fresh builder, the node lines, each directory's includes and cluster, the count header and the closing brace leave exactly what `Build` describes. |
| Builder.RunIsBuild | dependency_graph.py:84-176 | The edges, unresolved record and dumps a run leaves make up `Build`. |
| Builder.RunGraphIsBuild | dependency_graph.py:124-151 | The graph edges and unresolved record a run leaves are those `Build` describes. |
| Builder.RunTextIsBuild | dependency_graph.py:169-171 | The text dump a run leaves is the one `Build` describes. |
| Builder.RunGvIsBuild | dependency_graph.py:107-175 | The Graphviz dump a run leaves is the one `Build` describes. |
| Builder.Run | dependency_graph.py:84-176 | Graph building over the discovered files returns `Build`. `EdgesIff`, `UnresolvedIffNowhere`, `TextDumpShape`, `GvDumpWithoutClusters` and `ClusterBlockOfFile` characterise it. |
| Builder.DiscoverFiles | dependency_graph.py:75-81 | Each root's files follow those of the roots before it; the result fails at the first root that cannot be listed (`DiscoverFailsAtFirstUnlistable`). |
| Builder.CreateGraph | dependency_graph.py:71-180 | `create_graph` fails at the first unlistable root, and otherwise returns the run over the discovered files under the name `n_folder`. |

## Left out

- The Graphviz library is not modelled: `Digraph`, `graph.node`, `cluster.node`, `graph.subgraph`, `cluster.attr`, `graph.edge` and `render` (dependency_graph.py:6,91,126,141,144,151,162,206-207). They belong to a foreign library. The graph is kept as its sequence of `graph.edge` calls (`GraphEdge`), and node labels as the values the dumps write.
- `strict` is not modelled (dependency_graph.py:71,91,194). Merging multi-edges happens inside the Graphviz library.
- The command line is not modelled (dependency_graph.py:183-207). It only parses arguments and calls `create_graph`.
- `count_lines` and the `lines` option are not modelled (dependency_graph.py:56-58,102-103). They are file reads. The model writes the node line of the case without `lines`.
- Writing `graph.txt` and `graph.gv` to disk is not modelled (dependency_graph.py:170,172,174,176). The model keeps the line lists that would be written.
- The prints are not modelled (dependency_graph.py:122,177-178). They are diagnostics.
- Builder.CreateGraph: does not model the call `find_neighbors("/ssd/dev/sgb/include/sgb/shuffle/shuffle.h")` (dependency_graph.py:117). As written, `create_graph` raises `FileNotFoundError` on any machine that lacks that file, and its result is never used. `CreateGraph` and `CreateGraphSpec` describe the program with that line removed.
- Catalog.FindAllFiles: a listing is a finite `Entry` tree that can be listed all the way down. An `os.scandir` failure below a root is not modelled: a `PermissionError`, or a symbolic-link cycle that ends in `RecursionError`. Only a root that cannot be listed fails (`FileSystem.scan` returns `None`).
- Extractor.FindNeighbors: reading is total (`FileSystem.read`), but `codecs.open` raises on a file that cannot be opened. Decoding with `"ignore"` is taken as given, as the text `read` returns.
- Resolver.GetAbsolutePath: `os.path.exists` and `os.path.normpath` are the free functions `pathExists` and `normpath`. They are not tied to the `Entry` tree, and `normpath` is not interpreted.
- Catalog.FindAllFiles: the order of an `os.scandir` listing is taken as given, as the order of the `Entry` sequence.
- Python's `str.isspace` is a fixed set of characters (`Strings.IsSpace`), the ASCII ones and the Unicode spaces. No other Unicode processing is modelled.
