/**
 * `print_file_structure`, in its two forms. The S3 helper classes build the folder tree from
 * `file.parts` and hand it to a rich `Tree`. The older `S3Utils` builds it from the segments
 * of `str(file).split("/")` and prints it with `print_hierarchy`.
 */
module FileStructure {
  import Seqs
  import Text
  import P = PosixPath
  import opened FolderTree

  /** What a call shows: a log message for an empty list, or the tree it built. */
  datatype Display = NoFiles(message: string) | Tree(nodes: seq<Node>, lines: seq<string>)

  const NoFilesMessage := "No files to display."
  const ListingHeader := "Listing file structure:"

  /** The keys of the rich-tree variant: each path's `parts`. */
  function PartsKeys(files: seq<P.Path>): (r: seq<seq<string>>)
    ensures |r| == |files| && forall i :: 0 <= i < |files| ==> r[i] == P.Parts(files[i])
  {
    if files == [] then [] else [P.Parts(files[0])] + PartsKeys(files[1..])
  }

  /** The keys of the `S3Utils` variant: each path's string split on "/". */
  function SplitKeys(files: seq<P.Path>): (r: seq<seq<string>>)
    ensures |r| == |files| && forall i :: 0 <= i < |files| ==> r[i] == Text.Split(P.Str(files[i]), '/')
  {
    if files == [] then [] else [Text.Split(P.Str(files[0]), '/')] + SplitKeys(files[1..])
  }

  /**
   * The rich-tree `print_file_structure`: nothing but a log line for an empty list, otherwise
   * the tree of every file's parts, with each file's parts a root-to-node path.
   */
  method ShowStructure(files: seq<P.Path>) returns (d: Display)
    ensures files == [] <==> d.NoFiles?
    ensures d.NoFiles? ==> d.message == NoFilesMessage
    ensures d.Tree? ==> d.nodes == TreeOf(PartsKeys(files)) && d.lines == [] && WellFormed(d.nodes)
    ensures d.Tree? ==> forall n :: n in d.nodes <==> InKeys(PartsKeys(files), n)
  {
    if files == [] {
      return NoFiles(NoFilesMessage);
    }
    var nodes := BuildTree(PartsKeys(files));
    d := Tree(nodes, []);
  }

  /**
   * The `S3Utils` `print_file_structure`: the header, then one `print_hierarchy` line per
   * node of the tree of split segments.
   */
  method PrintFileStructure(files: seq<P.Path>) returns (d: Display)
    ensures files == [] <==> d.NoFiles?
    ensures d.NoFiles? ==> d.message == NoFilesMessage
    ensures d.Tree? ==> d.nodes == TreeOf(SplitKeys(files)) && WellFormed(d.nodes)
    ensures d.Tree? ==> d.lines == [ListingHeader] + Render(d.nodes)
    ensures d.Tree? ==> |d.lines| == 1 + |d.nodes|
  {
    if files == [] {
      return NoFiles(NoFilesMessage);
    }
    var nodes := BuildTree(SplitKeys(files));
    RenderCount(nodes);
    d := Tree(nodes, [ListingHeader] + Render(nodes));
  }

  /** The pieces the anchor contributes to `str(p).split("/")`. */
  function AnchorPieces(anchor: string): seq<string>
  {
    if anchor == "" then [] else if anchor == "/" then [""] else ["", ""]
  }

  /**
   * How `str(p).split("/")` differs from `p.parts`: the anchor becomes empty pieces, a bare
   * anchor leaves one more empty piece, and the empty path splits to ".".
   */
  lemma SplitStr(p: P.Path)
    requires P.Valid(p)
    ensures Text.Split(P.Str(p), '/') == AnchorPieces(p.anchor)
      + (if p.segs != [] then p.segs else if p.anchor == "" then ["."] else [""])
  {
    if p.segs != [] {
      SplitStrSegments(p);
    } else if p.anchor == "" {
      assert P.Str(p) == ".";
      Text.SplitWithoutSep(".", '/');
    } else if p.anchor == "/" {
      assert P.Str(p) == "/" + "";
      P.SplitAfterSlash("");
      assert Text.Split("", '/') == [""];
    } else {
      assert P.Str(p) == "/" + ("/" + "");
      P.SplitAfterSlash("/" + "");
      P.SplitAfterSlash("");
      assert Text.Split("", '/') == [""];
    }
  }

  /** A path with segments splits into its anchor's empty pieces followed by the segments. */
  lemma SplitStrSegments(p: P.Path)
    requires P.Valid(p) && p.segs != []
    ensures Text.Split(P.Str(p), '/') == AnchorPieces(p.anchor) + p.segs
  {
    var j := Text.Join(p.segs, '/');
    Text.SplitJoin(p.segs, '/');
    P.JoinedStart(p.segs);
    if p.anchor == "/" {
      assert P.Str(p) == "/" + j;
      P.SplitAfterSlash(j);
    } else if p.anchor == "//" {
      assert P.Str(p) == "/" + ("/" + j);
      P.SplitAfterSlash("/" + j);
      P.SplitAfterSlash(j);
      Seqs.Regroup([""], [""], p.segs);
    } else {
      assert P.Str(p) == j;
    }
  }

  /** Splitting a path's string gives an empty segment exactly when the path is anchored. */
  lemma EmptyPieceIffAnchored(p: P.Path)
    requires P.Valid(p)
    ensures "" in Text.Split(P.Str(p), '/') <==> p.anchor != ""
    ensures p.anchor != "" <==> Text.Split(P.Str(p), '/')[0] == ""
  {
    SplitStr(p);
    if p.segs != [] {
      assert P.ValidSegment(p.segs[0]);
    }
  }

  /**
   * The `S3Utils` tree has a top-level node named "" exactly when one of the listed paths is
   * anchored: `str(file)` of a `PurePosixPath` has no doubled or trailing slash, so only a
   * leading one leaves an empty segment.
   */
  lemma EmptyTopNode(files: seq<P.Path>)
    requires forall i :: 0 <= i < |files| ==> P.Valid(files[i])
    ensures [""] in TreeOf(SplitKeys(files)) <==> exists i :: 0 <= i < |files| && files[i].anchor != ""
  {
    var keys := SplitKeys(files);
    TopNode(keys, "");
    forall i | 0 <= i < |files| ensures files[i].anchor != "" <==> keys[i][0] == "" {
      EmptyPieceIffAnchored(files[i]);
    }
  }

  /** In the rich-tree variant the top-level nodes are the anchors and the first segments of relative paths. */
  lemma PartsTopNode(files: seq<P.Path>, name: string)
    ensures [name] in TreeOf(PartsKeys(files)) <==>
      exists i :: 0 <= i < |files| && P.Parts(files[i]) != [] && P.Parts(files[i])[0] == name
  {
    TopNode(PartsKeys(files), name);
  }
}
