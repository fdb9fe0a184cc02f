/**
 * `pathlib.PurePosixPath` as the S3 code uses it: a path is an anchor ("", "/" or "//")
 * and a sequence of segments. Parsing drops empty and "." segments; `str` joins them again.
 * S3 object keys, local destination paths and upload keys are all values of this type.
 */
module PosixPath {
  import Text

  datatype Path = Path(anchor: string, segs: seq<string>)

  predicate ValidSegment(s: string)
  {
    s != "" && s != "." && '/' !in s
  }

  predicate ValidAnchor(a: string)
  {
    a == "" || a == "/" || a == "//"
  }

  /** What `PurePosixPath` can represent: every parsed path satisfies this. */
  predicate Valid(p: Path)
  {
    ValidAnchor(p.anchor) && forall i :: 0 <= i < |p.segs| ==> ValidSegment(p.segs[i])
  }

  /** The root a string starts with: exactly two slashes are kept, one or three or more become "/". */
  function AnchorOf(s: string): string
  {
    if |s| >= 2 && s[0] == '/' && s[1] == '/' && (|s| == 2 || s[2] != '/') then "//"
    else if |s| >= 1 && s[0] == '/' then "/"
    else ""
  }

  /** The pieces of a split string that become segments (empty and "." pieces are dropped). */
  function KeepSegments(pieces: seq<string>): (r: seq<string>)
    ensures forall i :: 0 <= i < |r| ==> r[i] != "" && r[i] != "."
    ensures |r| <= |pieces|
  {
    if pieces == [] then []
    else if pieces[0] == "" || pieces[0] == "." then KeepSegments(pieces[1..])
    else [pieces[0]] + KeepSegments(pieces[1..])
  }

  /** Every kept segment is one of the pieces. */
  lemma {:induction false} KeepSegmentsFrom(pieces: seq<string>, i: nat)
    requires i < |KeepSegments(pieces)|
    ensures KeepSegments(pieces)[i] in pieces
  {
    if pieces[0] == "" || pieces[0] == "." {
      KeepSegmentsFrom(pieces[1..], i);
    } else if i > 0 {
      KeepSegmentsFrom(pieces[1..], i - 1);
    }
  }

  /** `PurePosixPath(s)`. */
  function Parse(s: string): (p: Path)
    ensures Valid(p)
  {
    var pieces := Text.Split(s, '/');
    var segs := KeepSegments(pieces);
    assert forall i :: 0 <= i < |segs| ==> ValidSegment(segs[i]) by {
      forall i | 0 <= i < |segs| ensures ValidSegment(segs[i]) {
        KeepSegmentsFrom(pieces, i);
        var k :| 0 <= k < |pieces| && pieces[k] == segs[i];
      }
    }
    Path(AnchorOf(s), segs)
  }

  /** `str(p)`: the anchor followed by the segments joined with "/", or "." for the empty path. */
  function Str(p: Path): string
  {
    var body := p.anchor + Text.Join(p.segs, '/');
    if body == "" then "." else body
  }

  /** `p.parts`: the anchor (when there is one) followed by the segments. */
  function Parts(p: Path): seq<string>
  {
    (if p.anchor == "" then [] else [p.anchor]) + p.segs
  }

  /** `p.name`: the last segment, or "" when there is none. */
  function Name(p: Path): string
  {
    if p.segs == [] then "" else p.segs[|p.segs| - 1]
  }

  /** `p.relative_to(p.anchor)`: the same segments without the anchor. */
  function RelativeToAnchor(p: Path): Path
  {
    Path("", p.segs)
  }

  /** `base / rel`: an anchored right operand replaces the left one. */
  function JoinPath(base: Path, rel: Path): Path
  {
    if rel.anchor != "" then rel else Path(base.anchor, base.segs + rel.segs)
  }

  /** `base / s` for a string operand. */
  function JoinStr(base: Path, s: string): Path
  {
    JoinPath(base, Parse(s))
  }

  // ---------------------------------------------------------------------------
  // Lemmas
  // ---------------------------------------------------------------------------

  lemma {:induction false} KeepSegmentsAppend(a: seq<string>, b: seq<string>)
    ensures KeepSegments(a + b) == KeepSegments(a) + KeepSegments(b)
  {
    if a != [] {
      assert (a + b)[1..] == a[1..] + b;
      KeepSegmentsAppend(a[1..], b);
    } else {
      assert a + b == b;
    }
  }

  lemma {:induction false} KeepValidSegments(segs: seq<string>)
    requires forall i :: 0 <= i < |segs| ==> ValidSegment(segs[i])
    ensures KeepSegments(segs) == segs
  {
    if segs != [] {
      KeepValidSegments(segs[1..]);
      assert [segs[0]] + segs[1..] == segs;
    }
  }

  /** The string `segs` joins to starts without a slash. */
  lemma JoinedStart(segs: seq<string>)
    requires |segs| >= 1
    requires forall i :: 0 <= i < |segs| ==> ValidSegment(segs[i])
    ensures Text.Join(segs, '/') != "" && Text.Join(segs, '/')[0] != '/'
  {
    assert ValidSegment(segs[0]);
    var j := Text.Join(segs, '/');
    if |segs| > 1 {
      assert j == segs[0] + ['/'] + Text.Join(segs[1..], '/');
    }
    assert j[0] == segs[0][0];
  }

  lemma SplitAfterSlash(t: string)
    ensures Text.Split("/" + t, '/') == [""] + Text.Split(t, '/')
  {
    assert ("/" + t)[1..] == t;
  }

  /** The round trip for a path with at least one segment, whatever its anchor. */
  lemma ParseStrSegments(p: Path)
    requires Valid(p) && p.segs != []
    ensures Parse(Str(p)) == p
  {
    var j := Text.Join(p.segs, '/');
    JoinedStart(p.segs);
    Text.SplitJoin(p.segs, '/');
    KeepValidSegments(p.segs);
    if p.anchor == "/" {
      ParseStrRooted(p, j);
    } else if p.anchor == "//" {
      ParseStrDoubleRooted(p, j);
    } else {
      assert Str(p) == j;
    }
  }

  /** A rooted path reads back from its string: the leading slash only adds an empty first piece. */
  lemma ParseStrRooted(p: Path, j: string)
    requires p.anchor == "/" && j == Text.Join(p.segs, '/')
    requires j != "" && j[0] != '/'
    requires Text.Split(j, '/') == p.segs && KeepSegments(p.segs) == p.segs
    ensures Parse(Str(p)) == p
  {
    assert Str(p) == "/" + j;
    SplitAfterSlash(j);
    KeepSegmentsAppend([""], p.segs);
  }

  /** A path under the "//" root reads back from its string: two empty first pieces, both dropped. */
  lemma ParseStrDoubleRooted(p: Path, j: string)
    requires p.anchor == "//" && j == Text.Join(p.segs, '/')
    requires j != "" && j[0] != '/'
    requires Text.Split(j, '/') == p.segs && KeepSegments(p.segs) == p.segs
    ensures Parse(Str(p)) == p
  {
    var str := "/" + ("/" + j);
    assert Str(p) == str;
    assert str[0] == '/' && str[1] == '/' && str[2] == j[0];
    assert AnchorOf(str) == "//";
    SplitAfterSlash("/" + j);
    SplitAfterSlash(j);
    assert Text.Split(str, '/') == [""] + ([""] + p.segs);
    KeepSegmentsAppend([""], [""] + p.segs);
    KeepSegmentsAppend([""], p.segs);
    assert KeepSegments([""]) == [];
    assert KeepSegments([""] + ([""] + p.segs)) == p.segs;
  }

  /** `PurePosixPath(str(p)) == p`: `str` loses nothing, so a path is determined by its string. */
  lemma ParseStr(p: Path)
    requires Valid(p)
    ensures Parse(Str(p)) == p
  {
    if p.segs != [] {
      ParseStrSegments(p);
    } else if p.anchor == "" {
      assert Str(p) == ".";
      Text.SplitWithoutSep(".", '/');
    } else if p.anchor == "/" {
      assert Str(p) == "/" + "";
      SplitAfterSlash("");
      assert Text.Split("", '/') == [""];
      assert KeepSegments([""] + [""]) == [];
    } else {
      assert Str(p) == "/" + ("/" + "");
      SplitAfterSlash("/" + "");
      SplitAfterSlash("");
      assert Text.Split("", '/') == [""];
      assert KeepSegments([""] + ([""] + [""])) == [];
    }
  }

  /** Different paths have different strings. */
  lemma StrInjective(p: Path, q: Path)
    requires Valid(p) && Valid(q)
    requires Str(p) == Str(q)
    ensures p == q
  {
    ParseStr(p);
    ParseStr(q);
  }

  /** A path's name read back as a path is the one-segment relative path. */
  lemma ParseName(p: Path)
    requires Valid(p) && p.segs != []
    ensures Parse(Name(p)) == Path("", [Name(p)])
  {
    var n := Name(p);
    assert ValidSegment(n);
    Text.SplitWithoutSep(n, '/');
    KeepValidSegments([n]);
  }

  /** Parsing the empty string gives the empty relative path ".". */
  lemma ParseEmpty()
    ensures Parse("") == Path("", [])
  {
    assert Text.Split("", '/') == [""];
  }
}
