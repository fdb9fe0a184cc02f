/**
 * The logic of `S3ManagerGUI`, the Jupyter front end over the S3 manager: input validation,
 * the operation dispatch, the folder list offered for download and the files a confirmed
 * selection downloads. Widgets are fields of the class; the S3 manager is seen only through
 * the calls the GUI makes on it and the listings it returns.
 */
module S3Gui {
  import opened Wrappers
  import Text
  import P = PosixPath
  import FolderTree
  import opened Seqs

  /** A call the GUI makes on its S3 manager. */
  datatype Call =
    | ListFiles(bucket: string, prefix: string)
    | UploadFiles(bucket: string, prefix: string, files: seq<P.Path>)
    | DownloadFiles(bucket: string, files: seq<P.Path>, base: P.Path, keepStructure: bool)

  /** The handler a button click runs. */
  datatype Handler = UploadHandler | DownloadHandler

  const BucketRequired := "Bucket name is required"
  const FolderRequired := "Local folder is required"
  const NoFolders := "No folders found for download"
  const NoSelection := "Select at least one folder"
  const Retrieving := "Retrieving S3 structure..."
  const StartingDownload := "Starting download..."
  /** What `parts[-1]` raises on a path without parts. */
  const IndexError := "tuple index out of range"
  /** What `Path(None)` raises when no local folder is chosen. */
  const PathOfNone := "expected str, bytes or os.PathLike object, not NoneType"

  /** `_show_error`: the line printed into the output widget. */
  function ErrorLine(message: string): string
  {
    "Error: " + message
  }

  function CriticalLine(message: string): string
  {
    ErrorLine("Critical error: " + message)
  }

  function FoundLine(n: nat): string
  {
    "Found " + Text.NatToString(n) + " files for upload"
  }

  /** The folder chooser's `selected` is truthy: a folder was chosen and its path is not empty. */
  predicate Chosen(selected: Option<string>)
  {
    selected.Some? && selected.value != ""
  }

  // ---------------------------------------------------------------------------
  // Validation and dispatch
  // ---------------------------------------------------------------------------

  /** The message of the first field, in order, whose value is falsy. */
  function FirstMissing(fields: seq<(bool, string)>): Option<string>
  {
    if fields == [] then None
    else if !fields[0].0 then Some(fields[0].1)
    else FirstMissing(fields[1..])
  }

  /** Nothing is missing exactly when every field is truthy; otherwise the first falsy one is reported. */
  lemma {:induction false} FirstMissingFacts(fields: seq<(bool, string)>)
    ensures FirstMissing(fields).None? <==> forall i :: 0 <= i < |fields| ==> fields[i].0
    ensures FirstMissing(fields).Some? ==> exists i :: (0 <= i < |fields| && !fields[i].0
      && FirstMissing(fields).value == fields[i].1 && forall j :: 0 <= j < i ==> fields[j].0)
  {
    if fields != [] && fields[0].0 {
      var rest := fields[1..];
      FirstMissingFacts(rest);
      forall i | 1 <= i < |fields| ensures fields[i] == rest[i - 1] {
      }
      if FirstMissing(rest).Some? {
        var i :| 0 <= i < |rest| && !rest[i].0 && FirstMissing(rest).value == rest[i].1
          && forall j :: 0 <= j < i ==> rest[j].0;
        assert 0 <= i + 1 < |fields| && !fields[i + 1].0 && FirstMissing(fields).value == fields[i + 1].1;
      }
    }
  }

  /** `_validate_inputs`' table: the bucket name first, then the local folder. */
  function RequiredFields(bucket: string, selected: Option<string>): seq<(bool, string)>
  {
    [(bucket != "", BucketRequired), (Chosen(selected), FolderRequired)]
  }

  /** The bucket is checked before the folder, and only the first empty field is reported. */
  lemma ValidationOrder(bucket: string, selected: Option<string>)
    ensures FirstMissing(RequiredFields(bucket, selected)) ==
      if bucket == "" then Some(BucketRequired)
      else if !Chosen(selected) then Some(FolderRequired)
      else None
  {
    var fields := RequiredFields(bucket, selected);
    var rest := fields[1..];
    assert rest == [(Chosen(selected), FolderRequired)];
    assert rest[1..] == [];
    assert FirstMissing(rest) == if !Chosen(selected) then Some(FolderRequired) else FirstMissing(rest[1..]);
  }

  /** `_on_process_click`'s dispatch: 'Download' runs the upload handler, anything else the download one. */
  function Route(operation: string): (h: Handler)
    ensures h == UploadHandler <==> operation == "Download"
  {
    if operation == "Download" then UploadHandler else DownloadHandler
  }

  // ---------------------------------------------------------------------------
  // _extract_s3_folders
  // ---------------------------------------------------------------------------

  /** A path's parts without a last part that contains '.'. */
  function KeptParts(p: P.Path): seq<string>
  {
    var parts := P.Parts(p);
    if parts != [] && '.' in parts[|parts| - 1] then parts[..|parts| - 1] else parts
  }

  /** `PurePosixPath(*parts)` for parts taken from a path: a leading anchor stays the anchor. */
  function FromParts(parts: seq<string>): P.Path
  {
    if parts != [] && (parts[0] == "/" || parts[0] == "//") then P.Path(parts[0], parts[1..])
    else P.Path("", parts)
  }

  /** The folders a list of parts names: `str(PurePosixPath(*parts[:i]))` for each `i` from 1 on. */
  function PartFolders(parts: seq<string>): (r: seq<string>)
    ensures |r| == |parts|
  {
    if parts == [] then [] else PartFolders(parts[..|parts| - 1]) + [P.Str(FromParts(parts))]
  }

  /** The `i`-th folder is the string of the first `i` parts. */
  lemma {:induction false} PartFoldersAt(parts: seq<string>, i: nat)
    requires 1 <= i <= |parts|
    ensures PartFolders(parts)[i - 1] == P.Str(FromParts(parts[..i]))
    decreases |parts|
  {
    if i < |parts| {
      var init := parts[..|parts| - 1];
      PartFoldersAt(init, i);
      assert init[..i] == parts[..i];
    } else {
      assert parts[..i] == parts;
    }
  }

  /** The folders of one listed path, from its kept parts. */
  function PathFolders(p: P.Path): (r: seq<string>)
    ensures |r| == |KeptParts(p)|
  {
    PartFolders(KeptParts(p))
  }

  /** Add to `acc`, in order, those of `xs` that are not there yet: `set.add` on a list. */
  function AddNew(acc: seq<string>, xs: seq<string>): seq<string>
    decreases |xs|
  {
    if xs == [] then acc
    else AddNew(if xs[0] in acc then acc else acc + [xs[0]], xs[1..])
  }

  /** A listed path has no parts, so `parts[-1]` raises. */
  predicate NoParts(files: seq<P.Path>)
  {
    files != [] && (NoParts(files[..|files| - 1]) || P.Parts(files[|files| - 1]) == [])
  }

  /** `NoParts` holds exactly when some listed path has no parts. */
  lemma {:induction false} NoPartsIff(files: seq<P.Path>)
    ensures NoParts(files) <==> exists k :: 0 <= k < |files| && P.Parts(files[k]) == []
  {
    if files != [] {
      var init := files[..|files| - 1];
      NoPartsIff(init);
      if exists k :: 0 <= k < |init| && P.Parts(init[k]) == [] {
        var k :| 0 <= k < |init| && P.Parts(init[k]) == [];
        assert files[k] == init[k];
      }
      if exists k :: 0 <= k < |files| && P.Parts(files[k]) == [] {
        var k :| 0 <= k < |files| && P.Parts(files[k]) == [];
        if k < |init| {
          assert init[k] == files[k];
        }
      }
    }
  }

  /** The folders of the listed paths, in the order they were first added. */
  function Folders(files: seq<P.Path>): seq<string>
  {
    if files == [] then [] else AddNew(Folders(files[..|files| - 1]), PathFolders(files[|files| - 1]))
  }

  /** `_extract_s3_folders`: the folders, or the `IndexError` a listed path without parts raises. */
  function ExtractFolders(files: seq<P.Path>): Result<seq<string>, string>
  {
    if NoParts(files) then Err(IndexError) else Ok(Folders(files))
  }

  /** `f` is a folder of one of the listed paths. */
  predicate FolderOf(files: seq<P.Path>, f: string)
  {
    files != [] && (FolderOf(files[..|files| - 1], f) || f in PathFolders(files[|files| - 1]))
  }

  /** A folder of a listed path: the path it comes from. */
  lemma {:induction false} FolderOfSource(files: seq<P.Path>, f: string) returns (j: nat)
    requires FolderOf(files, f)
    ensures j < |files| && f in PathFolders(files[j])
  {
    var init := files[..|files| - 1];
    if f in PathFolders(files[|files| - 1]) {
      j := |files| - 1;
    } else {
      j := FolderOfSource(init, f);
      assert files[j] == init[j];
    }
  }

  /** Every folder of a listed path is a folder of the listing. */
  lemma {:induction false} FolderOfFrom(files: seq<P.Path>, j: nat, f: string)
    requires j < |files| && f in PathFolders(files[j])
    ensures FolderOf(files, f)
  {
    if j < |files| - 1 {
      var init := files[..|files| - 1];
      assert init[j] == files[j];
      FolderOfFrom(init, j, f);
    }
  }

  /** `_extract_s3_folders`: the set built in two nested loops, as the list the set holds. */
  method ExtractS3Folders(files: seq<P.Path>) returns (r: Result<seq<string>, string>)
    ensures r == ExtractFolders(files)
  {
    var folders: seq<string> := [];
    ghost var seen: seq<P.Path> := [];
    var k := 0;
    while k < |files|
      invariant 0 <= k <= |files| && seen == files[..k]
      invariant !NoParts(seen) && folders == Folders(seen)
    {
      var parts := P.Parts(files[k]);
      if parts == [] {
        RaisesAt(files, k);
        return Err(IndexError);
      }
      if '.' in parts[|parts| - 1] {
        parts := parts[..|parts| - 1];
      }
      assert parts == KeptParts(files[k]);
      folders := AddPartFolders(folders, parts);
      FoldersSnoc(seen, files[k]);
      TakeSnoc(files, k);
      seen := seen + [files[k]];
      k := k + 1;
    }
    TakeAll(files);
    r := Ok(folders);
  }

  /** The inner loop of `_extract_s3_folders`: add `str(PurePosixPath(*parts[:i]))` for each `i`. */
  method AddPartFolders(start: seq<string>, parts: seq<string>) returns (folders: seq<string>)
    ensures folders == AddNew(start, PartFolders(parts))
  {
    ghost var fs := PartFolders(parts);
    folders := start;
    var i := 1;
    while i <= |parts|
      invariant 1 <= i <= |parts| + 1
      invariant AddNew(start, fs) == AddNew(folders, fs[i - 1..])
      decreases |parts| + 1 - i
    {
      var folder := P.Str(FromParts(parts[..i]));
      PartFoldersAt(parts, i);
      assert fs[i - 1..][1..] == fs[i..];
      if folder !in folders {
        folders := folders + [folder];
      }
      i := i + 1;
    }
  }

  /** One more listed path adds its folders to those extracted so far. */
  lemma FoldersSnoc(files: seq<P.Path>, p: P.Path)
    ensures Folders(files + [p]) == AddNew(Folders(files), PathFolders(p))
    ensures NoParts(files + [p]) <==> NoParts(files) || P.Parts(p) == []
  {
    assert (files + [p])[..|files|] == files;
  }

  /** A listed path without parts makes the extraction raise. */
  lemma RaisesAt(files: seq<P.Path>, k: nat)
    requires k < |files| && P.Parts(files[k]) == []
    ensures ExtractFolders(files) == Err(IndexError)
  {
    NoPartsIff(files);
  }

  /** Adding the new ones keeps the list free of repeats and holds exactly the old and the added. */
  lemma {:induction false} AddNewFacts(acc: seq<string>, xs: seq<string>, f: string)
    requires FolderTree.Distinct(acc)
    ensures FolderTree.Distinct(AddNew(acc, xs))
    ensures f in AddNew(acc, xs) <==> f in acc || f in xs
    decreases |xs|
  {
    if xs != [] {
      var next := if xs[0] in acc then acc else acc + [xs[0]];
      AddNewFacts(next, xs[1..], f);
      assert xs == [xs[0]] + xs[1..];
    }
  }

  /**
   * `_extract_s3_folders` returns each folder once, and the folders are exactly the strings of
   * the non-empty part prefixes of the listed paths, without a dotted last part.
   */
  lemma {:induction false} FoldersFacts(files: seq<P.Path>)
    ensures FolderTree.Distinct(Folders(files))
    ensures forall f :: f in Folders(files) <==> FolderOf(files, f)
  {
    if files != [] {
      var init := files[..|files| - 1];
      var last := files[|files| - 1];
      FoldersFacts(init);
      forall f ensures f in Folders(files) <==> FolderOf(files, f) {
        AddNewFacts(Folders(init), PathFolders(last), f);
      }
      AddNewFacts(Folders(init), PathFolders(last), "");
    }
  }

  /** Parts of a valid path read back through `PurePosixPath(*parts)`. */
  lemma FromPartsPrefix(p: P.Path, i: nat)
    requires P.Valid(p) && 1 <= i <= |P.Parts(p)|
    ensures P.Valid(FromParts(P.Parts(p)[..i]))
    ensures P.Parts(FromParts(P.Parts(p)[..i])) == P.Parts(p)[..i]
  {
    var parts := P.Parts(p);
    if p.anchor == "" {
      assert P.ValidSegment(p.segs[0]);
      assert parts[..i] == p.segs[..i];
    } else {
      assert parts[..i][1..] == p.segs[..i - 1];
    }
  }

  /** Every folder, read back as a path, has as its parts a prefix of some listed path's parts. */
  lemma FolderIsPrefix(p: P.Path, i: nat)
    requires P.Valid(p) && 1 <= i <= |KeptParts(p)|
    ensures P.Parts(P.Parse(PathFolders(p)[i - 1])) == P.Parts(p)[..i]
  {
    assert KeptParts(p)[..i] == P.Parts(p)[..i];
    PartFoldersAt(KeptParts(p), i);
    FromPartsPrefix(p, i);
    P.ParseStr(FromParts(P.Parts(p)[..i]));
  }

  /** The folder set is closed under prefixes: the parent of a returned folder is returned too. */
  lemma {:induction false} FoldersPrefixClosed(files: seq<P.Path>, f: string)
    requires forall k :: 0 <= k < |files| ==> P.Valid(files[k])
    requires FolderOf(files, f)
    requires |P.Parts(P.Parse(f))| >= 2
    ensures var parts := P.Parts(P.Parse(f));
      FolderOf(files, P.Str(FromParts(parts[..|parts| - 1])))
  {
    var init := files[..|files| - 1];
    var last := files[|files| - 1];
    var fs := PathFolders(last);
    if f in fs {
      var m :| 0 <= m < |fs| && fs[m] == f;
      FolderParent(last, m);
      assert fs[m - 1] in fs;
    } else {
      assert forall k :: 0 <= k < |init| ==> P.Valid(init[k]) by {
        forall k | 0 <= k < |init| ensures P.Valid(init[k]) {
          assert init[k] == files[k];
        }
      }
      FoldersPrefixClosed(init, f);
    }
  }

  /** The folder before the `m`-th one of a path is the parent of the `m`-th. */
  lemma FolderParent(p: P.Path, m: nat)
    requires P.Valid(p) && m < |KeptParts(p)|
    ensures var parts := P.Parts(P.Parse(PathFolders(p)[m]));
      |parts| == m + 1 && (m >= 1 ==> PathFolders(p)[m - 1] == P.Str(FromParts(parts[..m])))
  {
    FolderIsPrefix(p, m + 1);
    if m >= 1 {
      var all := P.Parts(p);
      var kept := KeptParts(p);
      KeptIsPrefix(p);
      PrefixOfPrefix(all, m, m + 1);
      PrefixOfPrefix(all, m, |kept|);
      PartFoldersAt(kept, m);
    }
  }

  /** The kept parts are a prefix of the parts. */
  lemma KeptIsPrefix(p: P.Path)
    ensures KeptParts(p) == P.Parts(p)[..|KeptParts(p)|]
  {
  }

  /** A prefix of a prefix. */
  lemma PrefixOfPrefix<T>(s: seq<T>, a: nat, b: nat)
    requires a <= b <= |s|
    ensures s[..b][..a] == s[..a]
  {
  }

  /** What `_handle_download` lets escape: the manager's exception, else the extraction's. */
  function DownloadRaised(r: Result<seq<string>, string>, fault: Option<string>): (raised: Option<string>)
    ensures raised.None? <==> fault.None? && r.Ok?
  {
    if fault.Some? then fault else if r.Err? then Some(r.error) else None
  }

  /** `_handle_download` offers folders for selection: the listing worked and found some. */
  predicate Offers(r: Result<seq<string>, string>, fault: Option<string>)
  {
    fault.None? && r.Ok? && r.value != []
  }

  /** The lines `_on_process_click` leaves in the cleared output widget. */
  function ProcessLines(showFiles: bool, bucket: string, selected: Option<string>, operation: string,
                        files: seq<P.Path>, r: Result<seq<string>, string>, fault: Option<string>)
    : seq<string>
  {
    match FirstMissing(RequiredFields(bucket, selected))
    case Some(m) => [ErrorLine(m)]
    case None => DispatchLines(showFiles, operation, files, r, fault)
  }

  /** The lines the handler `operation` routes to prints, then the line for what it raises. */
  function DispatchLines(showFiles: bool, operation: string, files: seq<P.Path>,
                         r: Result<seq<string>, string>, fault: Option<string>): seq<string>
  {
    if Route(operation) == UploadHandler then UploadLines(showFiles, files) + CriticalLines(fault)
    else DownloadLines(r, fault) + CriticalLines(DownloadRaised(r, fault))
  }

  /** The call the handler `operation` routes to makes. */
  function DispatchCall(bucket: string, prefix: string, operation: string, files: seq<P.Path>): Call
  {
    if Route(operation) == UploadHandler then UploadFiles(bucket, prefix, files) else ListFiles(bucket, prefix)
  }

  /** What `_handle_upload` prints: the file count, when asked to show it. */
  function UploadLines(showFiles: bool, files: seq<P.Path>): seq<string>
  {
    if showFiles then [FoundLine(|files|)] else []
  }

  /** What `_handle_download` prints: the progress line, then the notice when there are no folders. */
  function DownloadLines(r: Result<seq<string>, string>, fault: Option<string>): seq<string>
  {
    [Retrieving] + (if fault.None? && r == Ok([]) then [ErrorLine(NoFolders)] else [])
  }

  /** The line `_on_process_click` prints for an exception that escapes a handler. */
  function CriticalLines(raised: Option<string>): seq<string>
  {
    if raised.Some? then [CriticalLine(raised.value)] else []
  }

  /** The calls `_on_process_click` makes on the S3 manager. */
  function ProcessCalls(bucket: string, prefix: string, selected: Option<string>, operation: string,
                        files: seq<P.Path>): seq<Call>
  {
    if FirstMissing(RequiredFields(bucket, selected)).Some? then []
    else [DispatchCall(bucket, prefix, operation, files)]
  }

  /** `_on_process_click` ends with folders offered for selection. */
  predicate ProcessOffers(bucket: string, selected: Option<string>, operation: string,
                          r: Result<seq<string>, string>, fault: Option<string>)
  {
    FirstMissing(RequiredFields(bucket, selected)).None? && Route(operation) == DownloadHandler && Offers(r, fault)
  }

  // ---------------------------------------------------------------------------
  // _on_confirm_click
  // ---------------------------------------------------------------------------

  /** `[f for f in files if '.' in f.name]`. */
  function Dotted(files: seq<P.Path>): (r: seq<P.Path>)
    ensures |r| <= |files|
  {
    if files == [] then []
    else (if '.' in P.Name(files[0]) then [files[0]] else []) + Dotted(files[1..])
  }

  /** A file is kept exactly when it was listed and its name contains '.'. */
  lemma {:induction false} DottedMembers(files: seq<P.Path>, f: P.Path)
    ensures f in Dotted(files) <==> f in files && '.' in P.Name(f)
  {
    if files != [] {
      DottedMembers(files[1..], f);
    }
  }

  /**
   * What the manager's `list_files` does for `(bucket, folder)`: the listed files, or the message
   * of an exception other than ClientError, which `list_files` does not catch.
   */
  type Listing = (string, string) -> Result<seq<P.Path>, string>

  /**
   * The loop of `_on_confirm_click`: the dotted files of each selected folder, in selection
   * order, or the message of the first listing that raises.
   */
  function ConfirmFiles(listing: Listing, bucket: string, folders: seq<string>): Result<seq<P.Path>, string>
  {
    if folders == [] then Ok([])
    else
      var init := ConfirmFiles(listing, bucket, folders[..|folders| - 1]);
      var last := listing(bucket, folders[|folders| - 1]);
      if init.Err? then init
      else if last.Err? then Err(last.error)
      else Ok(init.value + Dotted(last.value))
  }

  /** The listing calls the loop makes: one per folder, up to and including the first that raises. */
  function ListCallsMade(listing: Listing, bucket: string, folders: seq<string>): seq<Call>
  {
    if folders == [] then []
    else
      var init := folders[..|folders| - 1];
      if ConfirmFiles(listing, bucket, init).Err? then ListCallsMade(listing, bucket, init)
      else ListCallsMade(listing, bucket, init) + [ListFiles(bucket, folders[|folders| - 1])]
  }

  /** One listing call per folder, in selection order. */
  function ListCalls(bucket: string, folders: seq<string>): (r: seq<Call>)
    ensures |r| == |folders| && forall i :: 0 <= i < |folders| ==> r[i] == ListFiles(bucket, folders[i])
  {
    if folders == [] then [] else ListCalls(bucket, folders[..|folders| - 1]) + [ListFiles(bucket, folders[|folders| - 1])]
  }

  /** Every listing succeeds, and then every folder is listed. */
  predicate AllListed(listing: Listing, bucket: string, folders: seq<string>)
  {
    forall i :: 0 <= i < |folders| ==> listing(bucket, folders[i]).Ok?
  }

  /**
   * The loop succeeds exactly when every listing does, and then lists every folder once, in
   * order; otherwise it stops at the first folder `k` whose listing raises, having listed the
   * folders up to and including `k`, and reports that listing's message.
   */
  lemma {:induction false} ConfirmFilesOutcome(listing: Listing, bucket: string, folders: seq<string>)
    returns (k: nat)
    ensures ConfirmFiles(listing, bucket, folders).Ok? <==> AllListed(listing, bucket, folders)
    ensures AllListed(listing, bucket, folders) ==>
      ListCallsMade(listing, bucket, folders) == ListCalls(bucket, folders)
    ensures !AllListed(listing, bucket, folders) ==>
      && k < |folders| && AllListed(listing, bucket, folders[..k])
      && listing(bucket, folders[k]).Err?
      && ConfirmFiles(listing, bucket, folders) == Err(listing(bucket, folders[k]).error)
      && ListCallsMade(listing, bucket, folders) == ListCalls(bucket, folders[..k + 1])
  {
    if folders == [] {
      return 0;
    }
    var init := folders[..|folders| - 1];
    var last := folders[|folders| - 1];
    var j := ConfirmFilesOutcome(listing, bucket, init);
    assert folders == init + [last];
    if AllListed(listing, bucket, folders) {
      assert forall i :: 0 <= i < |init| ==> init[i] == folders[i];
      assert AllListed(listing, bucket, init);
      assert listing(bucket, last).Ok?;
      assert ListCallsMade(listing, bucket, folders) == ListCalls(bucket, init) + [ListFiles(bucket, last)];
      return 0;
    }
    if AllListed(listing, bucket, init) {
      k := |init|;
      LastFails(listing, bucket, init, last);
    } else {
      k := j;
      EarlierFails(listing, bucket, init, last, j);
    }
  }

  /** When only the last folder's listing raises, the loop reports it after listing every folder. */
  lemma LastFails(listing: Listing, bucket: string, init: seq<string>, last: string)
    requires AllListed(listing, bucket, init) && listing(bucket, last).Err?
    requires ConfirmFiles(listing, bucket, init).Ok?
    requires ListCallsMade(listing, bucket, init) == ListCalls(bucket, init)
    ensures var folders := init + [last];
      && AllListed(listing, bucket, folders[..|init|]) && listing(bucket, folders[|init|]).Err?
      && ConfirmFiles(listing, bucket, folders) == Err(listing(bucket, last).error)
      && ListCallsMade(listing, bucket, folders) == ListCalls(bucket, folders[..|init| + 1])
  {
    var folders := init + [last];
    assert folders[..|folders| - 1] == folders[..|init|] == init;
    assert folders[..|init| + 1] == folders;
  }

  /** Once an earlier listing has raised, one more folder changes neither the result nor the calls. */
  lemma EarlierFails(listing: Listing, bucket: string, init: seq<string>, last: string, j: nat)
    requires j < |init| && AllListed(listing, bucket, init[..j]) && listing(bucket, init[j]).Err?
    requires ConfirmFiles(listing, bucket, init) == Err(listing(bucket, init[j]).error)
    requires ListCallsMade(listing, bucket, init) == ListCalls(bucket, init[..j + 1])
    ensures var folders := init + [last];
      && AllListed(listing, bucket, folders[..j]) && listing(bucket, folders[j]).Err?
      && ConfirmFiles(listing, bucket, folders) == Err(listing(bucket, folders[j]).error)
      && ListCallsMade(listing, bucket, folders) == ListCalls(bucket, folders[..j + 1])
  {
    var folders := init + [last];
    assert folders[..|folders| - 1] == init;
    assert folders[..j] == init[..j] && folders[..j + 1] == init[..j + 1] && folders[j] == init[j];
  }

  /** A file is downloaded exactly when one of the selected folders lists it and its name is dotted. */
  lemma {:induction false} ConfirmFilesMembers(listing: Listing, bucket: string, folders: seq<string>, f: P.Path)
    requires AllListed(listing, bucket, folders)
    ensures ConfirmFiles(listing, bucket, folders).Ok?
    ensures f in ConfirmFiles(listing, bucket, folders).value <==>
      '.' in P.Name(f) && exists i :: 0 <= i < |folders| && f in listing(bucket, folders[i]).value
  {
    if folders != [] {
      var init := folders[..|folders| - 1];
      assert forall i :: 0 <= i < |init| ==> init[i] == folders[i];
      assert AllListed(listing, bucket, init);
      assert listing(bucket, folders[|folders| - 1]).Ok?;
      ConfirmFilesMembers(listing, bucket, init, f);
      DottedMembers(listing(bucket, folders[|folders| - 1]).value, f);
      if exists i :: 0 <= i < |folders| && f in listing(bucket, folders[i]).value {
        var i :| 0 <= i < |folders| && f in listing(bucket, folders[i]).value;
        if i < |init| {
          assert init[i] == folders[i];
        }
      }
      if exists i :: 0 <= i < |init| && f in listing(bucket, init[i]).value {
        var i :| 0 <= i < |init| && f in listing(bucket, init[i]).value;
        assert folders[i] == init[i];
      }
    }
  }

  /**
   * Selecting one more folder lists it only when the earlier listings all worked, and then
   * appends its dotted files after those already collected.
   */
  lemma ConfirmFilesAppend(listing: Listing, bucket: string, folders: seq<string>, more: string)
    ensures var before, now := ConfirmFiles(listing, bucket, folders), listing(bucket, more);
      && (before.Err? ==> ConfirmFiles(listing, bucket, folders + [more]) == before
                          && ListCallsMade(listing, bucket, folders + [more])
                             == ListCallsMade(listing, bucket, folders))
      && (before.Ok? ==> ListCallsMade(listing, bucket, folders + [more])
                         == ListCallsMade(listing, bucket, folders) + [ListFiles(bucket, more)])
      && (before.Ok? && now.Err? ==> ConfirmFiles(listing, bucket, folders + [more]) == Err(now.error))
      && (before.Ok? && now.Ok? ==>
            ConfirmFiles(listing, bucket, folders + [more]) == Ok(before.value + Dotted(now.value)))
  {
    assert (folders + [more])[..|folders|] == folders;
  }

  /** Once a listing has raised, the folders after it change nothing. */
  lemma {:induction false} ConfirmFilesStops(listing: Listing, bucket: string, folders: seq<string>, n: nat)
    requires n <= |folders| && ConfirmFiles(listing, bucket, folders[..n]).Err?
    ensures ConfirmFiles(listing, bucket, folders) == ConfirmFiles(listing, bucket, folders[..n])
    ensures ListCallsMade(listing, bucket, folders) == ListCallsMade(listing, bucket, folders[..n])
    decreases |folders|
  {
    if n == |folders| {
      assert folders[..n] == folders;
    } else {
      var init := folders[..|folders| - 1];
      assert init[..n] == folders[..n];
      ConfirmFilesStops(listing, bucket, init, n);
    }
  }

  // ---------------------------------------------------------------------------
  // The GUI
  // ---------------------------------------------------------------------------

  class ManagerGUI {
    const showFiles: bool
    /** `bucket_name.value`, `s3_prefix.value`, `operation.value`, `folder_chooser.selected`. */
    var bucketName: string
    var s3Prefix: string
    var operation: string
    var selected: Option<string>
    /** `s3_folder_select.options`, `.disabled` and `.value`. */
    var folderOptions: seq<string>
    var folderSelectDisabled: bool
    var selectedFolders: seq<string>
    /** `main_box.layout.display` ("" while unset) and whether the folder selection box was displayed. */
    var mainDisplay: string
    var selectionShown: bool
    /** The lines printed into the output widget. */
    var output: seq<string>
    /** The calls made on the S3 manager, in order. */
    var calls: seq<Call>

    /** The widgets as `_create_widgets` makes them. */
    constructor (showFiles: bool)
      ensures this.showFiles == showFiles
      ensures bucketName == "" && s3Prefix == "" && operation == "Upload" && selected == None
      ensures folderOptions == [] && folderSelectDisabled && selectedFolders == []
      ensures mainDisplay == "" && !selectionShown && output == [] && calls == []
    {
      this.showFiles := showFiles;
      bucketName := "";
      s3Prefix := "";
      operation := "Upload";
      selected := None;
      folderOptions := [];
      folderSelectDisabled := true;
      selectedFolders := [];
      mainDisplay := "";
      selectionShown := false;
      output := [];
      calls := [];
    }

    /** `_validate_inputs`: report the first empty required field and fail, or succeed. */
    method ValidateInputs() returns (ok: bool)
      modifies this`output
      ensures var missing := FirstMissing(RequiredFields(bucketName, selected));
        && ok == missing.None?
        && output == old(output) + (if missing.Some? then [ErrorLine(missing.value)] else [])
    {
      var fields := [(bucketName != "", BucketRequired), (Chosen(selected), FolderRequired)];
      var idx := 0;
      while idx < |fields|
        invariant 0 <= idx <= |fields|
        invariant FirstMissing(fields) == FirstMissing(fields[idx..])
        invariant output == old(output)
      {
        if !fields[idx].0 {
          output := output + [ErrorLine(fields[idx].1)];
          return false;
        }
        assert fields[idx..][1..] == fields[idx + 1..];
        idx := idx + 1;
      }
      return true;
    }

    /**
     * `_handle_upload`: report the number of files when asked to, and upload them all under
     * the prefix; `fault` is the exception the manager raises, if any.
     */
    method HandleUpload(bucket: string, prefix: string, files: seq<P.Path>, fault: Option<string>)
      returns (raised: Option<string>)
      modifies this`output, this`calls
      ensures output == old(output) + UploadLines(showFiles, files)
      ensures calls == old(calls) + [UploadFiles(bucket, prefix, files)]
      ensures raised == fault
    {
      if showFiles {
        output := output + [FoundLine(|files|)];
      }
      calls := calls + [UploadFiles(bucket, prefix, files)];
      raised := fault;
    }

    /**
     * `_handle_download`: list the prefix, and either report that there is nothing to choose
     * from or offer the folders sorted and enable the selection.
     */
    method HandleDownload(bucket: string, prefix: string, listed: seq<P.Path>, fault: Option<string>)
      returns (raised: Option<string>)
      modifies this`output, this`calls, this`folderOptions, this`folderSelectDisabled
      modifies this`selectionShown, this`mainDisplay
      ensures calls == old(calls) + [ListFiles(bucket, prefix)]
      ensures var r := ExtractFolders(listed);
        && raised == DownloadRaised(r, fault)
        && output == old(output) + DownloadLines(r, fault)
        && (Offers(r, fault) ==>
              folderOptions == Text.SortStrings(r.value) && !folderSelectDisabled
              && selectionShown && mainDisplay == "none")
        && (!Offers(r, fault) ==> UnchangedSelection())
    {
      output := output + [Retrieving];
      calls := calls + [ListFiles(bucket, prefix)];
      if fault.Some? {
        return fault;
      }
      var r := ExtractS3Folders(listed);
      if r.Err? {
        return Some(r.error);
      }
      if r.value == [] {
        output := output + [ErrorLine(NoFolders)];
        return None;
      }
      folderOptions := Text.SortStrings(r.value);
      folderSelectDisabled := false;
      selectionShown := true;
      mainDisplay := "none";
      raised := None;
    }

    /** The selection widgets and the main box are as they were. */
    twostate predicate UnchangedSelection()
      reads this
    {
      && folderOptions == old(folderOptions) && folderSelectDisabled == old(folderSelectDisabled)
      && selectionShown == old(selectionShown) && mainDisplay == old(mainDisplay)
    }

    /**
     * `_on_process_click`: clear the output, validate, and run the handler `Route` picks; an
     * exception from the handler is reported as a critical error. `localFiles` stands for
     * the files the recursive glob finds under the chosen folder.
     */
    method OnProcessClick(localFiles: seq<P.Path>, listed: seq<P.Path>, fault: Option<string>)
      modifies this`output, this`calls, this`folderOptions, this`folderSelectDisabled
      modifies this`selectionShown, this`mainDisplay
      ensures var r := ExtractFolders(listed);
        && output == ProcessLines(showFiles, bucketName, selected, operation, localFiles, r, fault)
        && calls == old(calls) + ProcessCalls(bucketName, s3Prefix, selected, operation, localFiles)
        && (ProcessOffers(bucketName, selected, operation, r, fault) ==>
              folderOptions == Text.SortStrings(r.value) && !folderSelectDisabled
              && selectionShown && mainDisplay == "none")
        && (!ProcessOffers(bucketName, selected, operation, r, fault) ==> UnchangedSelection())
    {
      output := [];
      var ok := ValidateInputs();
      ValidationOrder(bucketName, selected);
      if ok {
        Dispatch(localFiles, listed, fault);
      }
    }

    /** The second half of `_on_process_click`: run the routed handler and report what it raises. */
    method Dispatch(localFiles: seq<P.Path>, listed: seq<P.Path>, fault: Option<string>)
      modifies this`output, this`calls, this`folderOptions, this`folderSelectDisabled
      modifies this`selectionShown, this`mainDisplay
      ensures var r := ExtractFolders(listed);
        && output == old(output) + DispatchLines(showFiles, operation, localFiles, r, fault)
        && calls == old(calls) + [DispatchCall(bucketName, s3Prefix, operation, localFiles)]
        && (Route(operation) == DownloadHandler && Offers(r, fault) ==>
              folderOptions == Text.SortStrings(r.value) && !folderSelectDisabled
              && selectionShown && mainDisplay == "none")
        && (!(Route(operation) == DownloadHandler && Offers(r, fault)) ==> UnchangedSelection())
    {
      var raised: Option<string>;
      if operation == "Download" {
        raised := HandleUpload(bucketName, s3Prefix, localFiles, fault);
      } else {
        raised := HandleDownload(bucketName, s3Prefix, listed, fault);
      }
      output := output + CriticalLines(raised);
    }

    /**
     * `_on_confirm_click`: with no folder selected, report it; otherwise list every selected
     * folder, keep the dotted names, download them all keeping the key structure under the
     * chosen folder, and show the main box again. With no local folder chosen, `Path(None)`
     * raises before anything is printed; a listing that raises stops the loop before the
     * download, and `downloadFault` is what `download_files` raises, if anything. `raised` is
     * the exception that escapes the click handler.
     */
    method OnConfirmClick(listing: Listing, downloadFault: Option<string>) returns (raised: Option<string>)
      modifies this`output, this`calls, this`mainDisplay
      ensures selectedFolders == [] ==>
        && raised.None? && output == old(output) + [ErrorLine(NoSelection)]
        && calls == old(calls) && mainDisplay == old(mainDisplay)
      ensures selectedFolders != [] && selected.None? ==>
        && raised == Some(PathOfNone)
        && output == old(output) && calls == old(calls) && mainDisplay == old(mainDisplay)
      ensures selectedFolders != [] && selected.Some? ==>
        var r := ConfirmFiles(listing, bucketName, selectedFolders);
        && output == old(output) + [StartingDownload]
        && calls == old(calls) + ListCallsMade(listing, bucketName, selectedFolders)
                    + (if r.Ok? then [DownloadFiles(bucketName, r.value, P.Parse(selected.value), true)] else [])
        && raised == (if r.Err? then Some(r.error) else downloadFault)
        && mainDisplay == (if raised.None? then "flex" else old(mainDisplay))
    {
      var folders := selectedFolders;
      if folders == [] {
        output := output + [ErrorLine(NoSelection)];
        return None;
      }
      var bucket := bucketName;
      if selected.None? {
        return Some(PathOfNone);
      }
      var localPath := P.Parse(selected.value);
      output := output + [StartingDownload];
      var allFiles := ListSelected(listing, bucket, folders);
      if allFiles.Err? {
        return Some(allFiles.error);
      }
      calls := calls + [DownloadFiles(bucket, allFiles.value, localPath, true)];
      if downloadFault.Some? {
        return downloadFault;
      }
      mainDisplay := "flex";
      raised := None;
    }

    /**
     * The loop of `_on_confirm_click`: list each selected folder and keep its dotted files,
     * stopping at the first listing that raises.
     */
    method ListSelected(listing: Listing, bucket: string, folders: seq<string>)
      returns (allFiles: Result<seq<P.Path>, string>)
      modifies this`calls
      ensures allFiles == ConfirmFiles(listing, bucket, folders)
      ensures calls == old(calls) + ListCallsMade(listing, bucket, folders)
    {
      var files: seq<P.Path> := [];
      var i := 0;
      while i < |folders|
        invariant 0 <= i <= |folders|
        invariant ConfirmFiles(listing, bucket, folders[..i]) == Ok(files)
        invariant calls == old(calls) + ListCallsMade(listing, bucket, folders[..i])
      {
        calls := calls + [ListFiles(bucket, folders[i])];
        TakeSnoc(folders, i);
        ConfirmFilesAppend(listing, bucket, folders[..i], folders[i]);
        var listed := listing(bucket, folders[i]);
        if listed.Err? {
          ConfirmFilesStops(listing, bucket, folders, i + 1);
          return Err(listed.error);
        }
        files := files + Dotted(listed.value);
        i := i + 1;
      }
      TakeAll(folders);
      allFiles := Ok(files);
    }
  }
}
