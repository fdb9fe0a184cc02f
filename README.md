# script_forge core, modelled in Dafny

This project models the deterministic core of script_forge, a Python toolbox for engineering
documents. The core is the bookkeeping around S3 bulk transfers, the S3 folder picker of the Jupyter GUI, the
assembly of line-number strings from OCR labels, the spreadsheet row appender, and the small
annotation containers. It also covers the KH2 exporters and the KH2 page-link builder. Every
operation is stated with a contract and proved against it.

The modules follow the program:

- `Wrappers`, `Octets`, `Seqs`: Option/Result, the byte type, two sequence facts.
- `Text`: `str.split(sep)`, `"sep".join`, `str.split()`, `strip`, `str(int)`, `sorted` on strings.
- `PosixPath`: `PurePosixPath`: an anchor and the segments, `str`, `name`, `parts`.
- `Tally`: the success/failure counters of `_process_operations` and the async and hybrid aggregators, under any completion order.
- `S3Transfer`: destination paths, upload keys, the listing filter, download and upload batches over a bucket and a disk held as maps from keys to bytes, `upload_file`, `download_file`, `parallel_download`.
- `FolderTree`: the nested-dict trie built by `print_file_structure`, and the lines `print_hierarchy` prints.
- `FileStructure`: the two `print_file_structure` variants: keys from `parts`, or from `str(path).split("/")`.
- `S3Gui`: `S3ManagerGUI`: validation, the operation dispatch, the folder extraction, the download guard, the confirm selection.
- `LineNumber`: `Extract_line_number_table`, `Extract_line_number`, `Extract_doc_number`, `Get_Line_No`.
- `FmrUpdater`: the openpyxl worksheet as a map from `(row, column)` to a value, and `FMRUpdater.update_sheet`.
- `Schemas`: `JSONLoader`, `COCOHandler`, `YOLOHandler`.
- `OcrBoxes`: `OCRBox` and the three `OCRProcessor` converters.
- `KhTools`: `KH2Config`, `KH2Manager` records and objects, `KH2Utilities`.
- `Utf8`, `Base64`, `KhLink`: UTF-8 (RFC 3629), Base 64 (section 4 of RFC 4648) and `LinkGenerator.generate_link`.

Several source files exist in near-identical copies, and each copy is covered by one model:
- utils/s3/s3_tools.py, s3/s3_tools.py and s3_tools.py share the path rule, the key rule, the counter loop,
  the listing filter and the trie.
- s3_utils.py shares the listing filter and has its own `print_file_structure` and `parallel_download`.
- s3/s3_gui.py and utils/s3/gui.py are the same file line for line, so each S3Gui row below applies to both.
- fmr_generation.py and utils/fmr_generation.py are also identical, line for line.

Where the table cites one copy, the others behave the same at the corresponding lines, for example
s3/s3_tools.py:45-56 and s3_tools.py:169-175 for the counters.

Scheduling is modelled explicitly. A thread pool, `as_completed`, `asyncio.gather` or the hybrid
executor becomes one sequential loop that reads the per-operation outcomes in an arbitrary
completion order, given as a permutation (`Tally.IsOrder`). A transfer writes when it completes,
so the final bucket or disk is the writes applied in that order. The proofs then show:
- the counts do not depend on the order;
- the final store does not either, as long as no two successful transfers share a destination;
- when two transfers do share one (flat downloads of equally named keys), the later write wins.

Several behaviours of the code are stated and proved as they are written, because they differ
from what a reader might expect:

- **Name collisions.** Without `keep_structure`, a download keeps only the key's name. Two keys in
  different folders with the same name therefore land on one local file, and which one wins
  depends on completion order (`S3Transfer.FlatTargetsCollide`, `S3Transfer.FlatDownloadsRace`).
  The docstrings say unique identifiers are added; the code adds none. The model follows the code.
- **Doubled slashes.** A listed key with a doubled slash comes back as a `PurePosixPath`, which
  collapses the slashes. Its string is then not the stored key, so the download misses
  (`S3Transfer.DoubledSlashNotFetched`).
- **Empty folder node in s3_utils.py.** `print_file_structure` there splits `str(path)` on "/", so an
  absolute path puts a node named "" at the top of the tree (`FileStructure.EmptyTopNode`). The
  Path objects it receives are normalised, so an anchor is the only way to get an empty segment.
- **Swapped GUI labels.** Choosing 'Download' runs the upload handler, and anything else runs the
  download handler (`S3Gui.Route`).
- **Hyphen in the line size.** The size pattern `^\d{1,2}(.)?$` lets its `$` match before a final
  newline. A size such as "1-\n" then puts a hyphen into the line size, and the four-piece line
  number no longer splits back into its pieces (`LineNumber.LineSizeHyphenAfterNewline`,
  `LineNumber.TableSplits`).
- **Spec confidence.** A spec candidate whose confidence is -1 or below is never chosen
  (`LineNumber.BestSpec`).
- **Missing document number.** `Get_Line_No` formats a missing document number as
  "FMT-MTBE-None-XX" (`LineNumber.GetLineNo`).
- **Missing keys in `update_sheet`.** A record without an instructed key writes None, and openpyxl
  does not store None into a cell. An earlier instruction for the same column therefore keeps its
  value (`FmrUpdater.MissingKeyKeepsEarlier`).
- **Unordered `json2ocr` boxes.** Unlike `convert_ocr_data`, `json2ocr` does not order the
  coordinates, so x1 may exceed x2 (`OcrBoxes.Json2OcrMayBeUnordered`).
- **Empty inputs raise.** An empty point list makes `create_bbox_from_points` raise ValueError from
  `min` (`KhTools.BboxFromPoints`). A listed path without parts makes `_extract_s3_folders` raise
  IndexError (`S3Gui.RaisesAt`).

External behaviour that the source relies on but does not contain is taken from the libraries'
documented behaviour and written down where it is used:
- openpyxl: `max_row` is 1 on an empty sheet, `cell` with None stores nothing, and a coordinate
  below 1 raises.
- `PurePosixPath`: empty and "." segments are dropped.
- Python's `min`/`max`, `sorted`, `str.split`, and `max(..., key=len)`, which returns the first
  longest element.

## Model

| member | source | states |
|---|---|---|
| Text.Split | s3_utils.py:61 | `str.split` on one character gives at least one piece, and no piece holds the separator |
| Text.SplitAround | s3_utils.py:61 | splitting at one occurrence of the separator splits each side independently |
| Text.SplitWithoutSep | s3_utils.py:61 | a string without the separator is one piece |
| Text.SplitJoin | s3_utils.py:61 | joining pieces free of the separator and splitting again gives the pieces back |
| Text.JoinSplit | s3_utils.py:61 | splitting and joining again gives the string back |
| Text.LeadingWord | utils/schemas_loader.py:80 | the longest whitespace-free prefix, followed by whitespace or the end |
| Text.Words | utils/schemas_loader.py:80 | `s.split()` yields non-empty words without whitespace |
| Text.WordsOfJoin | utils/schemas_loader.py:84 | words joined with single spaces split back into the same words |
| Text.LeadingWordWhole | utils/schemas_loader.py:80 | a word followed by whitespace or nothing is taken whole |
| Text.StripLeft | utils/schemas_loader.py:69 | `lstrip` returns a suffix of the string that does not start with whitespace, and everything it removed is whitespace |
| Text.StripRight | utils/schemas_loader.py:69 | `rstrip` returns a prefix of the string that does not end with whitespace, and everything it removed is whitespace |
| Text.StripTrimmed | utils/schemas_loader.py:69 | a string with no outer whitespace is its own `strip` |
| Text.NatToString | utils/kh/kh_link.py:14 | decimal digits without a leading zero |
| Text.IntToString | utils/kh/kh_link.py:14 | `str(i)`: digits, preceded by '-' for a negative number |
| Text.NatToStringValue | utils/kh/kh_link.py:14 | the decimal notation reads back as the number |
| Text.IntToStringValue | utils/kh/kh_link.py:14 | `int(str(i)) == i`: `str` is injective on integers |
| Text.AtMostTotal | s3/s3_gui.py:105 | the code-point order on strings is total |
| Text.AtMostTransitive | s3/s3_gui.py:105 | the code-point order on strings is transitive |
| Text.AtMostAntisymmetric | s3/s3_gui.py:105 | the code-point order on strings is antisymmetric |
| Text.InsertSortedSorted | s3/s3_gui.py:105 | inserting into a sorted list keeps it sorted |
| Text.InsertSortedMultiset | s3/s3_gui.py:105 | inserting adds exactly that element |
| Text.SortStringsFacts | s3/s3_gui.py:105 | `sorted(folders)` is ordered and a permutation of its argument |
| PosixPath.KeepSegments | utils/s3/s3_tools.py:135 | the split pieces that become segments: none empty, none "." |
| PosixPath.KeepSegmentsFrom | utils/s3/s3_tools.py:135 | every kept segment is one of the pieces |
| PosixPath.KeepValidSegments | utils/s3/s3_tools.py:135 | valid segments are all kept |
| PosixPath.Parse | utils/s3/s3_tools.py:135 | `Path(s)` always yields a well-formed path |
| PosixPath.ParseStr | utils/s3/s3_tools.py:209 | `Path(str(p)) == p`, so `str` loses nothing |
| PosixPath.ParseStrRooted | utils/s3/s3_tools.py:209 | a "/"-rooted path with segments reads back from its string |
| PosixPath.ParseStrDoubleRooted | utils/s3/s3_tools.py:209 | a "//"-rooted path with segments reads back from its string: the two leading slashes are kept as the anchor |
| PosixPath.StrInjective | utils/s3/s3_tools.py:209 | different paths have different strings |
| PosixPath.ParseName | utils/s3/s3_tools.py:204 | a path's `name`, read back, is the one-segment relative path |
| PosixPath.ParseEmpty | utils/s3/s3_tools.py:135 | `Path("")` is the empty relative path "." |
| Tally.CountsCover | utils/s3/s3_tools.py:114-125 | every outcome is counted once, as a success or as a failure |
| Tally.CountsAppend | utils/s3/s3_tools.py:114-125 | the counts of a concatenation are the sums of the counts |
| Tally.AllSucceeded | utils/s3/s3_tools.py:117-123 | the success count equals the number of operations exactly when every result was truthy |
| Tally.SuccessesMultiplicity | utils/s3/s3_tools.py:114-125 | the success count is the multiplicity of truthy results, and the failure count is the rest |
| Tally.CountsPermutation | utils/s3/s3_tools.py:114 | results read in another order give the same counts |
| Tally.OrderFacts | utils/s3/s3_tools.py:114 | a completion order visits each operation exactly once |
| Tally.SubmissionIsOrder | utils/s3/s3_tools.py:106 | submission order is one of the completion orders |
| Tally.PickOrder | utils/s3/s3_tools.py:114 | the results read in any completion order are a permutation of the results |
| Tally.PickSameIndices | utils/s3/s3_tools.py:114 | two orders that are permutations of each other read permuted results |
| Tally.ProcessOperations | utils/s3/s3_tools.py:102-131 | in any completion order: a truthy result is a success, and a falsy result or an exception is a failure; the counts sum to the number of operations, and the progress bar advances once per operation |
| Tally.GatherTally | utils/s3/s3_tools.py:401-407 | the async and hybrid tally: an exception or a falsy result is a failure, and the counts sum to the number of inputs |
| S3Transfer.NormalizePaths | utils/s3/s3_tools.py:133-137 | one path per item, in order: a string is parsed and a path is kept |
| S3Transfer.NormalizePathsValid | utils/s3/s3_tools.py:133-137 | normalised items are valid paths, and a list of paths passes through unchanged |
| S3Transfer.JoinNameShape | utils/s3/s3_tools.py:204 | `base / key.name` appends exactly the name segment |
| S3Transfer.LocalTargetShape | utils/s3/s3_tools.py:200-204 | the target is the base plus the key's segments with the anchor stripped (`keep_structure`), or the base plus the key's name only |
| S3Transfer.LocalTargetValid | utils/s3/s3_tools.py:200-204 | the target of valid paths is a valid path |
| S3Transfer.KeepTargetsCollide | utils/s3/s3_tools.py:200-202 | with `keep_structure`, two keys share a target exactly when their segments agree |
| S3Transfer.FlatTargetsCollide | utils/s3/s3_tools.py:203-204 | without `keep_structure`, two keys share a target exactly when their names agree; no unique suffix is added |
| S3Transfer.UploadKeyShape | utils/s3/s3_tools.py:254 | the upload key is `base_object_key / file.name`, and it keeps the file's name |
| S3Transfer.UploadKeysCollide | utils/s3/s3_tools.py:254 | two local files get the same key exactly when their names agree |
| S3Transfer.Outcomes | utils/s3/s3_tools.py:226-229 | each single transfer reports True or False (every exception there becomes False) |
| S3Transfer.WritesElsewhere | utils/s3/s3_tools.py:105-125 | a key no successful transfer writes keeps its presence and content |
| S3Transfer.WritesSomeWinner | utils/s3/s3_tools.py:105-125 | a key some successful transfer writes holds the data of one of those transfers |
| S3Transfer.WritesAgree | utils/s3/s3_tools.py:105-125 | when every successful transfer to a key carries the same data, the key holds it |
| S3Transfer.PlanLands | utils/s3/s3_tools.py:105-125 | with pairwise different destinations, every successful transfer's data is at its destination under any completion order |
| S3Transfer.PlanElsewhere | utils/s3/s3_tools.py:105-125 | under any completion order, a destination no successful transfer names keeps its old content |
| S3Transfer.PlanSameAt | utils/s3/s3_tools.py:105-125 | with pairwise different destinations, two completion orders agree at every key |
| S3Transfer.PlanOrderIrrelevant | utils/s3/s3_tools.py:105-125 | with pairwise different destinations, the final store is the same under every completion order |
| S3Transfer.LastWriteWins | utils/s3/s3_tools.py:105-125 | two successful transfers to one destination with different data: the one completing last wins, so the order matters |
| S3Transfer.DownloadPlan | utils/s3/s3_tools.py:161-170 | one download per key, in submission order |
| S3Transfer.RunTransfers | utils/s3/s3_tools.py:105-125 | the loop applying transfers in completion order computes the writes applied in that order |
| S3Transfer.RunStep | utils/s3/s3_tools.py:105-125 | one more completed transfer applies its write on top of the earlier ones |
| S3Transfer.TallyPlan | utils/s3/s3_tools.py:102-131 | the batch counts are those of the transfers' outcomes, summing to the batch size, whatever the schedule |
| S3Transfer.DownloadFiles | utils/s3/s3_tools.py:139-177 | `download_files` and its async and hybrid forms: counts and final disk, keys normalised first |
| S3Transfer.DownloadAllSucceed | utils/s3/s3_tools.py:179-229 | every key succeeds exactly when every object exists and no other error occurs |
| S3Transfer.KeepPlanConsistent | utils/s3/s3_tools.py:200-202 | with `keep_structure` and keys with pairwise different segments, no two downloads share a target |
| S3Transfer.KeepStructureDownloads | utils/s3/s3_tools.py:139-177 | with `keep_structure`, every successful download leaves its object at its target, and the final disk does not depend on the order |
| S3Transfer.DownloadTouchesOnlyTargets | utils/s3/s3_tools.py:139-177 | a download batch changes no local file other than the keys' targets |
| S3Transfer.FlatDownloadsRace | utils/s3/s3_tools.py:203-204 | without `keep_structure`, two equally named keys with different data give different disks under the two orders |
| S3Transfer.DoubledSlashNotFetched | utils/s3/s3_tools.py:322-325 | a stored key "a//b" is listed as a path whose string is "a/b", and its download fails |
| S3Transfer.DoubledSlashParse | utils/s3/s3_tools.py:323 | `PurePosixPath("a//b")` is `a/b` |
| S3Transfer.DoubledSlashSplit | s3_utils.py:61 | splitting "a//b" on "/" gives an empty middle piece |
| S3Transfer.UploadPlan | utils/s3/s3_tools.py:251-258 | one upload per file, to `base_object_key / file.name`, in submission order |
| S3Transfer.UploadFiles | utils/s3/s3_tools.py:231-265 | `upload_files`, `async_upload_files` and `hybrid_upload_files`: counts and final bucket, with inputs normalised first |
| S3Transfer.DistinctNamesUpload | utils/s3/s3_tools.py:251-258 | files with pairwise different names each land under their own key, with their data, under any order |
| S3Transfer.UploadTouchesOnlyKeys | utils/s3/s3_tools.py:251-258 | an upload batch changes no key other than the files' upload keys |
| S3Transfer.KeepWanted | utils/s3/s3_tools.py:322-325 | the extension filter keeps at most the listed keys |
| S3Transfer.KeepWantedMembers | utils/s3/s3_tools.py:324 | a key is kept exactly when it is listed and, if an extension is given, ends with it |
| S3Transfer.KeepWantedAppend | utils/s3/s3_tools.py:322-325 | the filter works key by key, so it keeps the listing order |
| S3Transfer.KeepWantedAll | utils/s3/s3_tools.py:324 | without an extension, or with an empty one, every key is kept |
| S3Transfer.ParseAll | utils/s3/s3_tools.py:323 | one path per key, in order |
| S3Transfer.ListFiles | utils/s3/s3_tools.py:315-335 | `[]` on a ClientError or a response without `Contents`; any other exception escapes; otherwise the wanted keys as paths, in order |
| S3Transfer.UploadFile | s3_tools.py:183-200 | `upload_file`: a ClientError is swallowed, leaving the bucket unchanged; any other error, or a missing local file, escapes; otherwise the key holds the file |
| S3Transfer.DownloadFile | s3_utils.py:78-96 | `download_file`: a ClientError or a missing object is swallowed, leaving the disk unchanged; any other error escapes |
| S3Transfer.ParallelPlan | s3_utils.py:101-105 | one task per key, writing to `local_base_path / name` |
| S3Transfer.AnyRaised | s3_utils.py:107-108 | `future.result()` re-raises exactly when some task raised something other than a ClientError |
| S3Transfer.ParallelDownload | s3_utils.py:98-108 | one target `local_base_path / name` per key, the final disk in completion order, and whether an exception escapes |
| FileStructure.PartsKeys | utils/s3/s3_tools.py:351 | the trie keys are each path's `parts` |
| FileStructure.SplitKeys | s3_utils.py:61 | the trie keys are each path's string split on "/" |
| FileStructure.ShowStructure | utils/s3/s3_tools.py:337-357 | an empty list logs only a message; otherwise the trie holds exactly the non-empty prefixes of the paths' parts |
| FileStructure.PrintFileStructure | s3_utils.py:53-76 | an empty list logs only a message; otherwise the header and then one `print_hierarchy` line per trie node |
| FileStructure.SplitStr | s3_utils.py:61 | how `str(p).split("/")` differs from `p.parts`: an anchor becomes an empty first piece |
| FileStructure.SplitStrSegments | s3_utils.py:61 | a path with segments splits into one empty piece per anchor slash, then its segments |
| FileStructure.EmptyPieceIffAnchored | s3_utils.py:61 | a path's string splits into an empty segment exactly when the path is absolute |
| FileStructure.EmptyTopNode | s3_utils.py:60-67 | the tree has a top node "" exactly when some listed path is absolute |
| FileStructure.PartsTopNode | utils/s3/s3_tools.py:348-357 | with `parts`, the top nodes are the anchors and the first segments |
| FolderTree.InsertKey | utils/s3/s3_tools.py:352-357 | the inner loop walks `current_level` and adds the missing segments |
| FolderTree.BuildTree | utils/s3/s3_tools.py:348-357 | the outer loop gives a well-formed trie whose nodes are exactly the non-empty segment prefixes of the keys |
| FolderTree.WalkMembers | utils/s3/s3_tools.py:354-357 | inserting a key adds exactly its non-empty prefixes below the current node |
| FolderTree.WalkWellFormed | utils/s3/s3_tools.py:354-357 | insertion keeps the trie prefix-closed and keeps existing nodes in place |
| FolderTree.TreeOfFacts | utils/s3/s3_tools.py:348-357 | the trie is well formed and holds exactly the keys' prefixes |
| FolderTree.TreeOfMember | s3_tools.py:78-87 | one node per distinct segment prefix of a key |
| FolderTree.TopNode | utils/s3/s3_tools.py:348-357 | the top-level nodes are the first segments of the non-empty keys |
| FolderTree.WalkPresent | utils/s3/s3_tools.py:355-356 | inserting a key whose segments are all present changes nothing |
| FolderTree.TreeIdempotent | utils/s3/s3_tools.py:348-357 | listing a key a second time leaves the trie as it was |
| FolderTree.Children | s3_utils.py:70 | `level.items()` yields exactly the node's children |
| FolderTree.Dashes | s3_utils.py:71 | `'-' * n` is n dashes |
| FolderTree.RenderLevelCount | s3_utils.py:69-73 | the recursion prints one line per node at or below the given nodes |
| FolderTree.RenderCount | s3_utils.py:69-76 | `print_hierarchy` prints as many lines as the trie has nodes |
| FolderTree.PreOrder | s3_utils.py:69-73 | the visiting order lists only nodes at or below the given depth |
| FolderTree.RenderLevelPreOrder | s3_utils.py:69-73 | the i-th printed line is the line of the i-th visited node: its name after two dashes per level below the start |
| FolderTree.PreOrderBelow | s3_utils.py:69-73 | every visited node lies at or below one of the given nodes |
| FolderTree.PreOrderNodes | s3_utils.py:69-73 | the recursion visits every node at or below the given nodes exactly once |
| FolderTree.RenderPreOrder | s3_utils.py:69-76 | the visiting order is a permutation of the trie's nodes, and line i of `print_hierarchy` is `"|" + "-" * indent + "-" + name` of its i-th node |
| FolderTree.ChildIndex | s3_utils.py:70 | every child of a node appears among the children `level.items()` yields |
| FolderTree.ChildrenOrder | s3_utils.py:70 | `level.items()` yields children in insertion order |
| FolderTree.KidIndex | s3_utils.py:69-73 | every node of a level is visited |
| FolderTree.KidsInOrder | s3_utils.py:69-73 | the nodes of one level are visited in their order |
| FolderTree.SiblingsInOrder | s3_utils.py:69-73 | under any node, a child inserted earlier is printed before one inserted later |
| FolderTree.ParentBefore | s3_utils.py:69-73 | a node below the starting level is visited after its parent |
| FolderTree.ChildOfFirst | s3_utils.py:72-73 | the nodes one level down in a node's subtree are its children |
| FolderTree.Parent | s3_utils.py:72-73 | the parent of a node is its prefix one segment shorter |
| FolderTree.ParentsFirst | s3_utils.py:69-76 | every folder is printed after the folder that contains it |
| FolderTree.RenderLines | s3_utils.py:69-73 | every printed line belongs to some node at the current depth or below |
| FolderTree.RenderedLines | s3_utils.py:69-76 | every line is `"|" + "-" * indent + "-" + name` for some node, with two more dashes per level |
| S3Gui.FirstMissingFacts | s3/s3_gui.py:64-68 | nothing is reported exactly when every field is filled; otherwise the first empty field is reported |
| S3Gui.ValidationOrder | s3/s3_gui.py:59-68 | the bucket is checked before the folder, and only the first empty field is reported |
| S3Gui.Route | s3/s3_gui.py:83-86 | 'Download' runs the upload handler, and every other value runs the download handler |
| S3Gui.PartFolders | s3/s3_gui.py:116-118 | one folder per prefix length |
| S3Gui.PartFoldersAt | s3/s3_gui.py:116-118 | the i-th folder is `str(PurePosixPath(*parts[:i]))` |
| S3Gui.PathFolders | s3/s3_gui.py:113-118 | one folder per kept part; a dotted last part is dropped |
| S3Gui.NoPartsIff | s3/s3_gui.py:113-114 | the extraction raises exactly when some path has no parts |
| S3Gui.FolderOfSource | s3/s3_gui.py:112-118 | a folder of the listing comes from some listed path |
| S3Gui.FolderOfFrom | s3/s3_gui.py:112-118 | every folder of a listed path is returned |
| S3Gui.ExtractS3Folders | s3/s3_gui.py:110-119 | the nested loops compute the folder list, or the IndexError |
| S3Gui.AddPartFolders | s3/s3_gui.py:116-118 | the inner loop adds the new folders of one path |
| S3Gui.FoldersSnoc | s3/s3_gui.py:112-118 | one more path adds its folders to those found so far |
| S3Gui.RaisesAt | s3/s3_gui.py:113-114 | a listed path without parts makes the extraction raise IndexError |
| S3Gui.AddNewFacts | s3/s3_gui.py:111-118 | adding to the set keeps it free of repeats and holds exactly the old and the added folders |
| S3Gui.FoldersFacts | s3/s3_gui.py:110-119 | each folder is returned once, and the result is exactly the folders of the listed paths |
| S3Gui.FolderIsPrefix | s3/s3_gui.py:116-117 | every folder, read back as a path, has a prefix of a listed path's parts |
| S3Gui.FoldersPrefixClosed | s3/s3_gui.py:116-118 | the folder set is closed under prefixes: a folder's parent is returned too |
| S3Gui.FolderParent | s3/s3_gui.py:116-117 | the folder before the m-th one of a path is its parent |
| S3Gui.DownloadRaised | s3/s3_gui.py:100-101 | `_handle_download` raises exactly when the listing or the extraction does |
| S3Gui.Dotted | s3/s3_gui.py:136 | the dotted filter keeps at most the listed files |
| S3Gui.DottedMembers | s3/s3_gui.py:136 | a file is kept exactly when it was listed and its name contains '.' |
| S3Gui.ListCalls | s3/s3_gui.py:134-135 | one listing call per selected folder, in selection order |
| S3Gui.ConfirmFilesOutcome | s3/s3_gui.py:133-137 | the loop succeeds exactly when every listing does, and then lists every folder in order; otherwise it stops at the first listing that raises, after listing the folders up to it |
| S3Gui.ConfirmFilesStops | s3/s3_gui.py:133-137 | once a listing has raised, the later folders are neither listed nor collected |
| S3Gui.LastFails | s3/s3_gui.py:133-137 | when only the last folder's listing raises, its message is reported after every folder was listed |
| S3Gui.EarlierFails | s3/s3_gui.py:133-137 | once an earlier listing has raised, one more folder changes neither the outcome nor the calls made |
| S3Gui.ConfirmFilesMembers | s3/s3_gui.py:133-137 | when every listing succeeds, a file is downloaded exactly when a selected folder lists it and its name is dotted |
| S3Gui.ConfirmFilesAppend | s3/s3_gui.py:133-137 | a further folder is listed only when the earlier listings worked, and its dotted files are appended in selection order |
| S3Gui.ManagerGUI.constructor | s3/s3_gui.py:27-46 | the initial widget values |
| S3Gui.ManagerGUI.ValidateInputs | s3/s3_gui.py:59-72 | fails and reports the first empty required field, or succeeds and prints nothing |
| S3Gui.ManagerGUI.HandleUpload | s3/s3_gui.py:90-95 | reports the file count when asked to, and uploads every file under the prefix |
| S3Gui.ManagerGUI.HandleDownload | s3/s3_gui.py:97-108 | with no folders, reports an error and leaves the selection state alone; otherwise offers the sorted folders and enables the selector |
| S3Gui.ManagerGUI.OnProcessClick | s3/s3_gui.py:74-88 | clears the output, validates, runs the handler `Route` picks, and reports what it raises |
| S3Gui.ManagerGUI.Dispatch | s3/s3_gui.py:82-88 | the routed handler's calls and output, with an exception reported as a critical error |
| S3Gui.ManagerGUI.OnConfirmClick | s3/s3_gui.py:121-147 | with no selection, reports an error and downloads nothing; with no local folder, `Path(None)` raises a TypeError before any output; otherwise lists each selected folder and downloads its dotted files with `keep_structure=True`; a listing that raises stops the loop with no download, and only a download that raises nothing shows the main box again |
| S3Gui.ManagerGUI.ListSelected | s3/s3_gui.py:133-137 | the loop lists each selected folder and keeps its dotted files, stopping at the first listing that raises |
| LineNumber.SortByYFacts | extract_line_number.py:31 | the sort orders labels by smallest y, keeps every label, and keeps labels of equal y in order |
| LineNumber.InsertByYFacts | extract_line_number.py:31 | inserting a label keeps the list ordered by smallest y and adds exactly that label |
| LineNumber.Squeeze | extract_line_number.py:34 | `replace(" ", "")` leaves no space |
| LineNumber.BucketMembers | extract_line_number.py:33-39 | a label is in a bucket exactly when it is a label of that kind, with first-match priority |
| LineNumber.BucketsPartition | extract_line_number.py:33-39 | each label lands in exactly one bucket or in none |
| LineNumber.ClassifyLabels | extract_line_number.py:33-39 | the classification loop fills the four lists |
| LineNumber.Reverse | extract_line_number.py:41 | `list.reverse()` |
| LineNumber.SizeBelow | extract_line_number.py:43-47 | a SIZE header offers the squeezed text below it when it has the size shape |
| LineNumber.FirstSize | extract_line_number.py:42-48 | the first offered size has the size shape |
| LineNumber.PickSize | extract_line_number.py:41-48 | the size loop stops at the first reversed header that offers a size |
| LineNumber.LowestSize | extract_line_number.py:41-48 | the size comes from the lowest SIZE header that offers one, and none is found exactly when no header offers one |
| LineNumber.FirstOffer | extract_line_number.py:42-48 | the position of the first header that offers a size |
| LineNumber.Clean | extract_line_number.py:55 | `re.sub(r"[^A-Z0-9]", "", s)` keeps exactly the capitals and digits of s |
| LineNumber.CleanIdempotent | extract_line_number.py:55 | cleaning twice is cleaning once |
| LineNumber.CleanFixed | extract_line_number.py:63 | a string of kept characters is its own cleaning |
| LineNumber.FirstDrawing | extract_line_number.py:51-57 | the first header with a box below gives the cleaned drawing; there is none exactly when no header has such a box |
| LineNumber.PickDrawing | extract_line_number.py:50-57 | the drawing loop over the reversed headers |
| LineNumber.SpecScan | extract_line_number.py:59-66 | a chosen spec has 5 kept characters; with no spec the confidence stays -1 |
| LineNumber.PickSpec | extract_line_number.py:59-66 | the spec loop with its running `conf` |
| LineNumber.BestSpec | extract_line_number.py:59-66 | the spec is the text under the first candidate with strictly the highest confidence, and none is chosen exactly when no candidate beats -1 |
| LineNumber.SpecUpper | extract_line_number.py:64 | no candidate beats the final confidence, and a chosen spec beat -1 |
| LineNumber.SpecWitness | extract_line_number.py:60-66 | the candidate that set the choice, with every earlier candidate strictly less confident |
| LineNumber.LineSize | extract_line_number.py:68-74 | `XX"` without a size; a final digit gets `"` appended; a final `"` is kept; any other last character is replaced by `"` |
| LineNumber.LineSizeIdempotent | extract_line_number.py:70-73 | a line size is its own line size |
| LineNumber.LineSizeNoHyphen | extract_line_number.py:46 | a size read without a newline gives a line size without a hyphen |
| LineNumber.BodyLineSize | extract_line_number.py:46 | the line size of a matched size body holds no hyphen |
| LineNumber.LineSizeHyphenAfterNewline | extract_line_number.py:46 | "1-\n" passes the size pattern and gives the line size `1-"` |
| LineNumber.LetterCode | extract_line_number.py:80-82 | group 1 of `([A-Z]{1,2})(\d+)` is one or two capitals |
| LineNumber.LetterCodeFound | extract_line_number.py:80-81 | the pattern matches exactly when a capital is followed by a digit |
| LineNumber.DigitRun | extract_line_number.py:84 | the maximal run of digits at the start |
| LineNumber.FirstDigits | extract_line_number.py:84-86 | `(\d+)` matches exactly when there is a digit, and gives a run of digits |
| LineNumber.Draw1 | extract_line_number.py:76-82 | `draw_1` is one or two capitals, "X" by default |
| LineNumber.Draw2Shape | extract_line_number.py:77-90 | `draw_2` has at most 5 characters: `digits[:5]` for at most 7 digits, `digits[1:6]` for 8 or more, "XXXXX" by default |
| LineNumber.AssembleSplits | extract_line_number.py:96 | the four pieces split back out of the line number when the line size has no hyphen |
| LineNumber.PiecesWithoutHyphen | extract_line_number.py:76-94 | `draw_1`, `draw_2` and `spec_1` never hold a hyphen |
| LineNumber.ExtractLineNumberTable | extract_line_number.py:20-96 | the table extractor: sort, classify, pick size, drawing and spec, and assemble |
| LineNumber.TableSplits | extract_line_number.py:96 | the result has four hyphen-separated pieces when the size is newline-free |
| LineNumber.LongestFirst | extract_line_number.py:131-132 | `max(..., key=len)` picks an element no shorter than any other and strictly longer than every earlier one |
| LineNumber.LongestSingle | extract_line_number.py:128-129 | a single match is the answer |
| LineNumber.CollectMatches | extract_line_number.py:122-126 | the nested search loops collect matches pattern by pattern, label by label |
| LineNumber.ExtractLineNumber | extract_line_number.py:118-135 | one match is returned; several give the longest; none falls back to the table extractor |
| LineNumber.ExtractDocNumber | extract_line_number.py:144-151 | the first text matching the document pattern, or nothing exactly when none matches |
| LineNumber.GetLineNo | extract_line_number.py:137-142 | "FMT-MTBE-" + the document number + "-XX", with "None" when none was found |
| FmrUpdater.MaxRowUnique | utils/fmr_generation.py:16 | `max_row` is determined by the cells |
| FmrUpdater.Worksheet.MaxRow | utils/fmr_generation.py:16 | the largest row among the cells, 1 without cells |
| FmrUpdater.Worksheet.Cell | utils/fmr_generation.py:34 | raises exactly for a coordinate below 1; otherwise creates the cell and stores a value that is not None |
| FmrUpdater.RowRaisedStays | utils/fmr_generation.py:31-34 | once `cell` raised, no further instruction runs |
| FmrUpdater.RecordsRaisedStay | utils/fmr_generation.py:30-35 | once `cell` raised, no further record is written |
| FmrUpdater.LastInstructionWins | utils/fmr_generation.py:31-34 | on a duplicate column, the last instruction with a present key wins |
| FmrUpdater.MissingKeyKeepsEarlier | utils/fmr_generation.py:34 | a later instruction whose key is missing keeps the earlier value |
| FmrUpdater.ApplyRowFacts | utils/fmr_generation.py:31-34 | one record's row: raises exactly on a column below 1; otherwise only that row's instructed columns change |
| FmrUpdater.WrittenWrites | utils/fmr_generation.py:31-34 | only an instructed column is written |
| FmrUpdater.NoRecords | utils/fmr_generation.py:30 | empty `combined_data` leaves the sheet unchanged |
| FmrUpdater.ApplyRecordsFacts | utils/fmr_generation.py:28-35 | record n lands in row start + n; cells outside those rows and the instructed columns are unchanged |
| FmrUpdater.FreshRows | utils/fmr_generation.py:28-35 | below the old `max_row`, record n's instructed cell holds exactly `row_data.get(key)` |
| FmrUpdater.FMRUpdater.constructor | utils/fmr_generation.py:11-13 | the updater writes to the loaded "JOINT DATA" sheet |
| FmrUpdater.FMRUpdater.GetNextEmptyRow | utils/fmr_generation.py:15-16 | one past `max_row` |
| FmrUpdater.FMRUpdater.UpdateSheet | utils/fmr_generation.py:18-35 | writing starts at `max_row + 1`, record by record, one cell per instruction |
| FmrUpdater.FMRUpdater.WriteRow | utils/fmr_generation.py:31-34 | the inner loop for one record |
| Schemas.SavePath | utils/schemas_loader.py:18-20 | the explicit path if truthy, else the stored one; raises exactly when neither is set |
| Schemas.Entries | utils/schemas_loader.py:29-32 | a getter raises exactly on unloaded data; an absent key gives `[]` |
| Schemas.AppendedFacts | utils/schemas_loader.py:44-47 | an adder creates the list if it is missing, appends exactly one element at the end, and leaves the other keys alone |
| Schemas.GetAfterAdd | utils/schemas_loader.py:44-47 | after an add, the getter reports one element more, at the end |
| Schemas.JSONLoader.constructor | utils/schemas_loader.py:6-8 | an optional path and no data |
| Schemas.JSONLoader.Load | utils/schemas_loader.py:10-15 | raises without a path; otherwise keeps and returns the document |
| Schemas.JSONLoader.Save | utils/schemas_loader.py:17-23 | writes to the path `SavePath` selects, or raises |
| Schemas.COCOHandler.constructor | utils/schemas_loader.py:25-27 | a loader with no data |
| Schemas.COCOHandler.Add | utils/schemas_loader.py:44-57 | the shared body of the adders; raises a TypeError on unloaded data |
| Schemas.COCOHandler.AddImage | utils/schemas_loader.py:44-47 | appends one image, changing nothing else |
| Schemas.COCOHandler.AddAnnotation | utils/schemas_loader.py:49-52 | appends one annotation, changing nothing else |
| Schemas.COCOHandler.AddCategory | utils/schemas_loader.py:54-57 | appends one category, changing nothing else |
| Schemas.ParseFloats | utils/schemas_loader.py:81 | each value converted in order, or an error exactly when some value is rejected |
| Schemas.ParseAll | utils/schemas_loader.py:91 | one annotation per line, or an error exactly when some line fails to parse |
| Schemas.IntStringNoSpace | utils/schemas_loader.py:84 | `str(class_id)` holds no whitespace |
| Schemas.FormatLineWords | utils/schemas_loader.py:83-84 | a formatted line splits into the class id and one word per coordinate |
| Schemas.ParseFormatted | utils/schemas_loader.py:79-88 | a line written by `add_annotation` reads back with its class id and one value per coordinate |
| Schemas.YOLOHandler.constructor | utils/schemas_loader.py:60-63 | an optional path and no lines |
| Schemas.YOLOHandler.Load | utils/schemas_loader.py:65-70 | raises without a path; otherwise keeps the stripped lines |
| Schemas.YOLOHandler.Save | utils/schemas_loader.py:72-77 | writes to the path `SavePath` selects, or raises |
| Schemas.YOLOHandler.AddAnnotation | utils/schemas_loader.py:86-88 | appends exactly one formatted line |
| Schemas.YOLOHandler.GetAnnotations | utils/schemas_loader.py:90-91 | one parsed annotation per stored line |
| OcrBoxes.Least | utils/ocr/gradio_clients.py:251-258 | the nested `min` is one of the four coordinates and no larger than any |
| OcrBoxes.Greatest | utils/ocr/gradio_clients.py:259-266 | the nested `max` is one of the four coordinates and no smaller than any |
| OcrBoxes.BoundingBox | utils/ocr/gradio_clients.py:250-268 | an ordered box on the corners' extremes, containing every corner and keeping the text |
| OcrBoxes.ConvertOcrData | utils/ocr/gradio_clients.py:248-270 | one bounding box per record, in order |
| OcrBoxes.ConvertOcrDataOrdered | utils/ocr/gradio_clients.py:248-270 | every box is ordered and keeps its record's text |
| OcrBoxes.BoundingBoxOfCorners | utils/ocr/gradio_clients.py:248-270 | an ordered box is recovered from its own corners |
| OcrBoxes.ConvertSymbolsData | utils/ocr/gradio_clients.py:273-283 | one box per entity, in order, copied field for field with its label |
| OcrBoxes.SymbolsRoundTrip | utils/ocr/gradio_clients.py:273-283 | any list of boxes is recovered from its entities |
| OcrBoxes.Json2Ocr | utils/ocr/gradio_clients.py:286-290 | one box per record, in order, copied verbatim |
| OcrBoxes.Json2OcrRoundTrip | utils/ocr/gradio_clients.py:286-290 | boxes written as flat records are read back exactly |
| OcrBoxes.Json2OcrMayBeUnordered | utils/ocr/gradio_clients.py:288 | a reversed box stays reversed |
| KhTools.NewConfig | utils/kh/kh_tools.py:17-30 | keeps the settings; no default fields gives `[]` |
| KhTools.MetadataOf | utils/kh/kh_tools.py:67 | a missing or empty dictionary gives the default metadata |
| KhTools.Record.constructor | utils/kh/kh_tools.py:54-59 | a record with its page, its fields and no objects |
| KhTools.KH2Manager.constructor | utils/kh/kh_tools.py:34-36 | the configuration and no records |
| KhTools.KH2Manager.CreateRecord | utils/kh/kh_tools.py:47-61 | appends exactly one fresh record and returns it, with the default fields then the custom ones, and no objects |
| KhTools.KH2Manager.AddFlangeAnnotation | utils/kh/kh_tools.py:63-70 | appends one "flanges" object with text "flange-joint"; nothing else in the record changes |
| KhTools.KH2Manager.AddTextAnnotation | utils/kh/kh_tools.py:72-77 | appends one "text" object carrying the text; nothing else in the record changes |
| KhTools.Smallest | utils/kh/kh_tools.py:96 | `min` of a non-empty list is an element and no larger than any |
| KhTools.Largest | utils/kh/kh_tools.py:96 | `max` of a non-empty list is an element and no smaller than any |
| KhTools.WithinExtremes | utils/kh/kh_tools.py:93-96 | every point lies within the coordinate extremes |
| KhTools.ExtremesAttained | utils/kh/kh_tools.py:93-96 | each extreme is attained by some point |
| KhTools.BboxFromPoints | utils/kh/kh_tools.py:93-96 | the smallest box holding every point, with x1 <= x2 and y1 <= y2; no points raise the ValueError of `min` |
| KhTools.BboxOfCorners | utils/kh/kh_tools.py:93-96 | an ordered box is recovered from its corners |
| KhTools.ConvertYoloToKh2 | utils/kh/kh_tools.py:99-110 | one object per result, in order, with "" and "object" as the text and label defaults; raises exactly when some box is empty |
| Utf8.EncodeChar | utils/kh/kh_link.py:12 | 1 to 4 bytes, one exactly below 0x80 |
| Utf8.Encode | utils/kh/kh_link.py:12 | at least one byte per character |
| Utf8.DecodeFirst | utils/kh/kh_link.py:12 | the first UTF-8 sequence takes 1 to 4 bytes |
| Utf8.DecodeFirstEncodeChar | utils/kh/kh_link.py:12 | a character's encoding decodes to that character, whatever follows |
| Utf8.DecodeEncode | utils/kh/kh_link.py:12 | decoding undoes `encode("utf-8")` |
| Utf8.AsciiEncoding | utils/kh/kh_link.py:14 | ASCII text (such as `str(page_number - 1)`) is encoded byte for byte |
| Base64.Letter | utils/kh/kh_link.py:12 | the alphabet letter of a sextet |
| Base64.Group3Decodes | utils/kh/kh_link.py:12 | every full group of four letters decodes back to its three octets |
| Base64.Index | utils/kh/kh_link.py:12 | the sextet of a letter, inverse to `Letter` |
| Base64.Encode | utils/kh/kh_link.py:12 | `b64encode` output has length 4 * ceil(n / 3) |
| Base64.DecodeEncode | utils/kh/kh_link.py:12 | decoding undoes `b64encode` |
| Base64.EncodeAlphabet | utils/kh/kh_link.py:12 | an encoding holds only `A-Z a-z 0-9 + /` and `=` |
| Base64.NotInEncoding | utils/kh/kh_link.py:16 | a comma or an ampersand never occurs in an encoding |
| KhLink.DecodeEncodeText | utils/kh/kh_link.py:12-15 | encoded text reads back as itself |
| KhLink.PageUidSplits | utils/kh/kh_link.py:16 | the page uid splits at its single comma into the two encodings |
| KhLink.ReadIntOfString | utils/kh/kh_link.py:14 | `int(str(i)) == i` for every integer, negative ones included |
| KhLink.ReadPageUidOfPageUid | utils/kh/kh_link.py:12-16 | the uid gives back the file name and the 1-based page, which is encoded 0-based |
| KhLink.LinkGenerator.GenerateLink | utils/kh/kh_link.py:9-18 | the link starts with `{instance_url}/project/{project_id}/general_link?page_uid=`; the uid after it names the file and page; it ends with `&mode={mode}`, where mode defaults to "actual" |
| KhLink.UidAfterPrefix | utils/kh/kh_link.py:17 | after the prefix, the text up to the first ampersand is the page uid |
| KhLink.ModeAtEnd | utils/kh/kh_link.py:17 | the link ends with the mode parameter |
| KhLink.LinkReadsBack | utils/kh/kh_link.py:16-17 | a built link says what it was built from |
| KhLink.UidEndsAtAmpersand | utils/kh/kh_link.py:16-17 | the page uid holds no ampersand, so `page_uid` ends where the uid ends |

## Left out

- AWS access: `head_object`, `download_fileobj`, `upload_fileobj`, `list_objects_v2`, `download_file`
  and `upload_file` of boto3 and aioboto3 are network I/O. The bucket is a map from key strings to
  bytes. Each call is an oracle that may fail: a boolean fault per transfer, or `Fault` for
  the ClientError/other split. `head_object` and the download are one step, which fails when the
  key is absent.
- Only the first page of `list_objects_v2` is modelled (the response is a parameter), as the code
  reads only that page.
- Progress bars, `tqdm.write`, logging and the rich `Tree`/`Console` rendering are left out. The
  exception is `print_hierarchy`, whose lines are modelled; the GUI's `Output` widget is a list of
  lines.
- Concurrency: threads, `as_completed`, `asyncio.gather` and `run_in_executor` become a loop over
  a completion order. Interleaving inside one transfer (partial writes) is not modelled.
- The local filesystem is a map from paths to bytes. `mkdir`, `open`, `getsize` and the
  truncated-file behaviour are left out; `glob` in `_handle_upload` is the given file list.
  The map does not keep files and directories apart, so it allows both `a` and `a/b` to be
  files at once.
- S3Gui.ExtractFolders: `_extract_s3_folders` returns `list(set)`, whose order Python leaves
  unspecified. The model keeps the folders in the order they are first added; its callers only
  sort the list or test it for emptiness.
- ipywidgets and Jupyter: widget layout, `display` and click wiring are left out. The widget
  values the handlers read and write are fields of `S3Gui.ManagerGUI`.
- Regular expressions in `Extract_line_number_table` and `Extract_line_number` are predicates
  passed in (`LineNumber.Oracles`), as is `find_box_below` (shapely geometry in find_box.py, which
  is not part of this model). The size pattern's `$`, the `[^A-Z0-9]` substitution and the two
  drawing patterns are written out.
- `\d` and `isdigit` accept ASCII digits only; Python also accepts other Unicode digits.
- `Extract_data`'s JSON cache and the OCR client are I/O; the recognised labels are a parameter.
- `text_confidence` and the coordinates are exact reals; float rounding is not modelled.
- YOLOHandler's `:.6f` formatting and `float` parsing are parameters (`fmt`, `toFloat`, `toInt`),
  since float formatting and parsing are not modelled; file reads and writes are the given lines.
- Schemas.JSONLoader: the loaded JSON document is a map from keys to lists, the shape the COCO
  accessors use. `COCOHandler` holds a `JSONLoader` instead of inheriting from it.
- FMRUpdater's constructor (its `mkdir` passes a string as `mode`), `load_workbook` and
  `save_workbook` are workbook and file I/O. The constructor takes the loaded sheet.
- `export_to_zip` and `upload_to_kh2`: the dexlib exporter and uploader are network and file I/O,
  and their names use `datetime.now()`.
- The dexlib KH2 types are reduced to the fields these helpers set. `Kh2Bbox(*bbox)` takes the four
  reals directly, and `FileImageProvider(image_path)` is the image path.
- `convert_yolo_to_kh2` ignores `image_size`, so the model has no such parameter.
- The gradio OCR clients, `crop_text_box_new` and the contour alignment are network calls and
  float geometry. `OCRBox` holds the four scalars `x1`, `y1`, `x2`, `y2` and the text:
  `json2ocr` reads `box[0]` to `box[3]` as numbers and `convert_symbols_data` reads the
  `bbox` fields. Only `convert_ocr_data`'s input is four corner points (`Quad`).
- LineNumber labels carry a four-point `Quad`. The sort key in `Extract_line_number_table`
  (extract_line_number.py:31) takes the least `y` over however many points a box has, so boxes
  with other point counts are not modelled.
- Base64.Decode: accepts only canonical encodings, which is what `b64encode` produces; Python's
  `b64decode` is more lenient.
- Utf8.Encode: Python strings may hold lone surrogates, which `encode("utf-8")` rejects. A Dafny
  `char` is never a surrogate, so the model cannot represent them.
