/**
 * The bookkeeping of the S3 bulk transfers in `utils/s3/s3_tools.py`, `s3/s3_tools.py`,
 * `s3_tools.py` and `s3_utils.py`: which local file a download writes, which key an upload
 * writes, what the batch counts are, and what the listing keeps.
 *
 * The bucket is a map from key strings to bytes and the local disk a map from paths to bytes.
 * Whether a step other than the object lookup fails (network, local filesystem) is an oracle
 * parameter, and so is the order in which the pool completes the operations.
 */
module S3Transfer {
  import opened Wrappers
  import opened Octets
  import Seqs
  import Text
  import P = PosixPath
  import opened Tally

  type Bucket = map<string, Bytes>
  type Disk = map<P.Path, Bytes>

  // ---------------------------------------------------------------------------
  // Paths given as strings or as paths
  // ---------------------------------------------------------------------------

  /** An argument typed `Path | str`. */
  datatype PathLike = FromStr(s: string) | FromPath(p: P.Path)

  /** `Path(item) if isinstance(item, str) else item`. */
  function NormalizePath(x: PathLike): P.Path
  {
    match x
    case FromStr(s) => P.Parse(s)
    case FromPath(p) => p
  }

  /** `_normalize_paths`: one path per item, in the same order. */
  function NormalizePaths(xs: seq<PathLike>): (r: seq<P.Path>)
    ensures |r| == |xs|
    ensures forall i :: 0 <= i < |xs| ==> r[i] == NormalizePath(xs[i])
  {
    if xs == [] then [] else [NormalizePath(xs[0])] + NormalizePaths(xs[1..])
  }

  predicate AllValid(ps: seq<P.Path>)
  {
    forall i :: 0 <= i < |ps| ==> P.Valid(ps[i])
  }

  /** Strings become valid paths and paths are passed through unchanged. */
  lemma {:induction false} NormalizePathsValid(xs: seq<PathLike>)
    requires forall i :: 0 <= i < |xs| ==> xs[i].FromPath? ==> P.Valid(xs[i].p)
    ensures AllValid(NormalizePaths(xs))
    ensures (forall i :: 0 <= i < |xs| ==> xs[i].FromPath?) ==>
              forall i :: 0 <= i < |xs| ==> NormalizePaths(xs)[i] == xs[i].p
  {
  }

  // ---------------------------------------------------------------------------
  // The destination-path rule and the upload-key rule
  // ---------------------------------------------------------------------------

  /**
   * The local file `_download_file_single` writes: with `keep_structure` the key, without its
   * anchor, below the base; otherwise the base joined with the key's name.
   */
  function LocalTarget(base: P.Path, key: P.Path, keepStructure: bool): P.Path
  {
    if keepStructure then P.JoinPath(base, P.RelativeToAnchor(key))
    else P.JoinStr(base, P.Name(key))
  }

  /** The key an upload writes: `base_object_key / file.name`. */
  function UploadKey(baseKey: P.Path, file: P.Path): P.Path
  {
    P.JoinStr(baseKey, P.Name(file))
  }

  /** The last segment of a path, as a list of at most one segment. */
  function NameSegs(p: P.Path): seq<string>
  {
    if p.segs == [] then [] else [P.Name(p)]
  }

  /** Joining a name below a path appends that one segment (nothing when the name is empty). */
  lemma JoinNameShape(base: P.Path, p: P.Path)
    requires P.Valid(p)
    ensures P.JoinStr(base, P.Name(p)) == P.Path(base.anchor, base.segs + NameSegs(p))
  {
    if p.segs == [] {
      P.ParseEmpty();
      assert base.segs + [] == base.segs;
    } else {
      P.ParseName(p);
    }
  }

  /** The target stays below the base: the key's segments, or only its name, are appended. */
  lemma LocalTargetShape(base: P.Path, key: P.Path, keepStructure: bool)
    requires P.Valid(key)
    ensures LocalTarget(base, key, keepStructure).anchor == base.anchor
    ensures LocalTarget(base, key, keepStructure).segs
         == base.segs + (if keepStructure then key.segs else NameSegs(key))
  {
    if !keepStructure {
      JoinNameShape(base, key);
    }
  }

  lemma LocalTargetValid(base: P.Path, key: P.Path, keepStructure: bool)
    requires P.Valid(base) && P.Valid(key)
    ensures P.Valid(LocalTarget(base, key, keepStructure))
  {
    LocalTargetShape(base, key, keepStructure);
    var t := LocalTarget(base, key, keepStructure);
    var tail := if keepStructure then key.segs else NameSegs(key);
    forall i | 0 <= i < |t.segs| ensures P.ValidSegment(t.segs[i]) {
      if i >= |base.segs| {
        assert t.segs[i] == tail[i - |base.segs|];
      }
    }
  }

  /** With `keep_structure`, two keys share a target exactly when their segments agree, so the anchor is ignored. */
  lemma KeepTargetsCollide(base: P.Path, k1: P.Path, k2: P.Path)
    requires P.Valid(k1) && P.Valid(k2)
    ensures LocalTarget(base, k1, true) == LocalTarget(base, k2, true) <==> k1.segs == k2.segs
  {
    LocalTargetShape(base, k1, true);
    LocalTargetShape(base, k2, true);
    if LocalTarget(base, k1, true) == LocalTarget(base, k2, true) {
      assert k1.segs == (base.segs + k1.segs)[|base.segs|..];
      assert k2.segs == (base.segs + k2.segs)[|base.segs|..];
    }
  }

  /**
   * Without `keep_structure`, two named keys share a target exactly when their names agree:
   * no unique suffix keeps `a/x.pdf` and `b/x.pdf` apart.
   */
  lemma FlatTargetsCollide(base: P.Path, k1: P.Path, k2: P.Path)
    requires P.Valid(k1) && P.Valid(k2) && k1.segs != [] && k2.segs != []
    ensures LocalTarget(base, k1, false) == LocalTarget(base, k2, false) <==> P.Name(k1) == P.Name(k2)
  {
    LocalTargetShape(base, k1, false);
    LocalTargetShape(base, k2, false);
    var t1 := LocalTarget(base, k1, false);
    var t2 := LocalTarget(base, k2, false);
    assert t1.segs[|base.segs|] == P.Name(k1);
    assert t2.segs[|base.segs|] == P.Name(k2);
  }

  /** The upload key is the base key with the file's name appended; it keeps that name. */
  lemma UploadKeyShape(baseKey: P.Path, file: P.Path)
    requires P.Valid(file) && file.segs != []
    ensures UploadKey(baseKey, file) == P.Path(baseKey.anchor, baseKey.segs + [P.Name(file)])
    ensures P.Name(UploadKey(baseKey, file)) == P.Name(file)
  {
    JoinNameShape(baseKey, file);
  }

  /** Two local files get the same key exactly when their names agree, whatever their folders. */
  lemma UploadKeysCollide(baseKey: P.Path, f1: P.Path, f2: P.Path)
    requires P.Valid(baseKey) && P.Valid(f1) && P.Valid(f2) && f1.segs != [] && f2.segs != []
    ensures P.Str(UploadKey(baseKey, f1)) == P.Str(UploadKey(baseKey, f2)) <==> P.Name(f1) == P.Name(f2)
  {
    UploadKeyShape(baseKey, f1);
    UploadKeyShape(baseKey, f2);
    var u1 := UploadKey(baseKey, f1);
    var u2 := UploadKey(baseKey, f2);
    LocalTargetValid(baseKey, f1, false);
    LocalTargetValid(baseKey, f2, false);
    if P.Str(u1) == P.Str(u2) {
      P.StrInjective(u1, u2);
    }
  }

  // ---------------------------------------------------------------------------
  // Transfers and their writes
  // ---------------------------------------------------------------------------

  /** One copy a batch performs: whether it succeeded, where it writes and what. */
  datatype Transfer<K> = Transfer(ok: bool, dest: K, data: Bytes)

  /** What each transfer's operation returned. */
  function Outcomes<K(==)>(plan: seq<Transfer<K>>): (os: seq<Outcome>)
    ensures |os| == |plan|
    ensures forall i :: 0 <= i < |plan| ==> os[i] == Returned(plan[i].ok)
  {
    if plan == [] then [] else [Returned(plan[0].ok)] + Outcomes(plan[1..])
  }

  function Write<K(==)>(into: map<K, Bytes>, t: Transfer<K>): map<K, Bytes>
  {
    if t.ok then into[t.dest := t.data] else into
  }

  /** The writes of the successful transfers, applied in the order given; a failed one writes nothing. */
  function ApplyWrites<K(==)>(into: map<K, Bytes>, ts: seq<Transfer<K>>): map<K, Bytes>
    decreases |ts|
  {
    if ts == [] then into else ApplyWrites(Write(into, ts[0]), ts[1..])
  }

  lemma {:induction false} ApplyWritesSnoc<K>(into: map<K, Bytes>, ts: seq<Transfer<K>>, t: Transfer<K>)
    ensures ApplyWrites(into, ts + [t]) == Write(ApplyWrites(into, ts), t)
    decreases |ts|
  {
    if ts != [] {
      assert (ts + [t])[1..] == ts[1..] + [t];
      ApplyWritesSnoc(Write(into, ts[0]), ts[1..], t);
    } else {
      assert ts + [t] == [t];
    }
  }

  /** Running one more scheduled transfer applies its write to what the earlier ones left. */
  lemma RunStep<K>(into: map<K, Bytes>, plan: seq<Transfer<K>>, order: seq<nat>, k: nat)
    requires InRange(order, |plan|) && k < |order|
    ensures InRange(order[..k], |plan|) && InRange(order[..k + 1], |plan|)
    ensures ApplyWrites(into, Pick(plan, order[..k + 1])) == Write(ApplyWrites(into, Pick(plan, order[..k])), plan[order[k]])
  {
    assert order[..k + 1] == order[..k] + [order[k]];
    PickAppend(plan, order[..k], [order[k]]);
    assert Pick(plan, order[..k + 1]) == Pick(plan, order[..k]) + [plan[order[k]]];
    ApplyWritesSnoc(into, Pick(plan, order[..k]), plan[order[k]]);
  }

  /** A key that no successful transfer writes keeps its old presence and content. */
  lemma {:induction false} WritesElsewhere<K>(into: map<K, Bytes>, ts: seq<Transfer<K>>, k: K)
    requires forall i :: 0 <= i < |ts| && ts[i].ok ==> ts[i].dest != k
    ensures k in ApplyWrites(into, ts) <==> k in into
    ensures k in into ==> ApplyWrites(into, ts)[k] == into[k]
    decreases |ts|
  {
    if ts != [] {
      WritesElsewhere(Write(into, ts[0]), ts[1..], k);
    }
  }

  /**
   * A key that some successful transfer writes ends up holding the data of one of the
   * successful transfers to it (the last one applied).
   */
  lemma {:induction false} WritesSomeWinner<K>(into: map<K, Bytes>, ts: seq<Transfer<K>>, k: K)
    requires exists i :: 0 <= i < |ts| && ts[i].ok && ts[i].dest == k
    ensures k in ApplyWrites(into, ts)
    ensures exists i :: 0 <= i < |ts| && ts[i].ok && ts[i].dest == k && ApplyWrites(into, ts)[k] == ts[i].data
    decreases |ts|
  {
    var rest := ts[1..];
    if exists i :: 0 <= i < |rest| && rest[i].ok && rest[i].dest == k {
      WritesSomeWinner(Write(into, ts[0]), rest, k);
      var i :| 0 <= i < |rest| && rest[i].ok && rest[i].dest == k
        && ApplyWrites(Write(into, ts[0]), rest)[k] == rest[i].data;
      assert ts[i + 1] == rest[i];
    } else {
      assert ts[0].ok && ts[0].dest == k;
      WritesElsewhere(Write(into, ts[0]), rest, k);
    }
  }

  /** When every successful transfer to `k` carries `v`, the key ends up holding `v`. */
  lemma WritesAgree<K>(into: map<K, Bytes>, ts: seq<Transfer<K>>, k: K, v: Bytes)
    requires exists i :: 0 <= i < |ts| && ts[i].ok && ts[i].dest == k
    requires forall i :: 0 <= i < |ts| && ts[i].ok && ts[i].dest == k ==> ts[i].data == v
    ensures k in ApplyWrites(into, ts) && ApplyWrites(into, ts)[k] == v
  {
    WritesSomeWinner(into, ts, k);
  }

  /** Successful transfers to the same destination carry the same data. */
  ghost predicate ConsistentDests<K>(plan: seq<Transfer<K>>)
  {
    forall i, j :: 0 <= i < |plan| && 0 <= j < |plan| && plan[i].ok && plan[j].ok && plan[i].dest == plan[j].dest
      ==> plan[i].data == plan[j].data
  }

  /** Under any completion order, a consistent plan leaves every successful transfer's data at its destination. */
  lemma PlanLands<K>(into: map<K, Bytes>, plan: seq<Transfer<K>>, order: seq<nat>, i: nat)
    requires IsOrder(order, |plan|) && ConsistentDests(plan)
    requires i < |plan| && plan[i].ok
    ensures var r := ApplyWrites(into, Pick(plan, order)); plan[i].dest in r && r[plan[i].dest] == plan[i].data
  {
    OrderFacts(order, |plan|);
    var done := Pick(plan, order);
    assert i in order;
    var p :| 0 <= p < |order| && order[p] == i;
    assert done[p] == plan[i];
    WritesAgree(into, done, plan[i].dest, plan[i].data);
  }

  /** Under any completion order, a destination no successful transfer names keeps its old content. */
  lemma PlanElsewhere<K>(into: map<K, Bytes>, plan: seq<Transfer<K>>, order: seq<nat>, k: K)
    requires IsOrder(order, |plan|)
    requires forall i :: 0 <= i < |plan| && plan[i].ok ==> plan[i].dest != k
    ensures var r := ApplyWrites(into, Pick(plan, order));
      (k in r <==> k in into) && (k in into ==> r[k] == into[k])
  {
    OrderFacts(order, |plan|);
    WritesElsewhere(into, Pick(plan, order), k);
  }

  /** At one destination, a consistent plan leaves the same content under two completion orders. */
  lemma PlanSameAt<K>(into: map<K, Bytes>, plan: seq<Transfer<K>>, o1: seq<nat>, o2: seq<nat>, k: K)
    requires IsOrder(o1, |plan|) && IsOrder(o2, |plan|) && ConsistentDests(plan)
    ensures k in ApplyWrites(into, Pick(plan, o1)) <==> k in ApplyWrites(into, Pick(plan, o2))
    ensures k in ApplyWrites(into, Pick(plan, o1)) ==>
      ApplyWrites(into, Pick(plan, o1))[k] == ApplyWrites(into, Pick(plan, o2))[k]
  {
    if i :| 0 <= i < |plan| && plan[i].ok && plan[i].dest == k {
      PlanLands(into, plan, o1, i);
      PlanLands(into, plan, o2, i);
    } else {
      PlanElsewhere(into, plan, o1, k);
      PlanElsewhere(into, plan, o2, k);
    }
  }

  /** A consistent plan gives the same final store under every completion order. */
  lemma PlanOrderIrrelevant<K>(into: map<K, Bytes>, plan: seq<Transfer<K>>, o1: seq<nat>, o2: seq<nat>)
    requires IsOrder(o1, |plan|) && IsOrder(o2, |plan|) && ConsistentDests(plan)
    ensures ApplyWrites(into, Pick(plan, o1)) == ApplyWrites(into, Pick(plan, o2))
  {
    var r1 := ApplyWrites(into, Pick(plan, o1));
    var r2 := ApplyWrites(into, Pick(plan, o2));
    forall k | k in r1 ensures k in r2 && r1[k] == r2[k] {
      PlanSameAt(into, plan, o1, o2, k);
    }
    forall k | k in r2 ensures k in r1 {
      PlanSameAt(into, plan, o1, o2, k);
    }
    assert r1.Keys == r2.Keys;
  }

  /** Two successful transfers to one destination with different data: the one applied last wins. */
  lemma LastWriteWins<K>(into: map<K, Bytes>, t0: Transfer<K>, t1: Transfer<K>)
    requires t0.ok && t1.ok && t0.dest == t1.dest && t0.data != t1.data
    ensures t0.dest in ApplyWrites(into, [t0, t1]) && ApplyWrites(into, [t0, t1])[t0.dest] == t1.data
    ensures t0.dest in ApplyWrites(into, [t1, t0]) && ApplyWrites(into, [t1, t0])[t0.dest] == t0.data
    ensures ApplyWrites(into, [t0, t1]) != ApplyWrites(into, [t1, t0])
  {
    assert [t0, t1][1..] == [t1];
    assert [t1, t0][1..] == [t0];
    assert [t1][1..] == [] && [t0][1..] == [];
    assert ApplyWrites(into, [t0, t1]) == ApplyWrites(Write(into, t0), [t1]);
    assert ApplyWrites(Write(into, t0), [t1]) == ApplyWrites(Write(Write(into, t0), t1), []);
    assert ApplyWrites(into, [t1, t0]) == ApplyWrites(Write(into, t1), [t0]);
    assert ApplyWrites(Write(into, t1), [t0]) == ApplyWrites(Write(Write(into, t1), t0), []);
  }

  // ---------------------------------------------------------------------------
  // Downloads
  // ---------------------------------------------------------------------------

  /**
   * `_download_file_single`: the object under `str(key)` is copied to the local target; a
   * missing object, or a failure of another step (`fails`), makes it return False.
   */
  function FetchOne(bucket: Bucket, key: P.Path, base: P.Path, keepStructure: bool, fails: bool): Transfer<P.Path>
  {
    var name := P.Str(key);
    var ok := !fails && name in bucket;
    Transfer(ok, LocalTarget(base, key, keepStructure), if ok then bucket[name] else [])
  }

  /** One download per key, in submission order. */
  function DownloadPlan(bucket: Bucket, keys: seq<P.Path>, base: P.Path, keepStructure: bool, faults: seq<bool>)
    : (plan: seq<Transfer<P.Path>>)
    requires |faults| == |keys|
    ensures |plan| == |keys|
    ensures forall i :: 0 <= i < |keys| ==> plan[i] == FetchOne(bucket, keys[i], base, keepStructure, faults[i])
  {
    seq(|keys|, i requires 0 <= i < |keys| => FetchOne(bucket, keys[i], base, keepStructure, faults[i]))
  }

  /** How the batch reads results: as they complete (thread pool) or all at once in submission order (gather). */
  datatype Schedule = Pooled | Gathered

  /** Run the planned transfers in completion order, each writing when it completes. */
  method RunTransfers<K(==)>(into: map<K, Bytes>, plan: seq<Transfer<K>>, order: seq<nat>)
    returns (after: map<K, Bytes>)
    requires IsOrder(order, |plan|)
    ensures forall k :: 0 <= k < |order| ==> order[k] < |plan|
    ensures after == ApplyWrites(into, Pick(plan, order))
  {
    OrderFacts(order, |plan|);
    after := into;
    var k := 0;
    while k < |order|
      invariant 0 <= k <= |order|
      invariant after == ApplyWrites(into, Pick(plan, order[..k]))
    {
      var t := plan[order[k]];
      if t.ok {
        after := after[t.dest := t.data];
      }
      RunStep(into, plan, order, k);
      k := k + 1;
    }
    assert order[..k] == order;
  }

  /** Tally the planned transfers' results as the schedule reads them. */
  method TallyPlan<K(==)>(plan: seq<Transfer<K>>, order: seq<nat>, schedule: Schedule)
    returns (success: nat, failure: nat)
    requires IsOrder(order, |plan|)
    ensures success == Successes(Outcomes(plan)) && failure == Failures(Outcomes(plan))
    ensures success + failure == |plan|
  {
    if schedule == Pooled {
      var progress;
      success, failure, progress := ProcessOperations(Outcomes(plan), order);
    } else {
      success, failure := GatherTally(Outcomes(plan));
    }
  }

  /**
   * `download_files`, `async_download_files` and `hybrid_download_files`: every key is
   * normalised to a path, downloaded below the base, and counted.
   */
  method DownloadFiles(bucket: Bucket, disk: Disk, keys: seq<PathLike>, base: PathLike, keepStructure: bool,
                       faults: seq<bool>, order: seq<nat>, schedule: Schedule)
    returns (success: nat, failure: nat, after: Disk)
    requires |faults| == |keys|
    requires IsOrder(order, |keys|)
    ensures var plan := DownloadPlan(bucket, NormalizePaths(keys), NormalizePath(base), keepStructure, faults);
      && success == Successes(Outcomes(plan))
      && failure == Failures(Outcomes(plan))
      && after == ApplyWrites(disk, Pick(plan, order))
    ensures success + failure == |keys|
  {
    var plan := DownloadPlan(bucket, NormalizePaths(keys), NormalizePath(base), keepStructure, faults);
    after := RunTransfers(disk, plan, order);
    success, failure := TallyPlan(plan, order, schedule);
  }

  /** Every key succeeds exactly when its object exists and nothing else fails. */
  lemma DownloadAllSucceed(bucket: Bucket, keys: seq<P.Path>, base: P.Path, keepStructure: bool, faults: seq<bool>)
    requires |faults| == |keys|
    ensures var plan := DownloadPlan(bucket, keys, base, keepStructure, faults);
      Successes(Outcomes(plan)) == |keys|
      <==> forall i :: 0 <= i < |keys| ==> !faults[i] && P.Str(keys[i]) in bucket
  {
    var os := Outcomes(DownloadPlan(bucket, keys, base, keepStructure, faults));
    AllSucceeded(os);
  }

  /** With `keep_structure` and keys whose segments differ, no two downloads write the same file. */
  lemma KeepPlanConsistent(bucket: Bucket, keys: seq<P.Path>, base: P.Path, faults: seq<bool>)
    requires |faults| == |keys| && AllValid(keys)
    requires forall i, j :: 0 <= i < j < |keys| ==> keys[i].segs != keys[j].segs
    ensures ConsistentDests(DownloadPlan(bucket, keys, base, true, faults))
  {
    var plan := DownloadPlan(bucket, keys, base, true, faults);
    forall i, j | 0 <= i < |plan| && 0 <= j < |plan| && plan[i].ok && plan[j].ok && plan[i].dest == plan[j].dest
      ensures plan[i].data == plan[j].data
    {
      KeepTargetsCollide(base, keys[i], keys[j]);
      assert i == j;
    }
  }

  /**
   * With `keep_structure` and keys whose segments differ, every successful download leaves its
   * object's bytes at its own target, and the disk is the same under every completion order.
   */
  lemma KeepStructureDownloads(bucket: Bucket, disk: Disk, keys: seq<P.Path>, base: P.Path, faults: seq<bool>,
                               o1: seq<nat>, o2: seq<nat>)
    requires |faults| == |keys| && AllValid(keys)
    requires forall i, j :: 0 <= i < j < |keys| ==> keys[i].segs != keys[j].segs
    requires IsOrder(o1, |keys|) && IsOrder(o2, |keys|)
    ensures var plan := DownloadPlan(bucket, keys, base, true, faults);
      var r := ApplyWrites(disk, Pick(plan, o1));
      && (forall i :: 0 <= i < |keys| && !faults[i] && P.Str(keys[i]) in bucket ==>
            LocalTarget(base, keys[i], true) in r && r[LocalTarget(base, keys[i], true)] == bucket[P.Str(keys[i])])
      && r == ApplyWrites(disk, Pick(plan, o2))
  {
    var plan := DownloadPlan(bucket, keys, base, true, faults);
    KeepPlanConsistent(bucket, keys, base, faults);
    forall i | 0 <= i < |keys| && !faults[i] && P.Str(keys[i]) in bucket
      ensures var r := ApplyWrites(disk, Pick(plan, o1));
        LocalTarget(base, keys[i], true) in r && r[LocalTarget(base, keys[i], true)] == bucket[P.Str(keys[i])]
    {
      PlanLands(disk, plan, o1, i);
    }
    PlanOrderIrrelevant(disk, plan, o1, o2);
  }

  /** A download batch changes no local file other than the keys' targets. */
  lemma DownloadTouchesOnlyTargets(bucket: Bucket, disk: Disk, keys: seq<P.Path>, base: P.Path, keepStructure: bool,
                                   faults: seq<bool>, order: seq<nat>, q: P.Path)
    requires |faults| == |keys| && IsOrder(order, |keys|)
    requires forall i :: 0 <= i < |keys| ==> LocalTarget(base, keys[i], keepStructure) != q
    ensures var r := ApplyWrites(disk, Pick(DownloadPlan(bucket, keys, base, keepStructure, faults), order));
      (q in r <==> q in disk) && (q in disk ==> r[q] == disk[q])
  {
    PlanElsewhere(disk, DownloadPlan(bucket, keys, base, keepStructure, faults), order, q);
  }

  /**
   * Without `keep_structure`, two keys in different folders with the same name and different
   * contents race for one local file: the one that completes last wins, so the disk depends on
   * the completion order.
   */
  lemma FlatDownloadsRace(bucket: Bucket, disk: Disk, k0: P.Path, k1: P.Path, base: P.Path)
    requires P.Valid(k0) && P.Valid(k1) && k0.segs != [] && k1.segs != []
    requires P.Name(k0) == P.Name(k1)
    requires P.Str(k0) in bucket && P.Str(k1) in bucket && bucket[P.Str(k0)] != bucket[P.Str(k1)]
    ensures var plan := DownloadPlan(bucket, [k0, k1], base, false, [false, false]);
      && IsOrder([0, 1], 2) && IsOrder([1, 0], 2)
      && ApplyWrites(disk, Pick(plan, [0, 1])) != ApplyWrites(disk, Pick(plan, [1, 0]))
  {
    var plan := DownloadPlan(bucket, [k0, k1], base, false, [false, false]);
    FlatTargetsCollide(base, k0, k1);
    TwoOrders();
    PickTwo(plan);
    var t0, t1 := plan[0], plan[1];
    assert t0 == FetchOne(bucket, k0, base, false, false);
    assert t1 == FetchOne(bucket, k1, base, false, false);
    LastWriteWins(disk, t0, t1);
  }

  /** Two transfers complete in one of two orders. */
  lemma TwoOrders()
    ensures IsOrder([0, 1], 2) && IsOrder([1, 0], 2)
  {
    assert Indices(2) == [0, 1];
    assert multiset([1, 0]) == multiset([0, 1]);
  }

  /** Reading two transfers in either order. */
  lemma PickTwo<T>(plan: seq<T>)
    requires |plan| == 2
    ensures InRange([0, 1], 2) && InRange([1, 0], 2)
    ensures Pick(plan, [0, 1]) == [plan[0], plan[1]] && Pick(plan, [1, 0]) == [plan[1], plan[0]]
  {
  }

  /**
   * The listing hands back `PurePosixPath(key)`, and `str` of that path is the key the download
   * asks for. A key with a doubled slash is normalised, so the key that was listed is never fetched.
   */
  lemma DoubledSlashNotFetched(a: string, b: string, data: Bytes, base: P.Path, keepStructure: bool)
    requires P.ValidSegment(a) && P.ValidSegment(b)
    ensures var key := a + "//" + b;
      && ListFiles(Listed(Some([key])), None) == Ok([P.Parse(key)])
      && !FetchOne(map[key := data], P.Parse(key), base, keepStructure, false).ok
  {
    var key := a + "//" + b;
    DoubledSlashParse(a, b);
    assert |P.Str(P.Parse(key))| < |key|;
    assert KeepWanted([key], None) == [key];
    assert ParseAll([key]) == [P.Parse(key)];
  }

  /** `PurePosixPath("a//b")` is `a/b`. */
  lemma DoubledSlashParse(a: string, b: string)
    requires P.ValidSegment(a) && P.ValidSegment(b)
    ensures P.Parse(a + "//" + b) == P.Path("", [a, b])
    ensures P.Str(P.Path("", [a, b])) == a + "/" + b
  {
    var key := a + "//" + b;
    DoubledSlashSplit(a, b);
    assert P.KeepSegments([a, "", b]) == [a] + P.KeepSegments(["", b]);
    assert [a, "", b][1..] == ["", b];
    assert ["", b][1..] == [b];
    assert P.KeepSegments([b]) == [b] + P.KeepSegments([]);
    assert key[0] == a[0];
    assert [a, b][1..] == [b];
    assert Text.Join([a, b], '/') == a + ['/'] + Text.Join([b], '/');
  }

  lemma DoubledSlashSplit(a: string, b: string)
    requires '/' !in a && '/' !in b
    ensures Text.Split(a + "//" + b, '/') == [a, "", b]
  {
    var key := a + "//" + b;
    assert key == a + ['/'] + ("/" + b);
    Text.SplitAround(a, "/" + b, '/');
    assert "/" + b == [] + ['/'] + b;
    Text.SplitAround([], b, '/');
    Text.SplitWithoutSep(a, '/');
    Text.SplitWithoutSep(b, '/');
    assert Text.Split([], '/') == [""];
  }

  // ---------------------------------------------------------------------------
  // Uploads
  // ---------------------------------------------------------------------------

  /**
   * `_upload_file_single`: the local file's bytes are written under `str(key)`; a missing local
   * file, or a failure of another step (`fails`), makes it return False.
   */
  function SendOne(disk: Disk, file: P.Path, baseKey: P.Path, fails: bool): Transfer<string>
  {
    var ok := !fails && file in disk;
    Transfer(ok, P.Str(UploadKey(baseKey, file)), if ok then disk[file] else [])
  }

  /** One upload per local file, in submission order. */
  function UploadPlan(disk: Disk, files: seq<P.Path>, baseKey: P.Path, faults: seq<bool>)
    : (plan: seq<Transfer<string>>)
    requires |faults| == |files|
    ensures |plan| == |files|
    ensures forall i :: 0 <= i < |files| ==> plan[i] == SendOne(disk, files[i], baseKey, faults[i])
  {
    seq(|files|, i requires 0 <= i < |files| => SendOne(disk, files[i], baseKey, faults[i]))
  }

  /**
   * `upload_files`, `async_upload_files` and `hybrid_upload_files`: every file is normalised to
   * a path and uploaded under `base_object_key / file.name`, and counted.
   */
  method UploadFiles(bucket: Bucket, disk: Disk, baseKey: PathLike, files: seq<PathLike>,
                     faults: seq<bool>, order: seq<nat>, schedule: Schedule)
    returns (success: nat, failure: nat, after: Bucket)
    requires |faults| == |files|
    requires IsOrder(order, |files|)
    ensures var plan := UploadPlan(disk, NormalizePaths(files), NormalizePath(baseKey), faults);
      && success == Successes(Outcomes(plan))
      && failure == Failures(Outcomes(plan))
      && after == ApplyWrites(bucket, Pick(plan, order))
    ensures success + failure == |files|
  {
    var plan := UploadPlan(disk, NormalizePaths(files), NormalizePath(baseKey), faults);
    after := RunTransfers(bucket, plan, order);
    success, failure := TallyPlan(plan, order, schedule);
  }

  /**
   * Local files with pairwise different names each land under their own key, with their
   * bytes, under every completion order.
   */
  lemma DistinctNamesUpload(bucket: Bucket, disk: Disk, files: seq<P.Path>, baseKey: P.Path, faults: seq<bool>,
                            o1: seq<nat>, o2: seq<nat>)
    requires |faults| == |files| && AllValid(files) && P.Valid(baseKey)
    requires forall i :: 0 <= i < |files| ==> files[i].segs != []
    requires forall i, j :: 0 <= i < j < |files| ==> P.Name(files[i]) != P.Name(files[j])
    requires IsOrder(o1, |files|) && IsOrder(o2, |files|)
    ensures var plan := UploadPlan(disk, files, baseKey, faults);
      var r := ApplyWrites(bucket, Pick(plan, o1));
      && (forall i :: 0 <= i < |files| && !faults[i] && files[i] in disk ==>
            P.Str(UploadKey(baseKey, files[i])) in r && r[P.Str(UploadKey(baseKey, files[i]))] == disk[files[i]])
      && r == ApplyWrites(bucket, Pick(plan, o2))
  {
    var plan := UploadPlan(disk, files, baseKey, faults);
    assert ConsistentDests(plan) by {
      forall i, j | 0 <= i < |plan| && 0 <= j < |plan| && plan[i].ok && plan[j].ok && plan[i].dest == plan[j].dest
        ensures plan[i].data == plan[j].data
      {
        UploadKeysCollide(baseKey, files[i], files[j]);
        assert i == j;
      }
    }
    forall i | 0 <= i < |files| && !faults[i] && files[i] in disk
      ensures var r := ApplyWrites(bucket, Pick(plan, o1));
        P.Str(UploadKey(baseKey, files[i])) in r && r[P.Str(UploadKey(baseKey, files[i]))] == disk[files[i]]
    {
      PlanLands(bucket, plan, o1, i);
    }
    PlanOrderIrrelevant(bucket, plan, o1, o2);
  }

  /** An upload batch changes no key other than the files' upload keys. */
  lemma UploadTouchesOnlyKeys(bucket: Bucket, disk: Disk, files: seq<P.Path>, baseKey: P.Path, faults: seq<bool>,
                              order: seq<nat>, key: string)
    requires |faults| == |files| && IsOrder(order, |files|)
    requires forall i :: 0 <= i < |files| ==> P.Str(UploadKey(baseKey, files[i])) != key
    ensures var r := ApplyWrites(bucket, Pick(UploadPlan(disk, files, baseKey, faults), order));
      (key in r <==> key in bucket) && (key in bucket ==> r[key] == bucket[key])
  {
    PlanElsewhere(bucket, UploadPlan(disk, files, baseKey, faults), order, key);
  }

  // ---------------------------------------------------------------------------
  // Listing
  // ---------------------------------------------------------------------------

  /**
   * The first page of `list_objects_v2`: its `Contents` keys (absent when empty), a ClientError,
   * or any other exception, which the listing does not catch.
   */
  datatype ListResponse = Listed(contents: Option<seq<string>>) | ClientFailure | OtherFailure

  predicate EndsWith(s: string, suffix: string)
  {
    |suffix| <= |s| && s[|s| - |suffix|..] == suffix
  }

  /** `not file_extension or key.endswith(file_extension)`: None and "" keep every key. */
  predicate Wanted(key: string, ext: Option<string>)
  {
    ext.None? || ext.value == "" || EndsWith(key, ext.value)
  }

  /** The wanted keys, in listing order. */
  function KeepWanted(keys: seq<string>, ext: Option<string>): (r: seq<string>)
    ensures |r| <= |keys|
  {
    if keys == [] then []
    else (if Wanted(keys[0], ext) then [keys[0]] else []) + KeepWanted(keys[1..], ext)
  }

  function ParseAll(keys: seq<string>): (r: seq<P.Path>)
    ensures |r| == |keys|
    ensures forall i :: 0 <= i < |keys| ==> r[i] == P.Parse(keys[i])
  {
    if keys == [] then [] else [P.Parse(keys[0])] + ParseAll(keys[1..])
  }

  /**
   * `list_files` and `list_objects`: the wanted keys as paths, in listing order; nothing when
   * `Contents` is absent or the call raises a ClientError; any other exception escapes.
   */
  function ListFiles(resp: ListResponse, ext: Option<string>): (r: Result<seq<P.Path>, Fault>)
    ensures r.Err? <==> resp.OtherFailure?
    ensures r.Err? ==> r.error == OtherFault
    ensures resp.ClientFailure? || (resp.Listed? && resp.contents.None?) ==> r == Ok([])
    ensures resp.Listed? && resp.contents.Some? ==> r == Ok(ParseAll(KeepWanted(resp.contents.value, ext)))
    ensures r.Ok? ==> AllValid(r.value)
  {
    match resp
    case OtherFailure => Err(OtherFault)
    case ClientFailure => Ok([])
    case Listed(None) => Ok([])
    case Listed(Some(keys)) => Ok(ParseAll(KeepWanted(keys, ext)))
  }

  /** A key is kept exactly when it was listed and is wanted. */
  lemma {:induction false} KeepWantedMembers(keys: seq<string>, ext: Option<string>, x: string)
    ensures x in KeepWanted(keys, ext) <==> x in keys && Wanted(x, ext)
  {
    if keys != [] {
      KeepWantedMembers(keys[1..], ext, x);
      assert keys == [keys[0]] + keys[1..];
    }
  }

  /** The filter works key by key, so it keeps the listing order. */
  lemma {:induction false} KeepWantedAppend(a: seq<string>, b: seq<string>, ext: Option<string>)
    ensures KeepWanted(a + b, ext) == KeepWanted(a, ext) + KeepWanted(b, ext)
  {
    if a == [] {
      assert a + b == b;
    } else {
      var head := if Wanted(a[0], ext) then [a[0]] else [];
      assert (a + b)[0] == a[0] && (a + b)[1..] == a[1..] + b;
      assert KeepWanted(a + b, ext) == head + KeepWanted(a[1..] + b, ext);
      assert KeepWanted(a, ext) == head + KeepWanted(a[1..], ext);
      KeepWantedAppend(a[1..], b, ext);
      Seqs.Regroup(head, KeepWanted(a[1..], ext), KeepWanted(b, ext));
    }
  }

  /** Without an extension every listed key is kept. */
  lemma {:induction false} KeepWantedAll(keys: seq<string>, ext: Option<string>)
    requires ext.None? || ext == Some("")
    ensures KeepWanted(keys, ext) == keys
  {
    if keys != [] {
      KeepWantedAll(keys[1..], ext);
      assert keys == [keys[0]] + keys[1..];
    }
  }

  // ---------------------------------------------------------------------------
  // The single-file calls of s3_tools.py and s3_utils.py
  // ---------------------------------------------------------------------------

  /** What the SDK call raises: nothing, a ClientError, or another exception. */
  datatype Fault = NoFault | ClientFault | OtherFault

  /**
   * `upload_file`: a ClientError is logged and swallowed, so the call returns None with the
   * bucket unchanged; any other exception (a missing local file among them) propagates.
   */
  function UploadFile(bucket: Bucket, disk: Disk, key: P.Path, local: P.Path, fault: Fault): (r: Result<Bucket, Fault>)
    ensures r.Err? <==> fault == OtherFault || (fault == NoFault && local !in disk)
    ensures fault == ClientFault ==> r == Ok(bucket)
    ensures r.Ok? && fault == NoFault ==> r.value == bucket[P.Str(key) := disk[local]]
  {
    match fault
    case ClientFault => Ok(bucket)
    case OtherFault => Err(OtherFault)
    case NoFault => if local in disk then Ok(bucket[P.Str(key) := disk[local]]) else Err(OtherFault)
  }

  /** The key string a `Path | str` argument is sent as: `str(item)`. */
  function KeyString(x: PathLike): string
  {
    match x
    case FromStr(s) => s
    case FromPath(p) => P.Str(p)
  }

  /**
   * `download_file` of s3_utils.py: a ClientError (a missing object among them) is logged and
   * swallowed with the disk unchanged; any other exception propagates.
   */
  function DownloadFile(bucket: Bucket, disk: Disk, key: PathLike, local: P.Path, fault: Fault): (r: Result<Disk, Fault>)
    ensures r.Err? <==> fault == OtherFault
    ensures r.Ok? && (fault == ClientFault || KeyString(key) !in bucket) ==> r.value == disk
    ensures fault == NoFault && KeyString(key) in bucket ==> r == Ok(disk[local := bucket[KeyString(key)]])
  {
    match fault
    case OtherFault => Err(OtherFault)
    case ClientFault => Ok(disk)
    case NoFault => if KeyString(key) in bucket then Ok(disk[local := bucket[KeyString(key)]]) else Ok(disk)
  }

  /** The local path `parallel_download` gives a key: the base joined with `Path(file).name`. */
  function FlatTarget(base: P.Path, file: PathLike): P.Path
  {
    P.JoinStr(base, P.Name(NormalizePath(file)))
  }

  /** One `download_file` task of `parallel_download`, as the write it performs. */
  function FetchFlat(bucket: Bucket, file: PathLike, base: P.Path, fault: Fault): Transfer<P.Path>
  {
    var ok := fault == NoFault && KeyString(file) in bucket;
    Transfer(ok, FlatTarget(base, file), if ok then bucket[KeyString(file)] else [])
  }

  /** The writes of `parallel_download`'s tasks, in submission order. */
  function ParallelPlan(bucket: Bucket, files: seq<PathLike>, base: P.Path, faults: seq<Fault>)
    : (plan: seq<Transfer<P.Path>>)
    requires |faults| == |files|
    ensures |plan| == |files|
    ensures forall i :: 0 <= i < |files| ==> plan[i] == FetchFlat(bucket, files[i], base, faults[i])
  {
    if files == [] then []
    else [FetchFlat(bucket, files[0], base, faults[0])] + ParallelPlan(bucket, files[1..], base, faults[1..])
  }

  /** Whether `future.result()` re-raises for some task, reading the tasks in completion order. */
  method AnyRaised(faults: seq<Fault>, order: seq<nat>) returns (raised: bool)
    requires IsOrder(order, |faults|)
    ensures raised <==> exists i :: 0 <= i < |faults| && faults[i] == OtherFault
  {
    OrderFacts(order, |faults|);
    raised := false;
    var k := 0;
    while k < |order|
      invariant 0 <= k <= |order|
      invariant raised <==> exists j :: 0 <= j < k && faults[order[j]] == OtherFault
    {
      if faults[order[k]] == OtherFault {
        raised := true;
      }
      k := k + 1;
    }
    if exists i :: 0 <= i < |faults| && faults[i] == OtherFault {
      var i :| 0 <= i < |faults| && faults[i] == OtherFault;
      assert i in order;
      var p :| 0 <= p < |order| && order[p] == i;
    }
  }

  /**
   * `parallel_download`: one task per key, each downloading to `local_base_path / name`.
   * Every task runs to the end (the pool waits for all of them); the batch raises when some
   * task raised something other than a ClientError.
   */
  method ParallelDownload(bucket: Bucket, disk: Disk, files: seq<PathLike>, base: P.Path, faults: seq<Fault>,
                          order: seq<nat>)
    returns (raised: bool, after: Disk, targets: seq<P.Path>)
    requires |faults| == |files|
    requires IsOrder(order, |files|)
    ensures |targets| == |files|
    ensures forall i :: 0 <= i < |files| ==> targets[i] == FlatTarget(base, files[i])
    ensures raised <==> exists i :: 0 <= i < |files| && faults[i] == OtherFault
    ensures after == ApplyWrites(disk, Pick(ParallelPlan(bucket, files, base, faults), order))
  {
    targets := [];
    var i := 0;
    while i < |files|
      invariant 0 <= i <= |files|
      invariant |targets| == i
      invariant forall j :: 0 <= j < i ==> targets[j] == FlatTarget(base, files[j])
    {
      targets := targets + [FlatTarget(base, files[i])];
      i := i + 1;
    }
    after := RunTransfers(disk, ParallelPlan(bucket, files, base, faults), order);
    raised := AnyRaised(faults, order);
  }
}
