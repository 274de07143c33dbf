/**
 * What the upload loop (internxt_backup.py:657-721) does with each local
 * file, and the counters it leaves behind, as functions of the files and of
 * what the reconciliation found.
 */
module Accounting {
  import opened Text
  import opened LocalScan
  import opened Remote

  /** What the loop does with one local file. */
  datatype Outcome = Skipped | Failed | Done(retries: nat)

  /**
   * What the loop looks up: `existing_files`, `folder_uuids`, the root's
   * uuid, and the outcomes of the upload calls.
   */
  datatype Plan = Plan(existing: map<Path, Uuid>, uuids: map<Path, Uuid>, root: Uuid, svc: Service)

  /** The folder a file goes to: its parent, and the root for the root itself. */
  function DestFolder(f: LocalFile): Path {
    if f.path == [] then [] else Parent(f.path)
  }

  /** `folder_uuids.get(dest_folder_rel, DEST_ROOT_ID)` */
  function DestUuid(p: Plan, f: LocalFile): Uuid {
    if DestFolder(f) in p.uuids then p.uuids[DestFolder(f)] else p.root
  }

  /** `existing_files.get(rel_path)` is truthy. */
  predicate IsExisting(p: Plan, f: LocalFile) {
    f.path in p.existing && p.existing[f.path] != ""
  }

  function OutcomeOf(p: Plan, f: LocalFile): Outcome {
    if IsExisting(p, f) then Skipped
    else match p.svc.upload(f.path, DestUuid(p, f))
      case UploadFailed => Failed
      case Uploaded(r) => Done(r)
  }

  /**
   * The loop's counters, the uuids whose cached listing an upload drops,
   * and the number of files skipped (which the script reports as the size
   * of `existing_files`).
   */
  datatype Uploads = Uploads(files: seq<LocalFile>, size: nat, retriedFiles: nat, totalRetries: nat,
                             failed: nat, evicted: set<Uuid>, skipped: nat)

  const NoUploads := Uploads([], 0, 0, 0, 0, {}, 0)

  function Record(t: Uploads, p: Plan, f: LocalFile): Uploads {
    match OutcomeOf(p, f)
    case Skipped => t.(skipped := t.skipped + 1)
    case Failed => t.(failed := t.failed + 1)
    case Done(r) =>
      t.(files := t.files + [f], size := t.size + f.size,
         retriedFiles := if r > 0 then t.retriedFiles + 1 else t.retriedFiles,
         totalRetries := if r > 0 then t.totalRetries + r else t.totalRetries,
         evicted := t.evicted + {DestUuid(p, f)})
  }

  function UploadAll(p: Plan, fs: seq<LocalFile>): Uploads
    decreases |fs|
  {
    if fs == [] then NoUploads else Record(UploadAll(p, fs[..|fs| - 1]), p, fs[|fs| - 1])
  }

  /** Every file is uploaded, failed or skipped, exactly one of them. */
  lemma {:induction false} UploadCountsAddUp(p: Plan, fs: seq<LocalFile>)
    ensures var t := UploadAll(p, fs); |t.files| + t.failed + t.skipped == |fs|
    decreases |fs|
  {
    if fs != [] {
      UploadCountsAddUp(p, fs[..|fs| - 1]);
    }
  }

  /** `uploaded_size` is the total size of `uploaded_files`. */
  lemma {:induction false} UploadedSizeIsSum(p: Plan, fs: seq<LocalFile>)
    ensures var t := UploadAll(p, fs); t.size == SumSizes(t.files)
    decreases |fs|
  {
    if fs != [] {
      var t := UploadAll(p, fs[..|fs| - 1]);
      UploadedSizeIsSum(p, fs[..|fs| - 1]);
      var f := fs[|fs| - 1];
      assert (t.files + [f])[..|t.files|] == t.files;
    }
  }

  /** The uploaded files are files of the input, in order, none of them an existing one. */
  lemma {:induction false} ExistingNeverUploaded(p: Plan, fs: seq<LocalFile>)
    ensures forall f :: f in UploadAll(p, fs).files ==> f in fs && !IsExisting(p, f)
    decreases |fs|
  {
    if fs != [] {
      ExistingNeverUploaded(p, fs[..|fs| - 1]);
      assert forall f :: f in fs[..|fs| - 1] ==> f in fs;
    }
  }

  /** A file counts as retried only when it was uploaded, and each one after at least one retry. */
  lemma {:induction false} RetriedBound(p: Plan, fs: seq<LocalFile>)
    ensures var t := UploadAll(p, fs); t.retriedFiles <= |t.files| && t.retriedFiles <= t.totalRetries
    decreases |fs|
  {
    if fs != [] {
      RetriedBound(p, fs[..|fs| - 1]);
    }
  }

  /** The paths of the files that are skipped. */
  function ExistingPaths(p: Plan, fs: seq<LocalFile>): set<Path> {
    set f | f in fs && IsExisting(p, f) :: f.path
  }

  lemma ExistingPathsAppend(p: Plan, fs: seq<LocalFile>, f: LocalFile)
    ensures ExistingPaths(p, fs + [f]) == ExistingPaths(p, fs) + (if IsExisting(p, f) then {f.path} else {})
  {
    assert forall g :: g in fs + [f] <==> g in fs || g == f;
  }

  /** With distinct paths, one file is skipped per existing path. */
  lemma {:induction false} SkippedCount(p: Plan, fs: seq<LocalFile>)
    requires DistinctFilePaths(fs)
    ensures UploadAll(p, fs).skipped == |ExistingPaths(p, fs)|
    decreases |fs|
  {
    if fs != [] {
      var fs' := fs[..|fs| - 1];
      var f := fs[|fs| - 1];
      assert DistinctFilePaths(fs');
      SkippedCount(p, fs');
      assert fs == fs' + [f];
      ExistingPathsAppend(p, fs', f);
      assert f.path !in ExistingPaths(p, fs') by {
        forall g | g in fs' ensures g.path != f.path {
          var j :| 0 <= j < |fs'| && fs'[j] == g;
        }
      }
      RecordSkipped(UploadAll(p, fs'), p, f);
    }
  }

  lemma RecordSkipped(t: Uploads, p: Plan, f: LocalFile)
    ensures Record(t, p, f).skipped == t.skipped + (if IsExisting(p, f) then 1 else 0)
  {
  }

  /**
   * When every key of `existing_files` is the path of a local file and holds
   * a uuid, the files skipped are exactly the existing ones.
   */
  lemma SkippedAreExisting(p: Plan, fs: seq<LocalFile>)
    requires DistinctFilePaths(fs) && p.existing.Keys <= FilePaths(fs)
    requires forall k :: k in p.existing ==> p.existing[k] != ""
    ensures UploadAll(p, fs).skipped == |p.existing|
  {
    SkippedCount(p, fs);
    forall k | k in p.existing ensures k in ExistingPaths(p, fs) {
      var f :| f in fs && f.path == k;
    }
    assert ExistingPaths(p, fs) == p.existing.Keys;
  }

  /**
   * The upload loop's totals when `existing_files` names local files, each
   * with a uuid: every file is uploaded, failed or existing, no existing
   * file is uploaded, and retried files are bounded by the uploads and by
   * the retries.
   */
  lemma UploadSummary(p: Plan, fs: seq<LocalFile>)
    requires DistinctFilePaths(fs) && p.existing.Keys <= FilePaths(fs)
    requires forall k :: k in p.existing ==> p.existing[k] != ""
    ensures var t := UploadAll(p, fs);
      && |t.files| + t.failed + |p.existing| == |fs|
      && (forall f :: f in t.files ==> f in fs && f.path !in p.existing)
      && t.retriedFiles <= |t.files| && t.retriedFiles <= t.totalRetries
  {
    UploadCountsAddUp(p, fs);
    SkippedAreExisting(p, fs);
    ExistingNeverUploaded(p, fs);
    RetriedBound(p, fs);
  }
}
