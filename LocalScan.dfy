/**
 * The local scan (internxt_backup.py:426-476): a walk over the source
 * directory that records, for every folder not excluded by an ignore
 * marker, its files' total size and its child folders, and collects the
 * files that are small enough to upload.
 *
 * The file system is an abstract tree of directories. `os.walk` is a
 * pre-order traversal of it; clearing `dirs` for a directory that holds the
 * marker is the traversal not descending below that directory.
 */
module LocalScan {
  import opened Wrappers
  import opened Text

  const IgnoreFileName := ".internxtignore"
  const FileSizeUploadLimitBytes: nat := 21474836480

  /** A file as the walk lists it; `size` is what `os.path.getsize` returns, `None` when it raised. */
  datatype FileEntry = FileEntry(name: string, size: Option<nat>)

  datatype Dir = Dir(name: string, files: seq<FileEntry>, subdirs: seq<Dir>)

  /** One `(cur_dir, dirs, files)` triple of the walk, with the directory's relative path. */
  datatype Step = Step(path: Path, dir: Dir)

  /** An entry of `all_local_files` (the absolute path is left out). */
  datatype LocalFile = LocalFile(path: Path, size: nat)

  /** What the scan leaves behind for the later phases. */
  datatype Snapshot = Snapshot(
    folderSizes: map<Path, nat>,
    subdirMap: map<Path, seq<string>>,
    fileSizes: map<Path, nat>,
    allFiles: seq<LocalFile>,
    allFolders: seq<Path>,
    total: nat)

  // ---------------------------------------------------------------------
  // The directory tree

  predicate HasIgnoreMarker(d: Dir) {
    exists i :: 0 <= i < |d.files| && d.files[i].name == IgnoreFileName
  }

  /** The names in a directory's file list, as `os.walk` yields them. */
  function FileNames(fs: seq<FileEntry>): (r: seq<string>)
    ensures |r| == |fs| && forall i :: 0 <= i < |fs| ==> r[i] == fs[i].name
  {
    if fs == [] then [] else [fs[0].name] + FileNames(fs[1..])
  }

  predicate DistinctFileNames(fs: seq<FileEntry>) {
    forall a, b :: 0 <= a < b < |fs| ==> fs[a].name != fs[b].name
  }

  predicate DistinctDirNames(ds: seq<Dir>) {
    forall a, b :: 0 <= a < b < |ds| ==> ds[a].name != ds[b].name
  }

  /** What a real file system guarantees: names are unique within a directory. */
  predicate WellFormedTree(d: Dir)
    decreases d
  {
    && DistinctFileNames(d.files)
    && DistinctDirNames(d.subdirs)
    && forall i :: 0 <= i < |d.subdirs| ==> WellFormedTree(d.subdirs[i])
  }

  predicate WellFormedForest(ds: seq<Dir>) {
    DistinctDirNames(ds) && forall i :: 0 <= i < |ds| ==> WellFormedTree(ds[i])
  }

  // ---------------------------------------------------------------------
  // The walk

  /** `os.walk` from directory `d` at relative path `p`, not descending below a marked directory. */
  function Walk(d: Dir, p: Path): (w: seq<Step>)
    ensures |w| >= 1 && w[0] == Step(p, d)
    decreases d, 1
  {
    [Step(p, d)] + (if HasIgnoreMarker(d) then [] else WalkAll(d.subdirs, p))
  }

  function WalkAll(ds: seq<Dir>, p: Path): seq<Step>
    decreases ds, 0
  {
    if ds == [] then [] else Walk(ds[0], p + [ds[0].name]) + WalkAll(ds[1..], p)
  }

  predicate DistinctPaths(w: seq<Step>) {
    forall i, j :: 0 <= i < j < |w| ==> w[i].path != w[j].path
  }

  /** The paths of the steps whose directory has no marker. */
  function RecordedPaths(w: seq<Step>): set<Path> {
    set i | 0 <= i < |w| && !HasIgnoreMarker(w[i].dir) :: w[i].path
  }

  /** `p` is `q` or one of its ancestors. */
  predicate IsAncestor(p: Path, q: Path) {
    |p| <= |q| && q[..|p|] == p
  }

  lemma RecordedPathsAppend(a: seq<Step>, b: seq<Step>)
    ensures RecordedPaths(a + b) == RecordedPaths(a) + RecordedPaths(b)
  {
    var ab := a + b;
    forall x | x in RecordedPaths(ab) ensures x in RecordedPaths(a) + RecordedPaths(b) {
      var i :| 0 <= i < |ab| && !HasIgnoreMarker(ab[i].dir) && ab[i].path == x;
      if i < |a| { assert ab[i] == a[i]; } else { assert ab[i] == b[i - |a|]; }
    }
    forall x | x in RecordedPaths(a) + RecordedPaths(b) ensures x in RecordedPaths(ab) {
      if x in RecordedPaths(a) {
        var i :| 0 <= i < |a| && !HasIgnoreMarker(a[i].dir) && a[i].path == x;
        assert ab[i] == a[i];
      } else {
        var i :| 0 <= i < |b| && !HasIgnoreMarker(b[i].dir) && b[i].path == x;
        assert ab[|a| + i] == b[i];
      }
    }
  }

  /** The names of a directory's subdirectories, as `os.walk` yields them. */
  function NamesOf(ds: seq<Dir>): seq<string> {
    seq(|ds|, i requires 0 <= i < |ds| => ds[i].name)
  }

  lemma TailWellFormed(ds: seq<Dir>)
    requires ds != [] && WellFormedForest(ds)
    ensures WellFormedForest(ds[1..]) && WellFormedTree(ds[0]) && ds[0].name !in NamesOf(ds[1..])
  {
    forall a, b | 0 <= a < b < |ds[1..]| ensures ds[1..][a].name != ds[1..][b].name {
      assert ds[1..][a] == ds[a + 1] && ds[1..][b] == ds[b + 1];
    }
  }

  lemma DistinctAppend(a: seq<Step>, b: seq<Step>)
    requires DistinctPaths(a) && DistinctPaths(b)
    requires forall x, y :: x in a && y in b ==> x.path != y.path
    ensures DistinctPaths(a + b)
  {
    var ab := a + b;
    forall i, j | 0 <= i < j < |ab| ensures ab[i].path != ab[j].path {
      if j < |a| {
        assert ab[i] == a[i] && ab[j] == a[j];
      } else if i >= |a| {
        assert ab[i] == b[i - |a|] && ab[j] == b[j - |a|];
      } else {
        assert ab[i] == a[i] && ab[j] == b[j - |a|];
      }
    }
  }

  /** Every step of the walk from `d` at `p` lies at or below `p`. */
  lemma {:induction false} WalkPrefix(d: Dir, p: Path)
    ensures forall s :: s in Walk(d, p) ==> IsAncestor(p, s.path)
    decreases d, 1
  {
    if !HasIgnoreMarker(d) {
      WalkAllPrefix(d.subdirs, p);
    }
  }

  /** Every step below a forest at `p` lies strictly below `p`, under one of the forest's names. */
  lemma {:induction false} WalkAllPrefix(ds: seq<Dir>, p: Path)
    ensures forall s :: s in WalkAll(ds, p) ==>
      |s.path| > |p| && IsAncestor(p, s.path) && s.path[|p|] in NamesOf(ds)
    decreases ds, 0
  {
    if ds != [] {
      var c := p + [ds[0].name];
      WalkPrefix(ds[0], c);
      WalkAllPrefix(ds[1..], p);
      assert NamesOf(ds) == [ds[0].name] + NamesOf(ds[1..]);
      forall s: Step | s in Walk(ds[0], c)
        ensures |s.path| > |p| && IsAncestor(p, s.path) && s.path[|p|] in NamesOf(ds)
      {
        assert s.path[..|c|] == c;
        assert s.path[..|p|] == c[..|p|];
        assert s.path[|p|] == c[|p|];
      }
    }
  }

  /** Paths of a walk are distinct. */
  lemma {:induction false} WalkDistinct(d: Dir, p: Path)
    requires WellFormedTree(d)
    ensures DistinctPaths(Walk(d, p))
    decreases d, 1
  {
    if !HasIgnoreMarker(d) {
      WalkAllDistinct(d.subdirs, p);
      WalkAllPrefix(d.subdirs, p);
      DistinctAppend([Step(p, d)], WalkAll(d.subdirs, p));
    }
  }

  lemma {:induction false} WalkAllDistinct(ds: seq<Dir>, p: Path)
    requires WellFormedForest(ds)
    ensures DistinctPaths(WalkAll(ds, p))
    decreases ds, 0
  {
    if ds != [] {
      var c := p + [ds[0].name];
      TailWellFormed(ds);
      WalkDistinct(ds[0], c);
      WalkAllDistinct(ds[1..], p);
      WalkPrefix(ds[0], c);
      WalkAllPrefix(ds[1..], p);
      forall x, y | x in Walk(ds[0], c) && y in WalkAll(ds[1..], p) ensures x.path != y.path {
        assert x.path[..|c|] == c;
        assert x.path[|p|] == ds[0].name;
      }
      DistinctAppend(Walk(ds[0], c), WalkAll(ds[1..], p));
    }
  }

  /** Every step below a forest at `p` has `p` or a recorded step as parent. */
  lemma {:induction false} WalkAllParents(ds: seq<Dir>, p: Path)
    ensures forall s :: s in WalkAll(ds, p) ==>
      s.path != [] && (Parent(s.path) == p || Parent(s.path) in RecordedPaths(WalkAll(ds, p)))
    decreases ds, 0
  {
    if ds != [] {
      var c := p + [ds[0].name];
      var head := Walk(ds[0], c);
      var rest := WalkAll(ds[1..], p);
      WalkParents(ds[0], c);
      WalkAllParents(ds[1..], p);
      RecordedPathsAppend(head, rest);
      forall s: Step | s in head
        ensures s.path != [] && (Parent(s.path) == p || Parent(s.path) in RecordedPaths(head + rest))
      {
        var i :| 0 <= i < |head| && head[i] == s;
        if i == 0 {
          assert Parent(c) == p;
        }
      }
    }
  }

  /** Every step of a walk but the first has a recorded parent among the steps. */
  lemma {:induction false} WalkParents(d: Dir, p: Path)
    ensures forall i :: 1 <= i < |Walk(d, p)| ==>
      Walk(d, p)[i].path != [] && Parent(Walk(d, p)[i].path) in RecordedPaths(Walk(d, p))
    decreases d, 1
  {
    var w := Walk(d, p);
    if !HasIgnoreMarker(d) {
      var rest := WalkAll(d.subdirs, p);
      assert w == [Step(p, d)] + rest;
      WalkAllParents(d.subdirs, p);
      RecordedPathsAppend([Step(p, d)], rest);
      assert p in RecordedPaths([Step(p, d)]) by {
        assert [Step(p, d)][0] == Step(p, d);
      }
      assert RecordedPaths(rest) <= RecordedPaths(w);
      forall i | 1 <= i < |w| ensures w[i].path != [] && Parent(w[i].path) in RecordedPaths(w) {
        ParentInRest(w[i], rest, p);
      }
    } else {
      assert |w| == 1;
    }
  }

  lemma ParentInRest(s: Step, rest: seq<Step>, p: Path)
    requires s in rest
    requires forall t :: t in rest ==> t.path != [] && (Parent(t.path) == p || Parent(t.path) in RecordedPaths(rest))
    ensures s.path != [] && (Parent(s.path) == p || Parent(s.path) in RecordedPaths(rest))
  {
  }

  /** Steps of a walk that share a path are the same step. */
  lemma SamePathSameStep(w: seq<Step>, s: Step, t: Step)
    requires DistinctPaths(w) && s in w && t in w
    ensures s.path == t.path ==> s == t
  {
    var i :| 0 <= i < |w| && w[i] == s;
    var j :| 0 <= j < |w| && w[j] == t;
  }

  /** Every directory the walk visits is itself well formed. */
  lemma {:induction false} WalkTreesWellFormed(d: Dir, p: Path)
    requires WellFormedTree(d)
    ensures forall s :: s in Walk(d, p) ==> WellFormedTree(s.dir)
    decreases d, 1
  {
    if !HasIgnoreMarker(d) {
      WalkAllTreesWellFormed(d.subdirs, p);
    }
  }

  lemma {:induction false} WalkAllTreesWellFormed(ds: seq<Dir>, p: Path)
    requires WellFormedForest(ds)
    ensures forall s :: s in WalkAll(ds, p) ==> WellFormedTree(s.dir)
    decreases ds, 0
  {
    if ds != [] {
      TailWellFormed(ds);
      WalkTreesWellFormed(ds[0], p + [ds[0].name]);
      WalkAllTreesWellFormed(ds[1..], p);
    }
  }

  /** No step lies strictly below a marked one. */
  predicate StopsAtMarkers(w: seq<Step>) {
    forall s, t :: s in w && t in w && HasIgnoreMarker(s.dir) && IsAncestor(s.path, t.path) ==> t.path == s.path
  }

  /**
   * The walk does not descend below a marked directory: no step lies
   * strictly below one.
   */
  lemma {:induction false} WalkStopsAtMarker(d: Dir, p: Path)
    requires WellFormedTree(d)
    ensures StopsAtMarkers(Walk(d, p))
    decreases d, 1
  {
    var w := Walk(d, p);
    if !HasIgnoreMarker(d) {
      var rest := WalkAll(d.subdirs, p);
      assert w == [Step(p, d)] + rest;
      WalkAllStopsAtMarker(d.subdirs, p);
      WalkAllPrefix(d.subdirs, p);
      forall s, t | s in w && t in w && HasIgnoreMarker(s.dir) && IsAncestor(s.path, t.path)
        ensures t.path == s.path
      {
        assert s in rest;
        if t != Step(p, d) {
          assert t in rest;
        }
      }
    }
  }

  lemma {:induction false} WalkAllStopsAtMarker(ds: seq<Dir>, p: Path)
    requires WellFormedForest(ds)
    ensures StopsAtMarkers(WalkAll(ds, p))
    decreases ds, 0
  {
    if ds != [] {
      var c := p + [ds[0].name];
      var head := Walk(ds[0], c);
      var rest := WalkAll(ds[1..], p);
      TailWellFormed(ds);
      WalkStopsAtMarker(ds[0], c);
      WalkAllStopsAtMarker(ds[1..], p);
      WalkAllPrefix(ds, p);
      WalkAllPrefix(ds[1..], p);
      WalkPrefix(ds[0], c);
    }
  }

  // ---------------------------------------------------------------------
  // What the scan computes

  /** The size the scan uses for a file: `getsize`, or 0 when it raised. */
  function SizeOf(e: FileEntry): nat {
    e.size.GetOr(0)
  }

  function FileOf(p: Path, e: FileEntry): LocalFile {
    LocalFile(p + [e.name], SizeOf(e))
  }

  /** The files of a directory at `p` that are kept, in listing order. */
  function Kept(p: Path, fs: seq<FileEntry>): seq<LocalFile>
    decreases |fs|
  {
    if fs == [] then []
    else
      var e := fs[|fs| - 1];
      Kept(p, fs[..|fs| - 1]) + (if SizeOf(e) > FileSizeUploadLimitBytes then [] else [FileOf(p, e)])
  }

  function SumSizes(fs: seq<LocalFile>): nat
    decreases |fs|
  {
    if fs == [] then 0 else SumSizes(fs[..|fs| - 1]) + fs[|fs| - 1].size
  }

  /** The sum of `m` over the paths `ps`. */
  function SumOver(ps: seq<Path>, m: map<Path, nat>): nat
    requires forall q :: q in ps ==> q in m
    decreases |ps|
  {
    if ps == [] then 0 else SumOver(ps[..|ps| - 1], m) + m[ps[|ps| - 1]]
  }

  /** `folder_subdir_map[q]` as a `defaultdict(list)` reads it. */
  function SubdirsOf(m: map<Path, seq<string>>, q: Path): seq<string> {
    if q in m then m[q] else []
  }

  function AddFiles(m: map<Path, nat>, fs: seq<LocalFile>): map<Path, nat>
    decreases |fs|
  {
    if fs == [] then m else AddFiles(m, fs[..|fs| - 1])[fs[|fs| - 1].path := fs[|fs| - 1].size]
  }

  /** The effect of one walk step on the scan's collections. */
  function ScanStep(s: Snapshot, st: Step): Snapshot {
    if HasIgnoreMarker(st.dir) then s
    else
      var kept := Kept(st.path, st.dir.files);
      Snapshot(
        s.folderSizes[st.path := SumSizes(kept)],
        if st.path == [] then s.subdirMap
        else s.subdirMap[Parent(st.path) := SubdirsOf(s.subdirMap, Parent(st.path)) + [Last(st.path)]],
        AddFiles(s.fileSizes, kept),
        s.allFiles + kept,
        s.allFolders + [st.path],
        s.total + SumSizes(kept))
  }

  const EmptySnapshot := Snapshot(map[], map[], map[], [], [], 0)

  /** The scan's collections after the steps `w`. */
  function ScanSteps(w: seq<Step>): Snapshot
    decreases |w|
  {
    if w == [] then EmptySnapshot else ScanStep(ScanSteps(w[..|w| - 1]), w[|w| - 1])
  }

  // ---------------------------------------------------------------------
  // The scan loop (internxt_backup.py:433-476)

  /** The inner loop over one directory's files. */
  method ScanFiles(cur: Path, files: seq<FileEntry>, allFiles0: seq<LocalFile>, fileSizes0: map<Path, nat>)
    returns (allFiles: seq<LocalFile>, fileSizes: map<Path, nat>, folderSize: nat)
    ensures allFiles == allFiles0 + Kept(cur, files)
    ensures fileSizes == AddFiles(fileSizes0, Kept(cur, files))
    ensures folderSize == SumSizes(Kept(cur, files))
  {
    allFiles, fileSizes, folderSize := allFiles0, fileSizes0, 0;
    for j := 0 to |files|
      invariant allFiles == allFiles0 + Kept(cur, files[..j])
      invariant fileSizes == AddFiles(fileSizes0, Kept(cur, files[..j]))
      invariant folderSize == SumSizes(Kept(cur, files[..j]))
    {
      assert files[..j + 1][..j] == files[..j];
      var fileSize := files[j].size.GetOr(0);
      if fileSize > FileSizeUploadLimitBytes {
        assert Kept(cur, files[..j + 1]) == Kept(cur, files[..j]);
        continue;
      }
      var f := LocalFile(cur + [files[j].name], fileSize);
      assert Kept(cur, files[..j + 1]) == Kept(cur, files[..j]) + [f];
      assert (Kept(cur, files[..j]) + [f])[..|Kept(cur, files[..j])|] == Kept(cur, files[..j]);
      allFiles := allFiles + [f];
      fileSizes := fileSizes[f.path := fileSize];
      folderSize := folderSize + fileSize;
    }
    assert files[..|files|] == files;
  }

  /** The scan over `os.walk` of the source directory. */
  method Scan(root: Dir) returns (snap: Snapshot)
    ensures snap == ScanSteps(Walk(root, []))
  {
    var steps := Walk(root, []);
    var allFiles: seq<LocalFile> := [];
    var allFolders: seq<Path> := [];
    var subdirMap: map<Path, seq<string>> := map[];
    var fileSizes: map<Path, nat> := map[];
    var folderSizes: map<Path, nat> := map[];
    var total: nat := 0;
    for i := 0 to |steps|
      invariant Snapshot(folderSizes, subdirMap, fileSizes, allFiles, allFolders, total) == ScanSteps(steps[..i])
    {
      assert steps[..i + 1][..i] == steps[..i];
      var cur := steps[i].path;
      var dir := steps[i].dir;
      assert ScanSteps(steps[..i + 1]) == ScanStep(ScanSteps(steps[..i]), steps[i]);
      if IgnoreFileName in FileNames(dir.files) {
        continue;
      }
      allFolders := allFolders + [cur];
      if cur != [] {
        var parent := cur[..|cur| - 1];
        var siblings := if parent in subdirMap then subdirMap[parent] else [];
        subdirMap := subdirMap[parent := siblings + [cur[|cur| - 1]]];
      }
      var folderSize;
      allFiles, fileSizes, folderSize := ScanFiles(cur, dir.files, allFiles, fileSizes);
      folderSizes := folderSizes[cur := folderSize];
      total := total + folderSize;
    }
    assert steps[..|steps|] == steps;
    snap := Snapshot(folderSizes, subdirMap, fileSizes, allFiles, allFolders, total);
  }

  // ---------------------------------------------------------------------
  // Properties of the scan

  predicate NoDuplicates(ps: seq<Path>) {
    forall i, j :: 0 <= i < j < |ps| ==> ps[i] != ps[j]
  }

  predicate DistinctFilePaths(fs: seq<LocalFile>) {
    forall i, j :: 0 <= i < j < |fs| ==> fs[i].path != fs[j].path
  }

  function FilePaths(fs: seq<LocalFile>): set<Path> {
    set f | f in fs :: f.path
  }

  /** `f` is a kept file of a recorded step of `w`. */
  predicate FromStep(w: seq<Step>, f: LocalFile) {
    exists st, e :: st in w && !HasIgnoreMarker(st.dir) && e in st.dir.files
      && SizeOf(e) <= FileSizeUploadLimitBytes && f == FileOf(st.path, e)
  }

  lemma {:induction false} SumSizesAppend(a: seq<LocalFile>, b: seq<LocalFile>)
    ensures SumSizes(a + b) == SumSizes(a) + SumSizes(b)
    decreases |b|
  {
    if b != [] {
      var b' := b[..|b| - 1];
      assert (a + b)[..|a + b| - 1] == a + b';
      assert (a + b)[|a + b| - 1] == b[|b| - 1];
      SumSizesAppend(a, b');
    } else {
      assert a + b == a;
    }
  }

  lemma {:induction false} SumOverFresh(ps: seq<Path>, m: map<Path, nat>, q: Path, v: nat)
    requires q !in ps && forall x :: x in ps ==> x in m
    ensures SumOver(ps, m[q := v]) == SumOver(ps, m)
    decreases |ps|
  {
    if ps != [] {
      SumOverFresh(ps[..|ps| - 1], m, q, v);
    }
  }

  /** A file is kept exactly when it is listed and within the upload limit. */
  lemma {:induction false} KeptMembers(p: Path, fs: seq<FileEntry>)
    ensures forall f :: f in Kept(p, fs) <==>
      exists e :: e in fs && SizeOf(e) <= FileSizeUploadLimitBytes && f == FileOf(p, e)
    decreases |fs|
  {
    if fs != [] {
      var fs' := fs[..|fs| - 1];
      KeptMembers(p, fs');
      assert fs == fs' + [fs[|fs| - 1]];
    }
  }

  lemma {:induction false} KeptDistinct(p: Path, fs: seq<FileEntry>)
    requires DistinctFileNames(fs)
    ensures DistinctFilePaths(Kept(p, fs))
    decreases |fs|
  {
    if fs != [] {
      var fs' := fs[..|fs| - 1];
      var e := fs[|fs| - 1];
      KeptDistinct(p, fs');
      KeptMembers(p, fs');
      var k := Kept(p, fs);
      var k' := Kept(p, fs');
      forall i, j | 0 <= i < j < |k| ensures k[i].path != k[j].path {
        if j >= |k'| {
          assert k[i] in k';
          var e' :| e' in fs' && SizeOf(e') <= FileSizeUploadLimitBytes && k[i] == FileOf(p, e');
          assert k[j] == FileOf(p, e);
          var a :| 0 <= a < |fs'| && fs'[a] == e';
          assert fs[a] == e';
          assert (p + [e'.name])[|p|] == e'.name;
        } else {
          assert k[i] == k'[i] && k[j] == k'[j];
        }
      }
    }
  }

  lemma DistinctFilesAppend(a: seq<LocalFile>, b: seq<LocalFile>)
    requires DistinctFilePaths(a) && DistinctFilePaths(b)
    requires forall f, g :: f in a && g in b ==> f.path != g.path
    ensures DistinctFilePaths(a + b)
  {
    var ab := a + b;
    forall i, j | 0 <= i < j < |ab| ensures ab[i].path != ab[j].path {
      if j < |a| {
        assert ab[i] == a[i] && ab[j] == a[j];
      } else if i >= |a| {
        assert ab[i] == b[i - |a|] && ab[j] == b[j - |a|];
      } else {
        assert ab[i] == a[i] && ab[j] == b[j - |a|];
      }
    }
  }

  /** `AddFiles` sets each listed path to its file's size and leaves the other keys alone. */
  lemma {:induction false} AddFilesSpec(m: map<Path, nat>, fs: seq<LocalFile>)
    requires DistinctFilePaths(fs)
    ensures AddFiles(m, fs).Keys == m.Keys + FilePaths(fs)
    ensures forall i :: 0 <= i < |fs| ==> AddFiles(m, fs)[fs[i].path] == fs[i].size
    ensures forall k :: k in m && k !in FilePaths(fs) ==> AddFiles(m, fs)[k] == m[k]
    decreases |fs|
  {
    if fs != [] {
      var fs' := fs[..|fs| - 1];
      var g := fs[|fs| - 1];
      assert fs == fs' + [g];
      AddFilesSpec(m, fs');
      var m' := AddFiles(m, fs');
      assert AddFiles(m, fs) == m'[g.path := g.size];
      forall i | 0 <= i < |fs| - 1 ensures AddFiles(m, fs)[fs[i].path] == fs[i].size {
        assert fs[i] == fs'[i];
        assert fs[i].path != g.path;
      }
    }
  }

  /** `total_local_size` is the sum of the kept files' sizes. */
  lemma {:induction false} ScanTotal(w: seq<Step>)
    ensures ScanSteps(w).total == SumSizes(ScanSteps(w).allFiles)
    decreases |w|
  {
    if w != [] {
      var s := ScanSteps(w[..|w| - 1]);
      ScanTotal(w[..|w| - 1]);
      var st := w[|w| - 1];
      SumSizesAppend(s.allFiles, Kept(st.path, st.dir.files));
    }
  }

  /** The recorded folders are the unmarked steps. */
  lemma {:induction false} ScanFolderKeys(w: seq<Step>)
    ensures ScanSteps(w).folderSizes.Keys == RecordedPaths(w)
    ensures forall q :: q in ScanSteps(w).allFolders <==> q in ScanSteps(w).folderSizes
    decreases |w|
  {
    if w != [] {
      var w' := w[..|w| - 1];
      var st := w[|w| - 1];
      assert w == w' + [st];
      assert ScanSteps(w) == ScanStep(ScanSteps(w'), st);
      ScanFolderKeys(w');
      RecordedPathsAppend(w', [st]);
      assert [st][0] == st;
      if !HasIgnoreMarker(st.dir) {
        assert RecordedPaths([st]) == {st.path};
      } else {
        assert RecordedPaths([st]) == {};
      }
    }
  }

  /** Each recorded folder is listed once, and `total_local_size` is the sum of `folder_sizes`. */
  lemma {:induction false} ScanFolderSums(w: seq<Step>)
    requires DistinctPaths(w)
    ensures NoDuplicates(ScanSteps(w).allFolders)
    ensures (ScanFolderKeys(w); ScanSteps(w).total == SumOver(ScanSteps(w).allFolders, ScanSteps(w).folderSizes))
    decreases |w|
  {
    if w != [] {
      var w' := w[..|w| - 1];
      var st := w[|w| - 1];
      var s := ScanSteps(w');
      assert ScanSteps(w) == ScanStep(s, st);
      ScanFolderSums(w');
      ScanFolderKeys(w');
      if !HasIgnoreMarker(st.dir) {
        assert st.path !in RecordedPaths(w');
        var v := SumSizes(Kept(st.path, st.dir.files));
        var ps := s.allFolders + [st.path];
        assert ps[..|ps| - 1] == s.allFolders;
        SumOverFresh(s.allFolders, s.folderSizes, st.path, v);
      }
    }
  }

  /** A name is in `folder_subdir_map[q]` exactly when `q` joined with it is a recorded folder. */
  lemma {:induction false} ScanSubdirs(w: seq<Step>)
    ensures forall q, n :: n in SubdirsOf(ScanSteps(w).subdirMap, q) <==> q + [n] in ScanSteps(w).folderSizes
    decreases |w|
  {
    if w != [] {
      var w' := w[..|w| - 1];
      var st := w[|w| - 1];
      var s := ScanSteps(w');
      var s2 := ScanSteps(w);
      assert s2 == ScanStep(s, st);
      ScanSubdirs(w');
      if !HasIgnoreMarker(st.dir) && st.path != [] {
        var p := st.path;
        assert p == Parent(p) + [Last(p)];
        forall q, n ensures n in SubdirsOf(s2.subdirMap, q) <==> q + [n] in s2.folderSizes {
          assert q + [n] in s2.folderSizes <==> q + [n] in s.folderSizes || q + [n] == p;
          if q == Parent(p) {
            assert SubdirsOf(s2.subdirMap, q) == SubdirsOf(s.subdirMap, q) + [Last(p)];
            assert q + [n] == p <==> n == Last(p);
          } else {
            assert SubdirsOf(s2.subdirMap, q) == SubdirsOf(s.subdirMap, q);
            assert (q + [n])[..|q|] == q;
          }
        }
      }
    }
  }

  /** Every kept file comes from a recorded step and a listed entry within the limit. */
  lemma {:induction false} ScanFilesOrigin(w: seq<Step>)
    ensures forall f :: f in ScanSteps(w).allFiles ==> FromStep(w, f)
    decreases |w|
  {
    if w != [] {
      var w' := w[..|w| - 1];
      var st := w[|w| - 1];
      assert w == w' + [st];
      assert ScanSteps(w) == ScanStep(ScanSteps(w'), st);
      ScanFilesOrigin(w');
      KeptMembers(st.path, st.dir.files);
      forall f | f in ScanSteps(w).allFiles ensures FromStep(w, f) {
        if f in ScanSteps(w').allFiles {
          var st', e :| st' in w' && !HasIgnoreMarker(st'.dir) && e in st'.dir.files
            && SizeOf(e) <= FileSizeUploadLimitBytes && f == FileOf(st'.path, e);
          assert st' in w;
        } else {
          assert st in w;
        }
      }
    }
  }

  /** The files a new step adds do not share a path with the files already kept. */
  lemma NewFilesFresh(w: seq<Step>, st: Step)
    requires DistinctPaths(w + [st])
    ensures forall f, g :: f in ScanSteps(w).allFiles && g in Kept(st.path, st.dir.files) ==> f.path != g.path
  {
    ScanFilesOrigin(w);
    KeptMembers(st.path, st.dir.files);
    var w2 := w + [st];
    forall f, g | f in ScanSteps(w).allFiles && g in Kept(st.path, st.dir.files) ensures f.path != g.path {
      var st', e :| st' in w && !HasIgnoreMarker(st'.dir) && e in st'.dir.files
        && SizeOf(e) <= FileSizeUploadLimitBytes && f == FileOf(st'.path, e);
      var e2 :| e2 in st.dir.files && SizeOf(e2) <= FileSizeUploadLimitBytes && g == FileOf(st.path, e2);
      var i :| 0 <= i < |w| && w[i] == st';
      assert w2[i].path != w2[|w|].path;
      assert f.path[..|f.path| - 1] == st'.path;
      assert g.path[..|g.path| - 1] == st.path;
    }
  }

  /** `file_sizes` holds exactly the kept files' sizes, under distinct paths. */
  lemma {:induction false} ScanFileSizes(w: seq<Step>)
    requires DistinctPaths(w)
    requires forall st :: st in w ==> DistinctFileNames(st.dir.files)
    ensures DistinctFilePaths(ScanSteps(w).allFiles)
    ensures ScanSteps(w).fileSizes.Keys == FilePaths(ScanSteps(w).allFiles)
    ensures forall f :: f in ScanSteps(w).allFiles ==> ScanSteps(w).fileSizes[f.path] == f.size
    decreases |w|
  {
    if w != [] {
      var w' := w[..|w| - 1];
      var st := w[|w| - 1];
      assert w == w' + [st];
      var s := ScanSteps(w');
      assert ScanSteps(w) == ScanStep(s, st);
      ScanFileSizes(w');
      if !HasIgnoreMarker(st.dir) {
        var kept := Kept(st.path, st.dir.files);
        assert st in w;
        KeptDistinct(st.path, st.dir.files);
        NewFilesFresh(w', st);
        DistinctFilesAppend(s.allFiles, kept);
        AddFilesSpec(s.fileSizes, kept);
        var all := s.allFiles + kept;
        assert FilePaths(all) == FilePaths(s.allFiles) + FilePaths(kept);
        forall f | f in all ensures AddFiles(s.fileSizes, kept)[f.path] == f.size {
          if f !in s.allFiles {
            var i :| 0 <= i < |kept| && kept[i] == f;
          }
        }
      }
    }
  }

  // ---------------------------------------------------------------------
  // The scan of a whole source tree

  /** What the later phases rely on about a finished scan. */
  ghost predicate Consistent(s: Snapshot) {
    && (forall q :: q in s.allFolders <==> q in s.folderSizes)
    && NoDuplicates(s.allFolders)
    && s.total == SumOver(s.allFolders, s.folderSizes)
    && s.total == SumSizes(s.allFiles)
    && (forall q, n :: n in SubdirsOf(s.subdirMap, q) <==> q + [n] in s.folderSizes)
    && (forall q :: q in s.folderSizes && q != [] ==> Parent(q) in s.folderSizes)
    && DistinctFilePaths(s.allFiles)
    && s.fileSizes.Keys == FilePaths(s.allFiles)
    && (forall f :: f in s.allFiles ==>
          && s.fileSizes[f.path] == f.size
          && f.size <= FileSizeUploadLimitBytes
          && f.path != []
          && Parent(f.path) in s.folderSizes)
  }

  lemma StepRecorded(w: seq<Step>, st: Step)
    requires st in w && !HasIgnoreMarker(st.dir)
    ensures st.path in RecordedPaths(w)
  {
    var i :| 0 <= i < |w| && w[i] == st;
  }

  /** Every recorded folder but the root has its parent recorded. */
  lemma ScanParentsRecorded(root: Dir)
    ensures forall q :: q in ScanSteps(Walk(root, [])).folderSizes && q != [] ==>
      Parent(q) in ScanSteps(Walk(root, [])).folderSizes
  {
    var w := Walk(root, []);
    var s := ScanSteps(w);
    WalkParents(root, []);
    ScanFolderKeys(w);
    forall q | q in s.folderSizes && q != [] ensures Parent(q) in s.folderSizes {
      var i :| 0 <= i < |w| && !HasIgnoreMarker(w[i].dir) && w[i].path == q;
      assert i != 0;
    }
  }

  /** Every kept file is within the limit and lives in a recorded folder. */
  lemma ScanFilesPlaced(root: Dir)
    ensures forall f :: f in ScanSteps(Walk(root, [])).allFiles ==>
      && f.size <= FileSizeUploadLimitBytes
      && f.path != []
      && Parent(f.path) in ScanSteps(Walk(root, [])).folderSizes
  {
    var w := Walk(root, []);
    var s := ScanSteps(w);
    ScanFolderKeys(w);
    ScanFilesOrigin(w);
    forall f | f in s.allFiles
      ensures f.size <= FileSizeUploadLimitBytes && f.path != [] && Parent(f.path) in s.folderSizes
    {
      var st, e :| st in w && !HasIgnoreMarker(st.dir) && e in st.dir.files
        && SizeOf(e) <= FileSizeUploadLimitBytes && f == FileOf(st.path, e);
      assert Parent(f.path) == st.path;
      StepRecorded(w, st);
    }
  }

  /**
   * The scan of a well-formed tree: the totals agree, every recorded
   * folder's parent is recorded and lists it as a child, and every kept
   * file is within the limit and lives in a recorded folder.
   */
  lemma ScanConsistent(root: Dir)
    requires WellFormedTree(root)
    ensures Consistent(ScanSteps(Walk(root, [])))
  {
    var w := Walk(root, []);
    WalkDistinct(root, []);
    WalkTreesWellFormed(root, []);
    ScanFolderKeys(w);
    ScanFolderSums(w);
    ScanTotal(w);
    ScanSubdirs(w);
    ScanFileSizes(w);
    ScanParentsRecorded(root);
    ScanFilesPlaced(root);
  }

  /**
   * A directory holding the ignore marker is not recorded, is not listed
   * as its parent's child, and nothing at or below it is recorded or kept.
   */
  lemma IgnoredDirExcluded(root: Dir, st: Step)
    requires WellFormedTree(root)
    requires st in Walk(root, []) && HasIgnoreMarker(st.dir)
    ensures forall q :: q in ScanSteps(Walk(root, [])).folderSizes ==> !IsAncestor(st.path, q)
    ensures st.path != [] ==> Last(st.path) !in SubdirsOf(ScanSteps(Walk(root, [])).subdirMap, Parent(st.path))
    ensures forall f :: f in ScanSteps(Walk(root, [])).allFiles ==> f.path != [] && !IsAncestor(st.path, Parent(f.path))
  {
    IgnoredNoFolders(root, st);
    ScanConsistent(root);
    if st.path != [] {
      assert Parent(st.path) + [Last(st.path)] == st.path;
    }
  }

  /** No recorded folder lies at or below a directory holding the ignore marker. */
  lemma IgnoredNoFolders(root: Dir, st: Step)
    requires WellFormedTree(root)
    requires st in Walk(root, []) && HasIgnoreMarker(st.dir)
    ensures forall q :: q in ScanSteps(Walk(root, [])).folderSizes ==> !IsAncestor(st.path, q)
  {
    var w := Walk(root, []);
    var s := ScanSteps(w);
    WalkDistinct(root, []);
    WalkStopsAtMarker(root, []);
    ScanFolderKeys(w);
    forall q | q in s.folderSizes ensures !IsAncestor(st.path, q) {
      var i :| 0 <= i < |w| && !HasIgnoreMarker(w[i].dir) && w[i].path == q;
    }
  }

  lemma SameNameSameEntry(fs: seq<FileEntry>, e: FileEntry, e': FileEntry)
    requires DistinctFileNames(fs) && e in fs
    ensures e' in fs && e.name == e'.name ==> e == e'
  {
    var a :| 0 <= a < |fs| && fs[a] == e;
    if e' in fs {
      var b :| 0 <= b < |fs| && fs[b] == e';
    }
  }

  /** A file kept from some step is not the oversized entry `e` of step `st`. */
  lemma NotOversizedEntry(w: seq<Step>, st: Step, e: FileEntry, f: LocalFile)
    requires DistinctPaths(w) && st in w && DistinctFileNames(st.dir.files)
    requires e in st.dir.files && SizeOf(e) > FileSizeUploadLimitBytes
    requires FromStep(w, f)
    ensures f.path != st.path + [e.name]
  {
    var st', e' :| st' in w && !HasIgnoreMarker(st'.dir) && e' in st'.dir.files
      && SizeOf(e') <= FileSizeUploadLimitBytes && f == FileOf(st'.path, e');
    assert f.path[..|f.path| - 1] == st'.path && f.path[|f.path| - 1] == e'.name;
    assert (st.path + [e.name])[..|st.path|] == st.path;
    SamePathSameStep(w, st, st');
    SameNameSameEntry(st.dir.files, e, e');
  }

  /** A file over the upload limit gets no `file_sizes` entry, so it is neither kept nor counted. */
  lemma OversizedLeftOut(root: Dir, st: Step, e: FileEntry)
    requires WellFormedTree(root)
    requires st in Walk(root, []) && e in st.dir.files && SizeOf(e) > FileSizeUploadLimitBytes
    ensures st.path + [e.name] !in ScanSteps(Walk(root, [])).fileSizes
  {
    var w := Walk(root, []);
    var s := ScanSteps(w);
    WalkDistinct(root, []);
    WalkTreesWellFormed(root, []);
    ScanFileSizes(w);
    ScanFilesOrigin(w);
    forall f | f in s.allFiles ensures f.path != st.path + [e.name] {
      NotOversizedEntry(w, st, e, f);
    }
  }
}
