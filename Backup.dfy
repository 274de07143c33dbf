/**
 * The state the backup script keeps in module-level variables between
 * internxt_backup.py:331 and :721: the listing cache, the folder uuids
 * found or created, and the accounting lists and counters of the
 * reconciliation and upload phases, with the operations that change them.
 * Each method names in its `modifies` clause exactly the variables the
 * script's code changes.
 */
module Backup {
  import opened Wrappers
  import opened Text
  import opened Remote
  import opened LocalScan
  import opened Decisions
  import opened Traversal
  import opened Accounting

  function SumInts(xs: seq<int>): int
    decreases |xs|
  {
    if xs == [] then 0 else SumInts(xs[..|xs| - 1]) + xs[|xs| - 1]
  }

  /**
   * The listing `list_remote_directory` builds for `uuid`, or `None` when
   * the `list` call fails.
   */
  function Listed(svc: Service, uuid: Uuid): (r: Option<Listing>)
    ensures r.Some? ==> DistinctKeys(r.value)
  {
    match svc.list(uuid)
    case None => None
    case Some(raw) => Some(Dict(Assignments(raw)))
  }

  /** A service whose `list` and `create-folder` calls, retries included, never fail. */
  ghost predicate Dependable(svc: Service) {
    && (forall u :: svc.list(u).Some?)
    && (forall p, n :: svc.createFolder(p, n) != "")
  }

  /** `get_or_create_folder` reuses the entry of that name when it is a folder. */
  predicate Reuses(items: Listing, name: string) {
    var existing := Get(items, name);
    existing.Some? && IsFolder(existing.value)
  }

  /** The uuid `get_or_create_folder` ends with ("" from a create means failure). */
  function Obtained(items: Listing, parent: Uuid, name: string, svc: Service): Uuid {
    if Reuses(items, name) then Get(items, name).value.item.uuid else svc.createFolder(parent, name)
  }

  lemma FreshKey(items: Listing, i: nat)
    requires DistinctKeys(items) && i < |items|
    ensures items[i].key !in KeysOf(items[..i])
    ensures KeysOf(items[..i + 1]) == KeysOf(items[..i]) + {items[i].key}
  {
    forall x | x in items[..i] ensures x.key != items[i].key {
      var j :| 0 <= j < i && items[..i][j] == x;
    }
    assert items[..i + 1] == items[..i] + [items[i]];
  }

  /** `after` is `before` with only paths that have no local folder appended. */
  ghost predicate RemovedOnlyOrphans(snap: Snapshot, before: seq<Path>, after: seq<Path>) {
    && |before| <= |after| && after[..|before|] == before
    && (forall k :: |before| <= k < |after| ==> after[k] !in snap.folderSizes)
  }

  lemma RemovedAppend(snap: Snapshot, rs: seq<Path>, p: Path)
    requires p !in snap.folderSizes
    ensures RemovedOnlyOrphans(snap, rs, rs + [p])
  {
    assert (rs + [p])[..|rs|] == rs;
  }

  lemma RemovedTrans(snap: Snapshot, a: seq<Path>, b: seq<Path>, c: seq<Path>)
    requires RemovedOnlyOrphans(snap, a, b) && RemovedOnlyOrphans(snap, b, c)
    ensures RemovedOnlyOrphans(snap, a, c)
  {
    assert c[..|a|] == c[..|b|][..|a|];
    forall k | |a| <= k < |c| ensures c[k] !in snap.folderSizes {
      if k < |b| {
        assert c[k] == c[..|b|][k];
      }
    }
  }

  /**
   * What visiting the local folder `p` with remote uuid `u` does to the
   * lists and counters: the actions for its listed entries, carried out in
   * dictionary order; nothing when `list` fails.
   */
  function VisitEffects(snap: Snapshot, allowDelete: bool, svc: Service, x: Effects, p: Path, u: Uuid): Effects {
    match Listed(svc, u)
    case None => x
    case Some(items) =>
      ApplyAll(x, Actions(items, p, snap.folderSizes, snap.fileSizes, allowDelete), svc).(pushes := [], evicted := {})
  }

  /**
   * What popping `(p, u)` off the DFS stack does: a path with no local
   * folder is deleted when deletion is on, any other is visited.
   */
  function PopEffects(snap: Snapshot, allowDelete: bool, svc: Service, x: Effects, p: Path, u: Uuid): Effects {
    if p in snap.folderSizes then VisitEffects(snap, allowDelete, svc, x, p, u)
    else if allowDelete then Apply(x, DeleteFolder(p, u), svc).(evicted := {})
    else x
  }

  /** What the DFS does to the lists and counters when it pops `popped`, in that order. */
  function DfsEffects(snap: Snapshot, allowDelete: bool, svc: Service, x: Effects, popped: seq<Pair>): Effects
    decreases |popped|
  {
    if popped == [] then x
    else
      var top := popped[|popped| - 1];
      PopEffects(snap, allowDelete, svc, DfsEffects(snap, allowDelete, svc, x, popped[..|popped| - 1]), top.0, top.1)
  }

  /** With deletion off, the whole DFS removes nothing, whatever it pops. */
  lemma {:induction false} DfsRemovesNothingWhenDeletionOff(snap: Snapshot, svc: Service, x: Effects, popped: seq<Pair>)
    ensures var y := DfsEffects(snap, false, svc, x, popped);
      y.removedFolders == x.removedFolders && y.removedFiles == x.removedFiles
      && y.removedFileSizes == x.removedFileSizes
    decreases |popped|
  {
    if popped != [] {
      var y := DfsEffects(snap, false, svc, x, popped[..|popped| - 1]);
      DfsRemovesNothingWhenDeletionOff(snap, svc, x, popped[..|popped| - 1]);
      var top := popped[|popped| - 1];
      if top.0 in snap.folderSizes {
        VisitRemovesNothingWhenDeletionOff(snap, svc, y, top.0, top.1);
      }
    }
  }

  lemma VisitRemovesNothingWhenDeletionOff(snap: Snapshot, svc: Service, x: Effects, p: Path, u: Uuid)
    ensures var y := VisitEffects(snap, false, svc, x, p, u);
      y.removedFolders == x.removedFolders && y.removedFiles == x.removedFiles
      && y.removedFileSizes == x.removedFileSizes
  {
    var l := Listed(svc, u);
    if l.Some? {
      var acts := Actions(l.value, p, snap.folderSizes, snap.fileSizes, false);
      NoRemovalWhenDeletionOff(x, l.value, p, snap.folderSizes, snap.fileSizes, svc, |l.value|);
      assert acts[..|l.value|] == acts;
    }
  }

  /** The local folders among the popped stack entries. */
  ghost function LocalPaths(snap: Snapshot, popped: seq<Pair>): set<Path>
    decreases |popped|
  {
    if popped == [] then {}
    else
      var top := popped[|popped| - 1];
      LocalPaths(snap, popped[..|popped| - 1]) + (if top.0 in snap.folderSizes then {top.0} else {})
  }

  /**
   * Each local folder among the popped entries is popped once, and `uuids`
   * holds the uuid it was popped with.
   */
  ghost predicate Logged(snap: Snapshot, popped: seq<Pair>, uuids: map<Path, Uuid>)
    decreases |popped|
  {
    popped != [] ==>
      var init, top := popped[..|popped| - 1], popped[|popped| - 1];
      && Logged(snap, init, uuids)
      && (top.0 in snap.folderSizes ==> top.0 !in LocalPaths(snap, init) && top.0 in uuids && uuids[top.0] == top.1)
  }

  /** The log of popped entries: its local ones are the processed folders. */
  ghost predicate PoppedLog(snap: Snapshot, popped: seq<Pair>, processed: set<Path>, uuids: map<Path, Uuid>) {
    LocalPaths(snap, popped) == processed && Logged(snap, popped, uuids)
  }

  /** The log read position by position: no local folder twice, each with its uuid in `uuids`. */
  lemma {:induction false} LoggedMeans(snap: Snapshot, popped: seq<Pair>, uuids: map<Path, Uuid>)
    requires Logged(snap, popped, uuids)
    ensures forall i, j :: 0 <= i < j < |popped| && popped[i].0 in snap.folderSizes ==> popped[i].0 != popped[j].0
    ensures forall k :: 0 <= k < |popped| && popped[k].0 in snap.folderSizes ==>
              popped[k].0 in uuids && uuids[popped[k].0] == popped[k].1
    ensures forall k :: 0 <= k < |popped| && popped[k].0 in snap.folderSizes ==> popped[k].0 in LocalPaths(snap, popped)
    decreases |popped|
  {
    if popped != [] {
      var init, top := popped[..|popped| - 1], popped[|popped| - 1];
      LoggedMeans(snap, init, uuids);
      forall k | 0 <= k < |init| ensures popped[k] == init[k] {
      }
    }
  }

  /** A log stays one when `uuids` keeps the entries of the logged folders. */
  lemma {:induction false} LoggedGrow(snap: Snapshot, popped: seq<Pair>, uuids: map<Path, Uuid>, uuids': map<Path, Uuid>)
    requires Logged(snap, popped, uuids)
    requires forall q :: q in LocalPaths(snap, popped) && q in uuids ==> q in uuids' && uuids'[q] == uuids[q]
    ensures Logged(snap, popped, uuids')
    decreases |popped|
  {
    if popped != [] {
      LoggedGrow(snap, popped[..|popped| - 1], uuids, uuids');
    }
  }

  lemma PoppedStep(snap: Snapshot, popped: seq<Pair>, processed: set<Path>, uuids: map<Path, Uuid>, top: Pair,
                   processed': set<Path>, uuids': map<Path, Uuid>)
    requires PoppedLog(snap, popped, processed, uuids)
    requires top.0 in snap.folderSizes ==> top.0 !in processed && processed' == processed + {top.0}
                                           && uuids' == uuids[top.0 := top.1]
    requires top.0 !in snap.folderSizes ==> processed' == processed && uuids' == uuids
    ensures PoppedLog(snap, popped + [top], processed', uuids')
  {
    var ps := popped + [top];
    assert ps[..|popped|] == popped;
    if top.0 in snap.folderSizes {
      LoggedGrow(snap, popped, uuids, uuids');
    }
  }

  lemma MinusTwice<K, V>(m: map<K, V>, a: set<K>, b: set<K>)
    ensures (m - a) - b == m - (a + b)
  {
  }

  class BackupRun {
    const snap: Snapshot
    const allowDelete: bool
    const service: Service

    var destRootId: Uuid
    /** `remote_dir_cache` */
    var cache: map<Uuid, Listing>
    /** The folders `list` has been called for, in order. */
    ghost var listCalls: seq<Uuid>

    var folderUuids: map<Path, Uuid>
    var createdFolders: seq<Pair>
    var existingFolders: seq<Pair>
    var existingFiles: map<Path, Uuid>
    var existingSize: nat
    var removedFolders: seq<Path>
    var removedFiles: seq<Path>
    var removedSize: int
    /** The remote sizes of the removed files, in order. */
    ghost var removedFileSizes: seq<int>

    var uploadedFiles: seq<LocalFile>
    var uploadedSize: nat
    var numRetriedFiles: nat
    var numTotalRetries: nat
    var numFailedFiles: nat

    /** Every cached listing is the one `list` gives for its uuid (so its keys are distinct). */
    ghost predicate CacheValid()
      reads this`cache
    {
      forall u :: u in cache ==> Listed(service, u) == Some(cache[u])
    }

    /** `existing_files` only names local files, each with a uuid. */
    ghost predicate ExistingValid()
      reads this`existingFiles
    {
      && existingFiles.Keys <= snap.fileSizes.Keys
      && (forall k :: k in existingFiles ==> existingFiles[k] != "")
    }

    /** `removed_size` is the total remote size of the removed files (folders count 0). */
    ghost predicate RemovalsValid()
      reads this`removedFiles, this`removedFileSizes, this`removedSize
    {
      |removedFileSizes| == |removedFiles| && removedSize == SumInts(removedFileSizes)
    }

    /** `uploaded_size` is the total size of the uploaded files. */
    ghost predicate UploadsValid()
      reads this`uploadedFiles, this`uploadedSize
    {
      uploadedSize == SumSizes(uploadedFiles)
    }

    ghost predicate Valid()
      reads this
    {
      CacheValid() && ExistingValid() && RemovalsValid() && UploadsValid()
    }

    /** The state before the root folder is set up: `"."` maps to the destination id. */
    constructor(snap: Snapshot, allowDelete: bool, service: Service, destId: Uuid)
      ensures Valid()
      ensures this.snap == snap && this.allowDelete == allowDelete && this.service == service
      ensures destRootId == destId && folderUuids == map[[] := destId]
      ensures cache == map[] && listCalls == []
      ensures createdFolders == [] && existingFolders == [] && existingFiles == map[] && existingSize == 0
      ensures removedFolders == [] && removedFiles == [] && removedSize == 0 && removedFileSizes == []
      ensures uploadedFiles == [] && uploadedSize == 0
      ensures numRetriedFiles == 0 && numTotalRetries == 0 && numFailedFiles == 0
    {
      this.snap := snap;
      this.allowDelete := allowDelete;
      this.service := service;
      destRootId := destId;
      cache := map[];
      listCalls := [];
      folderUuids := map[[] := destId];
      createdFolders := [];
      existingFolders := [];
      existingFiles := map[];
      existingSize := 0;
      removedFolders := [];
      removedFiles := [];
      removedSize := 0;
      removedFileSizes := [];
      uploadedFiles := [];
      uploadedSize := 0;
      numRetriedFiles := 0;
      numTotalRetries := 0;
      numFailedFiles := 0;
    }

    // -------------------------------------------------------------------
    // The listing cache (internxt_backup.py:360-398)

    /**
     * `get_cached_dir_listing`: `list` is called only on a miss, and the
     * listing returned is the one the cache then holds. `ok` is false when
     * `list` failed, where the script exits.
     */
    method GetCachedDirListing(uuid: Uuid) returns (ok: bool, items: Listing)
      requires CacheValid()
      modifies this`cache, this`listCalls
      ensures CacheValid()
      ensures ok <==> Listed(service, uuid).Some?
      ensures ok ==> items == Listed(service, uuid).value && DistinctKeys(items)
      ensures cache == if ok then old(cache)[uuid := items] else old(cache)
      ensures listCalls == if uuid in old(cache) then old(listCalls) else old(listCalls) + [uuid]
    {
      if uuid !in cache {
        listCalls := listCalls + [uuid];
        var reply := service.list(uuid);
        if reply.None? {
          return false, [];
        }
        var listing := ListRemoteDirectory(reply.value);
        cache := cache[uuid := listing];
      }
      return true, cache[uuid];
    }

    /**
     * `get_or_create_folder`: an existing folder entry of the parent's
     * listing is reused (even when its uuid is empty); otherwise the folder
     * is created and the parent's cached listing dropped. `ok` is false
     * when the creation failed, where the script exits.
     */
    method GetOrCreateFolder(parentItems: Listing, parentUuid: Uuid, name: string) returns (ok: bool, uuid: Uuid)
      requires CacheValid()
      modifies this`cache
      ensures CacheValid()
      ensures ok <==> Reuses(parentItems, name) || service.createFolder(parentUuid, name) != ""
      ensures ok ==> uuid == Obtained(parentItems, parentUuid, name, service)
      ensures cache == if ok && !Reuses(parentItems, name) then old(cache) - {parentUuid} else old(cache)
    {
      var existing := Get(parentItems, name);
      if existing.Some? && existing.value.listedAsFolder {
        return true, existing.value.item.uuid;
      }
      uuid := service.createFolder(parentUuid, name);
      if uuid == "" {
        return false, uuid;
      }
      cache := cache - {parentUuid};
      return true, uuid;
    }

    /**
     * The set-up of the destination (internxt_backup.py:405-418): the
     * folder named after the source directory is found or created inside
     * the given destination, and becomes the root `"."`.
     */
    method SetupRoot(srcName: string) returns (ok: bool)
      requires CacheValid()
      modifies this`cache, this`listCalls, this`destRootId, this`folderUuids
      ensures CacheValid()
      ensures var l := Listed(service, old(destRootId));
        ok <==> l.Some? && (Reuses(l.value, srcName) || service.createFolder(old(destRootId), srcName) != "")
      ensures var l := Listed(service, old(destRootId));
        ok ==> destRootId == Obtained(l.value, old(destRootId), srcName, service)
      ensures ok ==> folderUuids == old(folderUuids)[[] := destRootId]
      ensures !ok ==> destRootId == old(destRootId) && folderUuids == old(folderUuids)
      // The destination's listing is fetched on a miss, and dropped again when the folder is created.
      ensures listCalls == if old(destRootId) in old(cache) then old(listCalls) else old(listCalls) + [old(destRootId)]
      ensures var l := Listed(service, old(destRootId));
        cache == if l.None? then old(cache)
                 else if ok && !Reuses(l.value, srcName) then old(cache) - {old(destRootId)}
                 else old(cache)[old(destRootId) := l.value]
    {
      var parent := destRootId;
      var items;
      ok, items := GetCachedDirListing(parent);
      if !ok {
        return;
      }
      var uuid;
      ok, uuid := GetOrCreateFolder(items, parent, srcName);
      if !ok {
        return;
      }
      destRootId := uuid;
      folderUuids := folderUuids[[] := uuid];
    }

    // -------------------------------------------------------------------
    // Deletes (internxt_backup.py:502-527)

    /**
     * `delete_remote_folder`: on success the folder is recorded as removed
     * with size 0 and its own cached listing is dropped (its parent's is
     * kept). A failure is only logged.
     */
    method DeleteRemoteFolder(path: Path, uuid: Uuid)
      requires CacheValid() && RemovalsValid()
      modifies this`removedFolders, this`removedSize, this`cache
      ensures CacheValid() && RemovalsValid()
      ensures removedFolders == if service.deleteFolder(uuid) then old(removedFolders) + [path] else old(removedFolders)
      ensures cache == if service.deleteFolder(uuid) then old(cache) - {uuid} else old(cache)
      ensures removedSize == old(removedSize)
    {
      var folderSize := 0;
      if service.deleteFolder(uuid) {
        removedFolders := removedFolders + [path];
        removedSize := removedSize + folderSize;
        cache := cache - {uuid};
      }
    }

    /**
     * `delete_remote_file`: on success the file and its remote size are
     * recorded as removed. The cache is left as it is.
     */
    method DeleteRemoteFile(path: Path, uuid: Uuid, size: int)
      requires RemovalsValid()
      modifies this`removedFiles, this`removedSize, this`removedFileSizes
      ensures RemovalsValid()
      ensures removedFiles == if service.deleteFile(uuid) then old(removedFiles) + [path] else old(removedFiles)
      ensures removedFileSizes == if service.deleteFile(uuid) then old(removedFileSizes) + [size] else old(removedFileSizes)
    {
      if service.deleteFile(uuid) {
        removedFiles := removedFiles + [path];
        removedFileSizes := removedFileSizes + [size];
        assert removedFileSizes[..|removedFileSizes| - 1] == old(removedFileSizes);
        removedSize := removedSize + size;
      }
    }

    // -------------------------------------------------------------------
    // The entry loop of one visit (internxt_backup.py:545-603)

    /** The state the entry loop changes, with the stack pushes and evictions so far. */
    ghost function Tally(pushes: seq<Pair>, evicted: set<Uuid>): Effects
      reads this
    {
      Effects(pushes, existingFiles, existingSize, removedFolders, removedFiles, removedFileSizes, evicted)
    }

    /** An action other than a descent: a delete, a skip, or recording an existing file. */
    method CarryOut(a: Action, ghost pushes: seq<Pair>, ghost evicted: set<Uuid>) returns (ghost evicted': set<Uuid>)
      requires CacheValid() && ExistingValid() && RemovalsValid() && !a.Descend?
      requires a.Existing? ==> a.path in snap.fileSizes && a.uuid != ""
      modifies this`cache, this`existingFiles, this`existingSize, this`removedFolders
      modifies this`removedFiles, this`removedSize, this`removedFileSizes
      ensures CacheValid() && ExistingValid() && RemovalsValid()
      ensures Tally(pushes, evicted') == Apply(old(Tally(pushes, evicted)), a, service)
      ensures cache == if a.DeleteFolder? && service.deleteFolder(a.uuid) then old(cache) - {a.uuid} else old(cache)
    {
      evicted' := evicted;
      if a.DeleteFolder? {
        DeleteRemoteFolder(a.path, a.uuid);
        if service.deleteFolder(a.uuid) {
          evicted' := evicted + {a.uuid};
        }
      } else if a.DeleteFile? {
        DeleteRemoteFile(a.path, a.uuid, a.remoteSize);
      } else if a.Existing? {
        existingSize := existingSize + a.localSize;
        existingFiles := existingFiles[a.path := a.uuid];
      }
    }

    /**
     * The body of the entry loop for entry `e` of the folder at `cur`. A
     * descent pushes the subfolder, records it as existing and takes its
     * name out of `missing`, which always holds it.
     */
    method VisitEntry(cur: Path, e: Entry, pushes: seq<Pair>, missing: set<string>,
                      ghost evicted: set<Uuid>, ghost cache0: map<Uuid, Listing>)
      returns (pushes': seq<Pair>, missing': set<string>, ghost evicted': set<Uuid>)
      requires CacheValid() && ExistingValid() && RemovalsValid()
      requires ChildrenOf(pushes, cur) && UniquePaths(pushes) && PathsOf(pushes) <= snap.folderSizes.Keys
      requires e.key !in Names(pushes)
      requires cur + [e.key] in snap.folderSizes ==> e.key in missing
      requires cache == cache0 - evicted
      modifies this`cache, this`existingFiles, this`existingSize, this`removedFolders
      modifies this`removedFiles, this`removedSize, this`removedFileSizes, this`existingFolders
      ensures CacheValid() && ExistingValid() && RemovalsValid()
      ensures Tally(pushes', evicted')
              == Apply(old(Tally(pushes, evicted)), Decide(IsFolder(e), e, cur, snap.folderSizes, snap.fileSizes, allowDelete), service)
      ensures cache == cache0 - evicted'
      ensures || (pushes' == pushes && existingFolders == old(existingFolders))
              || (pushes' == pushes + [(cur + [e.key], e.item.uuid)]
                  && existingFolders == old(existingFolders) + [(cur + [e.key], e.item.uuid)])
      ensures ChildrenOf(pushes', cur) && UniquePaths(pushes') && PathsOf(pushes') <= snap.folderSizes.Keys
      ensures Names(pushes) <= Names(pushes') <= Names(pushes) + {e.key}
      ensures missing' == missing - (Names(pushes') - Names(pushes))
      ensures RemovedOnlyOrphans(snap, old(removedFolders), removedFolders)
    {
      ExistingOnlyForLocalFiles(e.listedAsFolder, e, cur, snap.folderSizes, snap.fileSizes, allowDelete);
      var a := Decide(e.listedAsFolder, e, cur, snap.folderSizes, snap.fileSizes, allowDelete);
      if a.Descend? {
        PushChild(pushes, cur, e.key, a.uuid);
        pushes' := pushes + [(a.path, a.uuid)];
        existingFolders := existingFolders + [(a.path, a.uuid)];
        missing' := missing - {e.key};
        evicted' := evicted;
      } else {
        pushes', missing' := pushes, missing;
        evicted' := CarryOut(a, pushes, evicted);
        if a.DeleteFolder? && service.deleteFolder(a.uuid) {
          RemovedAppend(snap, old(removedFolders), a.path);
        }
      }
    }

    /**
     * The entry loop of one visit of the folder at `cur` whose listing is
     * `items`: each entry's action, as `Decide` gives it with the
     * classification by origin, is carried out in dictionary order. The
     * local subfolders found remotely are pushed and leave `missing`.
     */
    method ReconcileEntries(cur: Path, items: Listing, missing0: set<string>)
      returns (pushes: seq<Pair>, missing: set<string>, ghost evicted: set<Uuid>)
      requires CacheValid() && ExistingValid() && RemovalsValid() && DistinctKeys(items)
      requires forall n :: cur + [n] in snap.folderSizes ==> n in missing0
      modifies this`cache, this`existingFiles, this`existingSize, this`removedFolders
      modifies this`removedFiles, this`removedSize, this`removedFileSizes, this`existingFolders
      ensures CacheValid() && ExistingValid() && RemovalsValid()
      ensures Tally(pushes, evicted)
              == ApplyAll(old(Tally([], {})), Actions(items, cur, snap.folderSizes, snap.fileSizes, allowDelete), service)
      ensures cache == old(cache) - evicted
      ensures existingFolders == old(existingFolders) + pushes
      ensures ChildrenOf(pushes, cur) && UniquePaths(pushes) && PathsOf(pushes) <= snap.folderSizes.Keys
      // `missing_subfolders.remove` never raises: every name it removes is there.
      ensures missing == missing0 - Names(pushes)
      ensures RemovedOnlyOrphans(snap, old(removedFolders), removedFolders)
    {
      ghost var acts := Actions(items, cur, snap.folderSizes, snap.fileSizes, allowDelete);
      ghost var x0 := Tally([], {});
      evicted := {};
      pushes := [];
      missing := missing0;
      for i := 0 to |items|
        invariant CacheValid() && ExistingValid() && RemovalsValid()
        invariant Tally(pushes, evicted) == ApplyAll(x0, acts[..i], service)
        invariant cache == old(cache) - evicted
        invariant existingFolders == old(existingFolders) + pushes
        invariant ChildrenOf(pushes, cur) && UniquePaths(pushes) && PathsOf(pushes) <= snap.folderSizes.Keys
        invariant Names(pushes) <= KeysOf(items[..i])
        invariant missing == missing0 - Names(pushes)
        invariant RemovedOnlyOrphans(snap, old(removedFolders), removedFolders)
      {
        assert acts[..i + 1] == acts[..i] + [acts[i]];
        FreshKey(items, i);
        ghost var removed := removedFolders;
        pushes, missing, evicted := VisitEntry(cur, items[i], pushes, missing, evicted, old(cache));
        RemovedTrans(snap, old(removedFolders), removed, removedFolders);
      }
      assert acts[..|items|] == acts;
    }

    /**
     * The creation loop of one visit (internxt_backup.py:605-610): each
     * local subfolder not found remotely is obtained with
     * `get_or_create_folder`, recorded as created and pushed, in the
     * unspecified order of set iteration. `ok` is false when a creation
     * failed, where the script exits.
     */
    method CreateMissingSubfolders(cur: Path, uuid: Uuid, items: Listing, missing: set<string>)
      returns (ok: bool, pushes: seq<Pair>, ghost evicted: set<Uuid>)
      requires CacheValid()
      requires forall n :: n in missing ==> cur + [n] in snap.folderSizes
      modifies this`cache, this`createdFolders
      ensures CacheValid()
      ensures ok <==> forall n :: n in missing ==> Reuses(items, n) || service.createFolder(uuid, n) != ""
      ensures createdFolders == old(createdFolders) + pushes
      ensures ChildrenOf(pushes, cur) && UniquePaths(pushes) && PathsOf(pushes) <= snap.folderSizes.Keys
      ensures Names(pushes) <= missing && (ok ==> Names(pushes) == missing)
      ensures forall k :: 0 <= k < |pushes| ==> pushes[k].1 == Obtained(items, uuid, Last(pushes[k].0), service)
      ensures evicted <= {uuid} && cache == old(cache) - evicted
    {
      var rest := missing;
      pushes := [];
      ok := true;
      evicted := {};
      while rest != {}
        invariant CacheValid()
        invariant CreatedSoFar(snap, cur, uuid, items, service, missing, rest, pushes)
        invariant createdFolders == old(createdFolders) + pushes
        invariant evicted <= {uuid} && cache == old(cache) - evicted
        decreases |rest|
      {
        var name :| name in rest;
        var subfolderUuid;
        ok, subfolderUuid := GetOrCreateFolder(items, uuid, name);
        if !ok {
          return;
        }
        if !Reuses(items, name) {
          MinusTwice(old(cache), evicted, {uuid});
          evicted := evicted + {uuid};
        }
        CreateStep(snap, cur, uuid, items, service, missing, rest, pushes, name, subfolderUuid);
        var p := (cur + [name], subfolderUuid);
        assert old(createdFolders) + (pushes + [p]) == createdFolders + [p];
        createdFolders := createdFolders + [p];
        pushes := pushes + [p];
        rest := rest - {name};
      }
    }

    /**
     * One visit of the DFS (internxt_backup.py:539-610) of the local folder
     * `cur` with remote uuid `uuid`: its uuid is recorded, its listing
     * fetched, and its entries and subfolders reconciled. `ok` is false
     * when `list` or a folder creation failed.
     */
    method VisitFolder(cur: Path, uuid: Uuid) returns (ok: bool, found: seq<Pair>, created: seq<Pair>)
      requires CacheValid() && ExistingValid() && RemovalsValid()
      requires forall n :: n in SubdirsOf(snap.subdirMap, cur) <==> cur + [n] in snap.folderSizes
      modifies this`cache, this`listCalls, this`folderUuids, this`createdFolders, this`existingFolders
      modifies this`existingFiles, this`existingSize, this`removedFolders, this`removedFiles
      modifies this`removedSize, this`removedFileSizes
      ensures CacheValid() && ExistingValid() && RemovalsValid()
      ensures folderUuids == old(folderUuids)[cur := uuid]
      ensures createdFolders == old(createdFolders) + created
      ensures existingFolders == old(existingFolders) + found
      ensures ChildrenOf(created, cur) && UniquePaths(created) && PathsOf(created) <= snap.folderSizes.Keys
      ensures RemovedOnlyOrphans(snap, old(removedFolders), removedFolders)
      ensures ok ==> Covers(snap, cur, found + created)
      // The folder's listed entries are reconciled as `Decide` says, whether or not a creation fails after.
      ensures Tally([], {}) == VisitEffects(snap, allowDelete, service, old(Tally([], {})), cur, uuid)
      // The script exits exactly on a failed `list` or a failed creation.
      ensures Listed(service, uuid).None? ==> !ok
      ensures Dependable(service) ==> ok
    {
      folderUuids := folderUuids[cur := uuid];
      var items;
      ok, items := GetCachedDirListing(uuid);
      if !ok {
        return false, [], [];
      }
      ok, found, created := ReconcileFolder(cur, uuid, items);
    }

    /**
     * The reconciliation of the listed folder `cur` (internxt_backup.py:
     * 539-610): its entries are reconciled, then the local subfolders not
     * found remotely are created. The subfolders found and those created
     * are, together, exactly one push for each local subfolder.
     */
    method ReconcileFolder(cur: Path, uuid: Uuid, items: Listing) returns (ok: bool, found: seq<Pair>, created: seq<Pair>)
      requires CacheValid() && ExistingValid() && RemovalsValid() && DistinctKeys(items)
      requires forall n :: n in SubdirsOf(snap.subdirMap, cur) <==> cur + [n] in snap.folderSizes
      modifies this`cache, this`createdFolders, this`existingFolders
      modifies this`existingFiles, this`existingSize, this`removedFolders, this`removedFiles
      modifies this`removedSize, this`removedFileSizes
      ensures CacheValid() && ExistingValid() && RemovalsValid()
      ensures createdFolders == old(createdFolders) + created
      ensures existingFolders == old(existingFolders) + found
      ensures ChildrenOf(created, cur) && UniquePaths(created) && PathsOf(created) <= snap.folderSizes.Keys
      ensures RemovedOnlyOrphans(snap, old(removedFolders), removedFolders)
      ensures ok ==> Covers(snap, cur, found + created)
      ensures var x := ApplyAll(old(Tally([], {})), Actions(items, cur, snap.folderSizes, snap.fileSizes, allowDelete), service);
        found == x.pushes && Tally([], {}) == x.(pushes := [], evicted := {})
      ensures ok <==> forall n :: n in SubdirsOf(snap.subdirMap, cur) && n !in Names(found) ==>
                        Reuses(items, n) || service.createFolder(uuid, n) != ""
      ensures Dependable(service) ==> ok
    {
      var missing0 := set n | n in SubdirsOf(snap.subdirMap, cur);
      var missing; ghost var evicted;
      found, missing, evicted := ReconcileEntries(cur, items, missing0);
      ok, created, evicted := CreateMissingSubfolders(cur, uuid, items, missing);
      if ok {
        JoinPushes(found, created, cur, missing0, missing);
      }
    }

    /**
     * The orphan branch of the DFS loop (internxt_backup.py:533-537): a
     * popped path with no local folder is deleted when deletion is on, and
     * not descended into.
     */
    method DropOrphan(cur: Path, uuid: Uuid)
      requires CacheValid() && RemovalsValid() && cur !in snap.folderSizes
      modifies this`removedFolders, this`removedSize, this`cache
      ensures CacheValid() && RemovalsValid()
      ensures Tally([], {}) == PopEffects(snap, allowDelete, service, old(Tally([], {})), cur, uuid)
      ensures RemovedOnlyOrphans(snap, old(removedFolders), removedFolders)
      ensures !allowDelete ==> removedFolders == old(removedFolders) && removedSize == old(removedSize)
    {
      assert removedFolders[..|removedFolders|] == removedFolders;
      if allowDelete {
        DeleteRemoteFolder(cur, uuid);
        if service.deleteFolder(uuid) {
          RemovedAppend(snap, old(removedFolders), cur);
        }
      }
    }

    /**
     * The visit branch of the DFS loop (internxt_backup.py:539-610): the
     * local folder on top of the stack is visited and its subfolders, found
     * or created, are pushed.
     */
    method VisitTop(stack: seq<Pair>, ghost processed: set<Path>, ghost orphans: seq<Path>, ghost c0: nat)
      returns (ok: bool, stack': seq<Pair>)
      requires CacheValid() && ExistingValid() && RemovalsValid() && Tree(snap)
      requires stack != [] && stack[|stack| - 1].0 in snap.folderSizes
      requires c0 <= |createdFolders| && DfsState(snap, stack, processed, orphans, createdFolders[c0..])
      modifies this`cache, this`listCalls, this`folderUuids, this`createdFolders, this`existingFolders
      modifies this`existingFiles, this`existingSize, this`removedFolders, this`removedFiles
      modifies this`removedSize, this`removedFileSizes
      ensures CacheValid() && ExistingValid() && RemovalsValid()
      ensures c0 <= |createdFolders| && stack[|stack| - 1].0 !in processed
      ensures ok ==> DfsState(snap, stack', processed + {stack[|stack| - 1].0}, orphans, createdFolders[c0..])
      ensures !ok ==> UniquePaths(createdFolders[c0..]) && PathsOf(createdFolders[c0..]) <= snap.folderSizes.Keys
      ensures folderUuids == old(folderUuids)[stack[|stack| - 1].0 := stack[|stack| - 1].1]
      ensures RemovedOnlyOrphans(snap, old(removedFolders), removedFolders)
      ensures Tally([], {}) == VisitEffects(snap, allowDelete, service, old(Tally([], {})), stack[|stack| - 1].0,
                                            stack[|stack| - 1].1)
      ensures !allowDelete ==> removedFolders == old(removedFolders) && removedFiles == old(removedFiles)
                               && removedSize == old(removedSize)
      ensures Dependable(service) ==> ok
    {
      var cur, uuid := stack[|stack| - 1].0, stack[|stack| - 1].1;
      assert cur in PathsOf(stack) by { assert stack[|stack| - 1].0 == cur; }
      ghost var before := createdFolders[c0..];
      var found, created;
      ok, found, created := VisitFolder(cur, uuid);
      if !allowDelete {
        VisitRemovesNothingWhenDeletionOff(snap, service, old(Tally([], {})), cur, uuid);
      }
      assert createdFolders[c0..] == before + created;
      stack' := stack[..|stack| - 1];
      if !ok {
        DfsCreated(snap, stack, processed, orphans, before, created);
        return;
      }
      DfsVisit(snap, stack, processed, orphans, before, found, created);
      stack' := stack[..|stack| - 1] + (found + created);
    }

    /**
     * One iteration of the DFS loop (internxt_backup.py:529-610): the top
     * of the stack is popped and added to the log `popped`; a path with no
     * local folder is deleted when deletion is on and not descended into,
     * any other is visited and its subfolders pushed. `ok` is false when the
     * visit failed. `x0`, `removed0` and `keys0` are the state the loop
     * started from.
     */
    method PopStep(stack: seq<Pair>, ghost processed: set<Path>, ghost orphans: seq<Path>, ghost c0: nat,
                   ghost popped: seq<Pair>, ghost x0: Effects, ghost removed0: seq<Path>, ghost keys0: set<Path>)
      returns (ok: bool, stack': seq<Pair>, ghost processed': set<Path>, ghost orphans': seq<Path>,
               ghost popped': seq<Pair>)
      requires CacheValid() && ExistingValid() && RemovalsValid() && Tree(snap)
      requires stack != [] && c0 <= |createdFolders| && DfsState(snap, stack, processed, orphans, createdFolders[c0..])
      requires Tally([], {}) == DfsEffects(snap, allowDelete, service, x0, popped)
      requires RemovedOnlyOrphans(snap, removed0, removedFolders)
      requires folderUuids.Keys == keys0 + processed
      modifies this`cache, this`listCalls, this`folderUuids, this`createdFolders, this`existingFolders
      modifies this`existingFiles, this`existingSize, this`removedFolders, this`removedFiles
      modifies this`removedSize, this`removedFileSizes
      ensures CacheValid() && ExistingValid() && RemovalsValid()
      ensures c0 <= |createdFolders|
      ensures ok ==> DfsState(snap, stack', processed', orphans', createdFolders[c0..])
      ensures !ok ==> && orphans' == orphans && UniquePaths(createdFolders[c0..])
                      && PathsOf(createdFolders[c0..]) <= snap.folderSizes.Keys
      ensures processed <= processed' <= snap.folderSizes.Keys
      ensures folderUuids.Keys == keys0 + processed'
      // The DFS loop's termination measure decreases.
      ensures || (processed' == processed && |stack'| < |stack|)
              || snap.folderSizes.Keys - processed' < snap.folderSizes.Keys - processed
      ensures RemovedOnlyOrphans(snap, removed0, removedFolders)
      // The lists and counters change as popping the top entry says.
      ensures popped' == popped + [stack[|stack| - 1]]
      ensures Tally([], {}) == DfsEffects(snap, allowDelete, service, x0, popped')
      // A local folder is processed once, under the uuid it was pushed with; an orphan changes neither.
      ensures var top := stack[|stack| - 1];
              if top.0 in snap.folderSizes
              then top.0 !in processed && processed' == processed + {top.0} && folderUuids == old(folderUuids)[top.0 := top.1]
              else processed' == processed && folderUuids == old(folderUuids)
      // Nothing is deleted when deletion is off.
      ensures !allowDelete ==> removedFolders == old(removedFolders) && removedFiles == old(removedFiles)
                               && removedSize == old(removedSize)
      ensures Dependable(service) ==> ok
    {
      var top := stack[|stack| - 1];
      popped' := popped + [top];
      assert popped'[..|popped|] == popped;
      if top.0 !in snap.folderSizes {
        DfsOrphan(snap, stack, processed, orphans, createdFolders[c0..]);
        ok, stack', processed', orphans' := true, stack[..|stack| - 1], processed, orphans + [top.0];
        DropOrphan(top.0, top.1);
      } else {
        ok, stack' := VisitTop(stack, processed, orphans, c0);
        processed', orphans' := processed + {top.0}, orphans;
        assert top.0 in snap.folderSizes.Keys - processed;
      }
      RemovedTrans(snap, removed0, old(removedFolders), removedFolders);
    }

    /**
     * The reconciliation DFS (internxt_backup.py:498-610). `orphans` are the
     * popped paths with no local folder. `ok` is false when a `list` or a
     * folder creation failed, where the script exits.
     */
    method Reconcile() returns (ok: bool, ghost orphans: seq<Path>, ghost popped: seq<Pair>)
      requires CacheValid() && ExistingValid() && RemovalsValid() && Tree(snap)
      modifies this`cache, this`listCalls, this`folderUuids, this`createdFolders, this`existingFolders
      modifies this`existingFiles, this`existingSize, this`removedFolders, this`removedFiles
      modifies this`removedSize, this`removedFileSizes
      ensures CacheValid() && ExistingValid() && RemovalsValid()
      // Every local folder gets a `folder_uuids` entry, and nothing else does.
      ensures ok ==> snap.folderSizes.Keys <= folderUuids.Keys
      ensures old(folderUuids).Keys <= folderUuids.Keys <= old(folderUuids).Keys + snap.folderSizes.Keys
      // The orphan branch fires at most once, for the root, exactly when the root is no local folder.
      ensures |orphans| <= 1 && forall p :: p in orphans ==> p == [] && p !in snap.folderSizes
      ensures ok ==> (orphans == [] <==> [] in snap.folderSizes)
      // Each created folder is a local folder, created once.
      ensures |old(createdFolders)| <= |createdFolders|
      ensures UniquePaths(createdFolders[|old(createdFolders)|..])
      ensures PathsOf(createdFolders[|old(createdFolders)|..]) <= snap.folderSizes.Keys
      // Every removed folder is one with no local counterpart.
      ensures RemovedOnlyOrphans(snap, old(removedFolders), removedFolders)
      // `existing_files`, `existing_size` and the removals are what the popped entries make of them,
      // each local folder is popped at most once (and every one of them when the DFS completes),
      // and `folder_uuids` holds the uuid each local folder was listed under.
      ensures Tally([], {}) == DfsEffects(snap, allowDelete, service, old(Tally([], {})), popped)
      ensures PoppedLog(snap, popped, LocalPaths(snap, popped), folderUuids)
      ensures ok ==> LocalPaths(snap, popped) == snap.folderSizes.Keys
      // Nothing is deleted when deletion is off.
      ensures !allowDelete ==> removedFolders == old(removedFolders) && removedFiles == old(removedFiles)
                               && removedSize == old(removedSize)
      // The script exits only on a failed `list` or folder creation.
      ensures Dependable(service) ==> ok
    {
      var stack: seq<Pair> := [([], destRootId)];
      existingFolders := existingFolders + [([], destRootId)];
      DfsStart(snap, destRootId);
      ghost var x0 := Tally([], {});
      ghost var processed;
      ok, processed, orphans, popped := Drain(stack);
      if ok {
        DfsDone(snap, processed, orphans, createdFolders[|old(createdFolders)|..]);
      }
      NothingRemoved(x0, popped, old(removedSize));
    }

    /**
     * The loop of the DFS (internxt_backup.py:529-610) from its initial
     * stack. It ends with the loop invariant on an empty stack, or at the
     * first failed visit.
     */
    method Drain(stack0: seq<Pair>) returns (ok: bool, ghost processed: set<Path>, ghost orphans: seq<Path>,
                                             ghost popped: seq<Pair>)
      requires CacheValid() && ExistingValid() && RemovalsValid() && Tree(snap)
      requires DfsState(snap, stack0, {}, [], [])
      modifies this`cache, this`listCalls, this`folderUuids, this`createdFolders, this`existingFolders
      modifies this`existingFiles, this`existingSize, this`removedFolders, this`removedFiles
      modifies this`removedSize, this`removedFileSizes
      ensures CacheValid() && ExistingValid() && RemovalsValid()
      ensures |old(createdFolders)| <= |createdFolders|
      ensures ok ==> DfsState(snap, [], processed, orphans, createdFolders[|old(createdFolders)|..])
      ensures && processed <= snap.folderSizes.Keys
              && |orphans| <= 1 && (forall p :: p in orphans ==> p == [] && p !in snap.folderSizes)
              && UniquePaths(createdFolders[|old(createdFolders)|..])
              && PathsOf(createdFolders[|old(createdFolders)|..]) <= snap.folderSizes.Keys
      ensures folderUuids.Keys == old(folderUuids).Keys + processed
      ensures RemovedOnlyOrphans(snap, old(removedFolders), removedFolders)
      ensures Tally([], {}) == DfsEffects(snap, allowDelete, service, old(Tally([], {})), popped)
      ensures PoppedLog(snap, popped, processed, folderUuids)
      ensures Dependable(service) ==> ok
    {
      ghost var c0 := |createdFolders|;
      ghost var x0 := Tally([], {});
      popped := [];
      var stack := stack0;
      processed := {};
      orphans := [];
      assert removedFolders[..|removedFolders|] == removedFolders;
      assert createdFolders[c0..] == [];
      ok := true;
      while stack != []
        invariant CacheValid() && ExistingValid() && RemovalsValid()
        invariant c0 <= |createdFolders| && DfsState(snap, stack, processed, orphans, createdFolders[c0..])
        invariant folderUuids.Keys == old(folderUuids).Keys + processed
        invariant RemovedOnlyOrphans(snap, old(removedFolders), removedFolders)
        invariant Tally([], {}) == DfsEffects(snap, allowDelete, service, x0, popped)
        invariant PoppedLog(snap, popped, processed, folderUuids)
        invariant Dependable(service) ==> ok
        decreases snap.folderSizes.Keys - processed, |stack|
      {
        ghost var (popped0, processed0, uuids0) := (popped, processed, folderUuids);
        var top := stack[|stack| - 1];
        ok, stack, processed, orphans, popped := PopStep(stack, processed, orphans, c0, popped, x0, old(removedFolders),
                                                          old(folderUuids).Keys);
        PoppedStep(snap, popped0, processed0, uuids0, top, processed, folderUuids);
        if !ok {
          return;
        }
      }
    }

    /** With deletion off, the lists of removals are still the ones `x0` holds. */
    lemma NothingRemoved(x0: Effects, popped: seq<Pair>, size0: int)
      requires RemovalsValid() && Tally([], {}) == DfsEffects(snap, allowDelete, service, x0, popped)
      requires size0 == SumInts(x0.removedFileSizes)
      ensures !allowDelete ==> removedFolders == x0.removedFolders && removedFiles == x0.removedFiles
                               && removedSize == size0
    {
      if !allowDelete {
        DfsRemovesNothingWhenDeletionOff(snap, service, x0, popped);
      }
    }

    /** The upload loop's counters, with the evicted listings and the number of files skipped so far. */
    ghost function Counters(evicted: set<Uuid>, skipped: nat): Uploads
      reads this
    {
      Uploads(uploadedFiles, uploadedSize, numRetriedFiles, numTotalRetries, numFailedFiles, evicted, skipped)
    }

    /**
     * The body of the upload loop (internxt_backup.py:677-721) for one
     * local file: skip, failure or upload, as `Record` gives it.
     */
    method UploadOne(f: LocalFile, ghost plan: Plan, ghost t: Uploads, ghost cache0: map<Uuid, Listing>)
      returns (ghost t': Uploads)
      requires CacheValid() && UploadsValid() && plan == Plan(existingFiles, folderUuids, destRootId, service)
      requires Counters(t.evicted, t.skipped) == t && cache == cache0 - t.evicted
      modifies this`cache, this`uploadedFiles, this`uploadedSize
      modifies this`numRetriedFiles, this`numTotalRetries, this`numFailedFiles
      ensures CacheValid() && UploadsValid()
      ensures t' == Record(t, plan, f) && Counters(t'.evicted, t'.skipped) == t'
      ensures cache == cache0 - t'.evicted
    {
      t' := Record(t, plan, f);
      var destFolder := if f.path == [] then [] else Parent(f.path);
      var destUuid := if destFolder in folderUuids then folderUuids[destFolder] else destRootId;
      var existingFile := if f.path in existingFiles then existingFiles[f.path] else "";
      assert destUuid == DestUuid(plan, f) && (existingFile != "" <==> IsExisting(plan, f));
      if existingFile != "" {
        assert t' == t.(skipped := t.skipped + 1);
        return;
      }
      t' := UploadNew(f, destUuid, plan, t, cache0);
    }

    /** The upload of a file that is not an existing one, to the folder `destUuid` (internxt_backup.py:687-721). */
    method UploadNew(f: LocalFile, destUuid: Uuid, ghost plan: Plan, ghost t: Uploads, ghost cache0: map<Uuid, Listing>)
      returns (ghost t': Uploads)
      requires CacheValid() && UploadsValid() && plan.svc == service
      requires !IsExisting(plan, f) && destUuid == DestUuid(plan, f)
      requires Counters(t.evicted, t.skipped) == t && cache == cache0 - t.evicted
      modifies this`cache, this`uploadedFiles, this`uploadedSize
      modifies this`numRetriedFiles, this`numTotalRetries, this`numFailedFiles
      ensures CacheValid() && UploadsValid()
      ensures t' == Record(t, plan, f) && Counters(t'.evicted, t'.skipped) == t'
      ensures cache == cache0 - t'.evicted
    {
      t' := Record(t, plan, f);
      var result := service.upload(f.path, destUuid);
      if result.UploadFailed? {
        assert t' == t.(failed := t.failed + 1);
        numFailedFiles := numFailedFiles + 1;
        return;
      }
      assert OutcomeOf(plan, f) == Done(result.numRetries);
      if result.numRetries > 0 {
        numRetriedFiles := numRetriedFiles + 1;
        numTotalRetries := numTotalRetries + result.numRetries;
      }
      assert (uploadedFiles + [f])[..|uploadedFiles|] == uploadedFiles;
      uploadedFiles := uploadedFiles + [f];
      uploadedSize := uploadedSize + f.size;
      MinusTwice(cache0, t.evicted, {destUuid});
      cache := cache - {destUuid};
    }

    /**
     * The upload loop (internxt_backup.py:657-721): each local file is
     * skipped when `existing_files` holds a uuid for it, and otherwise
     * uploaded to its folder's uuid, with the counters and the evicted
     * listings as `UploadAll` gives them.
     */
    method UploadFiles() returns (ghost t: Uploads)
      requires CacheValid() && UploadsValid()
      modifies this`cache, this`uploadedFiles, this`uploadedSize
      modifies this`numRetriedFiles, this`numTotalRetries, this`numFailedFiles
      ensures CacheValid() && UploadsValid()
      ensures t == UploadAll(Plan(existingFiles, folderUuids, destRootId, service), snap.allFiles)
      ensures Counters(t.evicted, t.skipped) == t && cache == old(cache) - t.evicted
    {
      ghost var plan := Plan(existingFiles, folderUuids, destRootId, service);
      uploadedSize := 0;
      uploadedFiles := [];
      numRetriedFiles := 0;
      numTotalRetries := 0;
      numFailedFiles := 0;
      t := NoUploads;
      for i := 0 to |snap.allFiles|
        invariant CacheValid() && UploadsValid()
        invariant plan == Plan(existingFiles, folderUuids, destRootId, service)
        invariant t == UploadAll(plan, snap.allFiles[..i]) && Counters(t.evicted, t.skipped) == t
        invariant cache == old(cache) - t.evicted
      {
        assert snap.allFiles[..i + 1][..i] == snap.allFiles[..i];
        t := UploadOne(snap.allFiles[i], plan, t, old(cache));
      }
      assert snap.allFiles[..|snap.allFiles|] == snap.allFiles;
    }
  }

  /**
   * The state of the creation loop of one visit: the names of `missing`
   * no longer in `rest` have been obtained, and pushed as children of
   * `cur`, each once, with the uuid `get_or_create_folder` gave.
   */
  ghost predicate CreatedSoFar(snap: Snapshot, cur: Path, uuid: Uuid, items: Listing, svc: Service,
                               missing: set<string>, rest: set<string>, pushes: seq<Pair>) {
    && rest <= missing && Names(pushes) == missing - rest
    && (forall n :: n in missing - rest ==> Reuses(items, n) || svc.createFolder(uuid, n) != "")
    && ChildrenOf(pushes, cur) && UniquePaths(pushes) && PathsOf(pushes) <= snap.folderSizes.Keys
    && (forall k :: 0 <= k < |pushes| ==> pushes[k].1 == Obtained(items, uuid, Last(pushes[k].0), svc))
  }

  lemma CreateStep(snap: Snapshot, cur: Path, uuid: Uuid, items: Listing, svc: Service,
                   missing: set<string>, rest: set<string>, pushes: seq<Pair>, name: string, u: Uuid)
    requires CreatedSoFar(snap, cur, uuid, items, svc, missing, rest, pushes)
    requires name in rest && cur + [name] in snap.folderSizes
    requires Reuses(items, name) || svc.createFolder(uuid, name) != ""
    requires u == Obtained(items, uuid, name, svc)
    ensures CreatedSoFar(snap, cur, uuid, items, svc, missing, rest - {name}, pushes + [(cur + [name], u)])
  {
    var p := (cur + [name], u);
    PushChild(pushes, cur, name, u);
    ChildPath(cur, name);
    forall k | 0 <= k < |pushes| + 1
      ensures (pushes + [p])[k].1 == Obtained(items, uuid, Last((pushes + [p])[k].0), svc)
    {
      if k < |pushes| {
        assert (pushes + [p])[k] == pushes[k];
      }
    }
  }

  /** The facts about the scan that the reconciliation and the uploads rely on. */
  lemma ScanFacts(root: Dir)
    requires WellFormedTree(root)
    ensures var snap := ScanSteps(Walk(root, []));
      && Tree(snap) && DistinctFilePaths(snap.allFiles) && snap.fileSizes.Keys == FilePaths(snap.allFiles)
      && (forall f :: f in snap.allFiles ==> DestFolder(f) in snap.folderSizes)
  {
    ScanConsistent(root);
  }

  /**
   * The run on a scanned tree `snap` up to the upload loop
   * (internxt_backup.py:405-610): the set-up of the destination and the
   * reconciliation. `ok` is false when the script exits early.
   */
  method Prepare(snap: Snapshot, srcName: string, destId: Uuid, allowDelete: bool, service: Service)
    returns (ok: bool, run: BackupRun)
    requires Tree(snap)
    ensures fresh(run) && run.Valid() && run.snap == snap
    ensures run.allowDelete == allowDelete && run.service == service
    ensures ok ==> snap.folderSizes.Keys <= run.folderUuids.Keys
    // Created folders are local folders, each created once; removed folders have no local counterpart.
    ensures UniquePaths(run.createdFolders) && PathsOf(run.createdFolders) <= snap.folderSizes.Keys
    ensures RemovedOnlyOrphans(snap, [], run.removedFolders)
    ensures !allowDelete ==> run.removedFolders == [] && run.removedFiles == [] && run.removedSize == 0
    // The script exits early only on a failed `list` or folder creation.
    ensures Dependable(service) ==> ok
  {
    ok, run := Setup(snap, srcName, destId, allowDelete, service);
    assert run.removedFolders[..0] == [];
    if !ok {
      return;
    }
    ghost var orphans, popped;
    ok, orphans, popped := run.Reconcile();
  }

  /**
   * A fresh run whose destination root has been found or created
   * (internxt_backup.py:405-418), with nothing else done yet.
   */
  method Setup(snap: Snapshot, srcName: string, destId: Uuid, allowDelete: bool, service: Service)
    returns (ok: bool, run: BackupRun)
    ensures fresh(run) && run.Valid() && run.snap == snap
    ensures run.allowDelete == allowDelete && run.service == service
    ensures var l := Listed(service, destId);
      ok <==> l.Some? && (Reuses(l.value, srcName) || service.createFolder(destId, srcName) != "")
    ensures ok ==> run.destRootId == Obtained(Listed(service, destId).value, destId, srcName, service)
                   && run.folderUuids == map[[] := run.destRootId]
    ensures run.createdFolders == [] && run.existingFolders == [] && run.existingFiles == map[] && run.existingSize == 0
    ensures run.removedFolders == [] && run.removedFiles == [] && run.removedSize == 0
  {
    run := new BackupRun(snap, allowDelete, service, destId);
    ok := run.SetupRoot(srcName);
  }

  /**
   * A whole run (internxt_backup.py:405-721): the scan, the set-up of the
   * destination, the reconciliation and the uploads. `ok` is false when
   * the script exits early.
   */
  method RunBackup(root: Dir, srcName: string, destId: Uuid, allowDelete: bool, service: Service)
    returns (ok: bool, run: BackupRun)
    requires WellFormedTree(root)
    ensures fresh(run) && run.Valid() && run.snap == ScanSteps(Walk(root, []))
    ensures ok ==> run.snap.folderSizes.Keys <= run.folderUuids.Keys
    // Every file is uploaded, failed or skipped; the skipped ones are `existing_files`.
    ensures ok ==> |run.uploadedFiles| + run.numFailedFiles + |run.existingFiles| == |run.snap.allFiles|
    ensures ok ==> forall f :: f in run.uploadedFiles ==> f in run.snap.allFiles && f.path !in run.existingFiles
    ensures ok ==> run.numRetriedFiles <= |run.uploadedFiles| && run.numRetriedFiles <= run.numTotalRetries
    // No upload goes to the fallback root: every file's folder has a uuid.
    ensures ok ==> forall f :: f in run.snap.allFiles ==> DestFolder(f) in run.folderUuids
    // Nothing is deleted when deletion is off; the run completes when `list` and `create-folder` never fail.
    ensures !allowDelete ==> run.removedFolders == [] && run.removedFiles == []
    ensures Dependable(service) ==> ok
  {
    var snap := Scan(root);
    ScanFacts(root);
    ok, run := Prepare(snap, srcName, destId, allowDelete, service);
    if !ok {
      return;
    }
    ghost var uploads := run.UploadFiles();
    UploadSummary(Plan(run.existingFiles, run.folderUuids, run.destRootId, run.service), snap.allFiles);
  }
}
