/**
 * The per-entry rules of the reconciliation (internxt_backup.py:545-603):
 * what the script does with one remote item of the folder it is visiting,
 * given the local scan and whether deletion is enabled.
 */
module Decisions {
  import opened Wrappers
  import opened Text
  import opened Remote

  datatype Action =
    | NoUuid                                        // logged, entry skipped
    | Descend(path: Path, uuid: Uuid)               // push, record as existing, drop from the missing set
    | DeleteFolder(path: Path, uuid: Uuid)          // remote folder with no local counterpart
    | BadSizeField                                  // `int(...)` raised, entry skipped
    | DeleteFile(path: Path, uuid: Uuid, remoteSize: int) // remote file gone or changed locally
    | Existing(path: Path, uuid: Uuid, localSize: nat) // recorded in `existing_files`, `localSize` added to `existing_size`
    | Leave                                         // orphan left alone: deletion is off

  /**
   * The action for entry `e` of the folder at `cur`. `asFolder` is how the
   * entry is classified; `folders` and `fileSizes` are the scan's
   * `folder_sizes` and `file_sizes`.
   */
  function Decide(asFolder: bool, e: Entry, cur: Path, folders: map<Path, nat>, fileSizes: map<Path, nat>,
                  allowDelete: bool): (a: Action)
    // A folder entry never yields a file action and vice versa.
    ensures asFolder ==> a.NoUuid? || a.Descend? || a.DeleteFolder? || a.Leave?
    ensures !asFolder ==> !a.Descend? && !a.DeleteFolder?
    ensures a.NoUuid? <==> e.item.uuid == ""
    // Nothing is deleted unless deletion is enabled.
    ensures a.DeleteFolder? || a.DeleteFile? ==> allowDelete
    // Folders: descend exactly into those present locally, delete the others exactly when allowed.
    ensures asFolder && e.item.uuid != "" ==>
      (a.Descend? <==> cur + [e.key] in folders)
      && (a.DeleteFolder? <==> cur + [e.key] !in folders && allowDelete)
    ensures a.Descend? || a.DeleteFolder? || a.DeleteFile? || a.Existing? ==>
      a.path == cur + [e.key] && a.uuid == e.item.uuid
    // Files: a bad size field skips the entry.
    ensures !asFolder && e.item.uuid != "" ==> (a.BadSizeField? <==> e.item.size.BadSize?)
    // A file with no local counterpart is deleted exactly when deletion is on.
    ensures !asFolder && e.item.uuid != "" && !e.item.size.BadSize? && cur + [e.key] !in fileSizes ==>
      a == if allowDelete then DeleteFile(cur + [e.key], e.item.uuid, RemoteSize(e.item.size).value) else Leave
    // A file of equal size is existing; a changed one is deleted when deletion is on, else existing too.
    ensures !asFolder && e.item.uuid != "" && !e.item.size.BadSize? && cur + [e.key] in fileSizes ==>
      var local := fileSizes[cur + [e.key]];
      var remote := RemoteSize(e.item.size).value;
      a == if remote == local || !allowDelete then Existing(cur + [e.key], e.item.uuid, local)
           else DeleteFile(cur + [e.key], e.item.uuid, remote)
  {
    var path := cur + [e.key];
    var uuid := e.item.uuid;
    if uuid == "" then NoUuid
    else if asFolder then
      if path in folders then Descend(path, uuid)
      else if allowDelete then DeleteFolder(path, uuid)
      else Leave
    else
      match RemoteSize(e.item.size)
      case None => BadSizeField
      case Some(remote) =>
        if path !in fileSizes then
          if allowDelete then DeleteFile(path, uuid, remote) else Leave
        else if remote == fileSizes[path] then Existing(path, uuid, fileSizes[path])
        else if allowDelete then DeleteFile(path, uuid, remote)
        else Existing(path, uuid, fileSizes[path])
  }

  /** What an action contributes to `existing_size`. */
  function ExistingSize(a: Action): nat {
    if a.Existing? then a.localSize else 0
  }

  /** Only files with a local counterpart are recorded as existing, under their local size. */
  lemma ExistingOnlyForLocalFiles(asFolder: bool, e: Entry, cur: Path, folders: map<Path, nat>,
                                  fileSizes: map<Path, nat>, allowDelete: bool)
    ensures var a := Decide(asFolder, e, cur, folders, fileSizes, allowDelete);
      a.Existing? ==> !asFolder && a.path in fileSizes && a.localSize == fileSizes[a.path] && a.uuid != ""
  {
  }

  // ---------------------------------------------------------------------
  // A file whose extension is "folder"

  /** A file `notes.folder` as the `list` reply shows it: base name "notes", type "folder". */
  const NotesFile := RawItem(Some("notes"), "encrypted", "folder", "f-1", IntSize(10))

  /**
   * The script classifies by `type == "folder"`, so the file above is taken
   * for a folder: it is never recorded as existing, and the unchanged local
   * file is uploaded again on every run (with deletion on, a folder delete is
   * issued for the file's uuid instead).
   */
  lemma FolderTypedFileMisread(allowDelete: bool)
    ensures var items := Dict(Assignments(RawListing([], [NotesFile])));
      var e := Entry("notes.folder", NotesFile, false);
      var folders := map[[] := 10];
      var fileSizes := map[["notes.folder"] := 10];
      && items == [e]
      && IsFolderAsWritten(e)
      && Decide(IsFolderAsWritten(e), e, [], folders, fileSizes, allowDelete)
         == (if allowDelete then DeleteFolder(["notes.folder"], "f-1") else Leave)
      && Decide(IsFolder(e), e, [], folders, fileSizes, allowDelete) == Existing(["notes.folder"], "f-1", 10)
  {
    var e := Entry("notes.folder", NotesFile, false);
    assert FileKey(NotesFile) == "notes" + "." + "folder" == "notes.folder";
    var es := Assignments(RawListing([], [NotesFile]));
    assert |es| == 1 && es[0] == e;
    assert es == [e] && es[..0] == [];
    assert Dict(es) == Put([], e) == [e];
    var path: Path := [] + [e.key];
    assert path == ["notes.folder"];
    assert path !in map[[] := 10];
  }

  /**
   * With the classification by origin, a listed file of unchanged size is
   * always recorded as existing, whatever its extension.
   */
  lemma {:induction false} UnchangedFileIsExisting(raw: RawListing, i: nat, cur: Path, folders: map<Path, nat>,
                                                   fileSizes: map<Path, nat>, allowDelete: bool)
    requires i < |raw.files| && LastOfItsName(raw.files, i)
    requires raw.files[i].uuid != "" && cur + [FileKey(raw.files[i])] in fileSizes
    requires RemoteSize(raw.files[i].size) == Some(fileSizes[cur + [FileKey(raw.files[i])]] as int)
    ensures var e := Entry(FileKey(raw.files[i]), raw.files[i], false);
      && e in Dict(Assignments(raw))
      && Decide(IsFolder(e), e, cur, folders, fileSizes, allowDelete)
         == Existing(cur + [e.key], e.item.uuid, fileSizes[cur + [e.key]])
  {
    ListingKeepsItems(raw);
  }

  // ---------------------------------------------------------------------
  // The effects of the entry loop of one visit (internxt_backup.py:545-603)

  /**
   * What the entry loop of one folder visit adds to the script's state: the
   * stack pushes, `existing_files` and `existing_size`, the removal lists
   * and the remote sizes of removed files, and the uuids whose cached
   * listing a folder delete drops.
   */
  datatype Effects = Effects(pushes: seq<(Path, Uuid)>, existingFiles: map<Path, Uuid>, existingSize: nat,
                             removedFolders: seq<Path>, removedFiles: seq<Path>, removedFileSizes: seq<int>,
                             evicted: set<Uuid>)

  /** One action carried out; deletes take effect only when the service call succeeds. */
  function Apply(x: Effects, a: Action, svc: Service): Effects {
    match a
    case Descend(p, u) => x.(pushes := x.pushes + [(p, u)])
    case DeleteFolder(p, u) =>
      if svc.deleteFolder(u) then x.(removedFolders := x.removedFolders + [p], evicted := x.evicted + {u}) else x
    case DeleteFile(p, u, s) =>
      if svc.deleteFile(u) then x.(removedFiles := x.removedFiles + [p], removedFileSizes := x.removedFileSizes + [s])
      else x
    case Existing(p, u, s) => x.(existingFiles := x.existingFiles[p := u], existingSize := x.existingSize + s)
    case _ => x
  }

  function ApplyAll(x: Effects, acts: seq<Action>, svc: Service): Effects
    decreases |acts|
  {
    if acts == [] then x else Apply(ApplyAll(x, acts[..|acts| - 1], svc), acts[|acts| - 1], svc)
  }

  /** The actions for the entries of a listing, in dictionary order. */
  function Actions(items: Listing, cur: Path, folders: map<Path, nat>, fileSizes: map<Path, nat>,
                   allowDelete: bool): seq<Action>
  {
    seq(|items|, i requires 0 <= i < |items| => Decide(IsFolder(items[i]), items[i], cur, folders, fileSizes, allowDelete))
  }

  /** Every action of a listing's entries, carried out when deletion is off, leaves the removal lists alone. */
  lemma {:induction false} NoRemovalWhenDeletionOff(x: Effects, items: Listing, cur: Path, folders: map<Path, nat>,
                                                    fileSizes: map<Path, nat>, svc: Service, n: nat)
    requires n <= |items|
    ensures var y := ApplyAll(x, Actions(items, cur, folders, fileSizes, false)[..n], svc);
      y.removedFolders == x.removedFolders && y.removedFiles == x.removedFiles
      && y.removedFileSizes == x.removedFileSizes
  {
    var acts := Actions(items, cur, folders, fileSizes, false);
    if n > 0 {
      NoRemovalWhenDeletionOff(x, items, cur, folders, fileSizes, svc, n - 1);
      assert acts[..n][..n - 1] == acts[..n - 1];
      var a := acts[n - 1];
      assert a == Decide(IsFolder(items[n - 1]), items[n - 1], cur, folders, fileSizes, false);
      assert !a.DeleteFolder? && !a.DeleteFile?;
    }
  }
}
