/**
 * The remote side as the backup script sees it (internxt_backup.py:333-358):
 * the items of a `list` reply, the name-keyed dictionary that
 * `list_remote_directory` builds from them, and the outcomes of the other
 * CLI calls, which are inputs of the model.
 */
module Remote {
  import opened Wrappers
  import opened Text

  /** A folder or file identifier; "" stands for a missing or empty `uuid`. */
  type Uuid = string

  /** The `size` field of a listed file as `int(metadata.get("size", 0))` sees it. */
  datatype SizeField = NoSize | IntSize(n: int) | BadSize

  /** The remote size, or `None` when `int(...)` raises. */
  function RemoteSize(s: SizeField): Option<int> {
    match s
    case NoSize => Some(0)
    case IntSize(n) => Some(n)
    case BadSize => None
  }

  /** One object of the `folders` or `files` array of a `list` reply. */
  datatype RawItem = RawItem(plainName: Option<string>, name: string, typ: string, uuid: Uuid, size: SizeField)

  datatype RawListing = RawListing(folders: seq<RawItem>, files: seq<RawItem>)

  /**
   * A dictionary entry of a listing. `listedAsFolder` says which array the
   * item came from; the script itself only looks at the item's `type`.
   */
  datatype Entry = Entry(key: string, item: RawItem, listedAsFolder: bool)

  /** An insertion-ordered dictionary from names to items. */
  type Listing = seq<Entry>

  function FolderKey(it: RawItem): string {
    if it.plainName.Some? then it.plainName.value else it.name
  }

  /** A file's name is its decrypted base name and its `type` (the extension). */
  function FileKey(it: RawItem): string {
    if it.plainName.Some? then it.plainName.value + "." + it.typ else it.name
  }

  /**
   * The assignments `items[key] = item` in the order the script makes them:
   * the folders, then the files.
   */
  function Assignments(raw: RawListing): seq<Entry> {
    var nf := |raw.folders|;
    seq(nf + |raw.files|, i requires 0 <= i < nf + |raw.files| =>
      if i < nf then Entry(FolderKey(raw.folders[i]), raw.folders[i], true)
      else Entry(FileKey(raw.files[i - nf]), raw.files[i - nf], false))
  }

  // ---------------------------------------------------------------------
  // Dictionaries

  function KeysOf(l: Listing): set<string> {
    set e | e in l :: e.key
  }

  predicate DistinctKeys(l: Listing) {
    forall i, j :: 0 <= i < j < |l| ==> l[i].key != l[j].key
  }

  /** Position of `k` in `l`, if present. */
  function Find(l: Listing, k: string): (r: Option<nat>)
    ensures r.Some? ==> r.value < |l| && l[r.value].key == k
    ensures r.None? ==> k !in KeysOf(l)
  {
    if l == [] then None
    else if l[0].key == k then Some(0)
    else match Find(l[1..], k)
      case None => None
      case Some(i) => Some(i + 1)
  }

  /** `d.get(k)` */
  function Get(l: Listing, k: string): (r: Option<Entry>)
    ensures r.Some? ==> r.value in l && r.value.key == k
    ensures r.None? ==> k !in KeysOf(l)
  {
    match Find(l, k)
    case None => None
    case Some(i) => Some(l[i])
  }

  /** `d[e.key] = e`: an existing key keeps its place and takes the new value. */
  function Put(l: Listing, e: Entry): (r: Listing)
    requires DistinctKeys(l)
    ensures DistinctKeys(r)
  {
    match Find(l, e.key)
    case None => l + [e]
    case Some(i) => l[i := e]
  }

  lemma PutSpec(l: Listing, e: Entry)
    requires DistinctKeys(l)
    ensures KeysOf(Put(l, e)) == KeysOf(l) + {e.key}
    ensures e in Put(l, e)
    ensures forall x :: x in Put(l, e) ==> x == e || (x in l && x.key != e.key)
    ensures forall x :: x in l && x.key != e.key ==> x in Put(l, e)
  {
    var r := Put(l, e);
    match Find(l, e.key)
    case None =>
    case Some(i) =>
      assert forall j :: 0 <= j < |l| && j != i ==> r[j] == l[j];
      forall k | k in KeysOf(l) ensures k in KeysOf(r) {
        var x :| x in l && x.key == k;
        var j :| 0 <= j < |l| && l[j] == x;
        if j == i { assert r[i].key == k; } else { assert r[j] == x; }
      }
  }

  /** The dictionary left by a sequence of assignments. */
  function Dict(es: seq<Entry>): (r: Listing)
    ensures DistinctKeys(r)
    decreases |es|
  {
    if es == [] then [] else Put(Dict(es[..|es| - 1]), es[|es| - 1])
  }

  /** The dictionary holds exactly the assigned keys, each with a value assigned to it. */
  lemma {:induction false} DictKeys(es: seq<Entry>)
    ensures KeysOf(Dict(es)) == set e | e in es :: e.key
    ensures forall x :: x in Dict(es) ==> x in es
    decreases |es|
  {
    if es != [] {
      var es' := es[..|es| - 1];
      DictKeys(es');
      PutSpec(Dict(es'), es[|es| - 1]);
      assert es == es' + [es[|es| - 1]];
    }
  }

  /** The last assignment to a key is the value the dictionary keeps. */
  lemma {:induction false} DictLastWins(es: seq<Entry>, i: nat)
    requires i < |es|
    requires forall j :: i < j < |es| ==> es[j].key != es[i].key
    ensures es[i] in Dict(es)
    decreases |es|
  {
    var es' := es[..|es| - 1];
    PutSpec(Dict(es'), es[|es| - 1]);
    if i < |es| - 1 {
      DictLastWins(es', i);
    }
  }

  /** `list_remote_directory` after a successful `list` call (:333-358). */
  method ListRemoteDirectory(raw: RawListing) returns (items: Listing)
    ensures items == Dict(Assignments(raw))
  {
    items := PutFolders(raw);
    items := PutFiles(raw, items);
  }

  /** The folder loop of `list_remote_directory` (:345-350). */
  method PutFolders(raw: RawListing) returns (items: Listing)
    ensures items == Dict(Assignments(raw)[..|raw.folders|])
  {
    items := [];
    for i := 0 to |raw.folders|
      invariant items == Dict(Assignments(raw)[..i])
    {
      var item := raw.folders[i];
      var e := Entry(FolderKey(item), item, true);
      FolderAssignment(raw, i, items, e);
      items := Put(items, e);
    }
  }

  /** The file loop of `list_remote_directory` (:351-356), after the folders. */
  method PutFiles(raw: RawListing, folders: Listing) returns (items: Listing)
    requires folders == Dict(Assignments(raw)[..|raw.folders|])
    ensures items == Dict(Assignments(raw))
  {
    items := folders;
    for i := 0 to |raw.files|
      invariant items == Extend(folders, FileEntries(raw.files)[..i])
    {
      var item := raw.files[i];
      var e := Entry(FileKey(item), item, false);
      FileAssignment(raw.files, i, folders, items, e);
      items := Put(items, e);
    }
    FilesDone(raw, folders);
  }

  /** The assignments of the file loop alone. */
  function FileEntries(files: seq<RawItem>): (r: seq<Entry>)
    ensures |r| == |files|
  {
    seq(|files|, i requires 0 <= i < |files| => Entry(FileKey(files[i]), files[i], false))
  }

  /** The dictionary `d` after the assignments `es`, in order. */
  function Extend(d: Listing, es: seq<Entry>): (r: Listing)
    requires DistinctKeys(d)
    ensures DistinctKeys(r)
    decreases |es|
  {
    if es == [] then d else Put(Extend(d, es[..|es| - 1]), es[|es| - 1])
  }

  lemma {:induction false} DictAppend(a: seq<Entry>, b: seq<Entry>)
    ensures Dict(a + b) == Extend(Dict(a), b)
    decreases |b|
  {
    if b == [] {
      assert a + b == a;
    } else {
      var b' := b[..|b| - 1];
      DictAppend(a, b');
      assert (a + b)[..|a + b| - 1] == a + b';
    }
  }

  lemma FilesDone(raw: RawListing, folders: Listing)
    requires folders == Dict(Assignments(raw)[..|raw.folders|])
    ensures Extend(folders, FileEntries(raw.files)[..|raw.files|]) == Dict(Assignments(raw))
  {
    var es := Assignments(raw);
    assert es == es[..|raw.folders|] + FileEntries(raw.files);
    assert FileEntries(raw.files)[..|raw.files|] == FileEntries(raw.files);
    DictAppend(es[..|raw.folders|], FileEntries(raw.files));
  }

  lemma FileAssignment(files: seq<RawItem>, i: nat, folders: Listing, items: Listing, e: Entry)
    requires i < |files| && DistinctKeys(folders) && items == Extend(folders, FileEntries(files)[..i])
    requires e == Entry(FileKey(files[i]), files[i], false)
    ensures DistinctKeys(items) && Put(items, e) == Extend(folders, FileEntries(files)[..i + 1])
  {
    assert FileEntries(files)[..i + 1][..i] == FileEntries(files)[..i];
  }

  lemma AssignmentStep(es: seq<Entry>, n: nat)
    requires n < |es|
    ensures DistinctKeys(Dict(es[..n])) && Put(Dict(es[..n]), es[n]) == Dict(es[..n + 1])
  {
    assert es[..n + 1][..n] == es[..n];
  }

  lemma FolderAssignment(raw: RawListing, i: nat, items: Listing, e: Entry)
    requires i < |raw.folders| && items == Dict(Assignments(raw)[..i])
    requires e == Entry(FolderKey(raw.folders[i]), raw.folders[i], true)
    ensures DistinctKeys(items) && Put(items, e) == Dict(Assignments(raw)[..i + 1])
  {
    AssignmentStep(Assignments(raw), i);
  }

  /** No later file of the reply has the same dictionary key. */
  predicate LastOfItsName(fs: seq<RawItem>, i: nat) {
    forall j :: i < j < |fs| ==> FileKey(fs[j]) != FileKey(fs[i])
  }

  /** Every listed item is in the dictionary unless a later item has the same name. */
  lemma ListingKeepsItems(raw: RawListing)
    ensures DistinctKeys(Dict(Assignments(raw)))
    ensures KeysOf(Dict(Assignments(raw))) == set e | e in Assignments(raw) :: e.key
    ensures forall i :: 0 <= i < |raw.files| && LastOfItsName(raw.files, i) ==>
      Entry(FileKey(raw.files[i]), raw.files[i], false) in Dict(Assignments(raw))
  {
    var es := Assignments(raw);
    DictKeys(es);
    var nf := |raw.folders|;
    forall i | 0 <= i < |raw.files| && LastOfItsName(raw.files, i)
      ensures Entry(FileKey(raw.files[i]), raw.files[i], false) in Dict(es)
    {
      assert es[nf + i] == Entry(FileKey(raw.files[i]), raw.files[i], false);
      forall j | nf + i < j < |es| ensures es[j].key != es[nf + i].key {
        assert es[j] == Entry(FileKey(raw.files[j - nf]), raw.files[j - nf], false);
      }
      DictLastWins(es, nf + i);
    }
  }

  // ---------------------------------------------------------------------
  // Classification of an entry (internxt_backup.py:371, :552)

  /** The script's test `metadata.get("type") == "folder"`. */
  predicate IsFolderAsWritten(e: Entry) {
    e.item.typ == "folder"
  }

  /** An entry is a folder when the reply lists it among the folders. */
  predicate IsFolder(e: Entry) {
    e.listedAsFolder
  }

  // ---------------------------------------------------------------------
  // The CLI calls other than `list`, as outcomes after run_cli's retries

  datatype UploadResult = UploadFailed | Uploaded(numRetries: nat)

  /**
   * What each remote call ends with. `list` gives `None` when the call
   * failed; `createFolder` gives "" when the call failed or its reply had
   * no folder uuid; the deletes give whether the call succeeded.
   */
  datatype Service = Service(
    list: Uuid -> Option<RawListing>,
    createFolder: (Uuid, string) -> Uuid,
    deleteFolder: Uuid -> bool,
    deleteFile: Uuid -> bool,
    upload: (Path, Uuid) -> UploadResult)
}
