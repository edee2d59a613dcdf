/** The folders of the user's own drive: the directory index of
    `get_user_dirs` (quark_client.py:655-697) and the path lookup of
    `get_dir_by_path` (quark_client.py:759-786).

    The server is not called: each folder item carries the items its own
    listing returns, so asking for the listing of a folder's id is reading
    that folder's contents. A listing that fails reads as an empty one, as
    the source does not look at the response status. */
module OwnStorage {
  import opened Wrappers
  import opened Text
  import opened Records
  import opened Seqs

  /** One item of a listing of the user's drive, with the fields read. */
  datatype DirItem = DirItem(
    kind: Option<string>,
    dir: bool,
    fileId: Option<string>,
    fid: Option<string>,
    fileName: Option<string>,
    contents: seq<DirItem>)

  /** One entry of the directory index. */
  datatype DirRecord = DirRecord(fid: string, name: Option<string>, path: string, pdirFid: string)

  /** `item.get('type') == 'folder' or item.get('dir', False)`. */
  predicate IsFolder(it: DirItem) {
    it.kind == Some("folder") || it.dir
  }

  function FolderId(it: DirItem): string {
    Alias(it.fileId, it.fid)
  }

  /** How an f-string prints an optional name: an absent one as `None`. */
  function NameText(name: Option<string>): string {
    if name.Some? then name.value else "None"
  }

  /** The path of a folder listed under `prefix`. Both branches of
      quark_client.py:687 build the same string, so a top-level folder's path
      is `/` and its name. */
  function ChildPath(prefix: string, it: DirItem): (p: string)
    ensures p == prefix + "/" + NameText(it.fileName)
    ensures prefix == "" ==> p == "/" + NameText(it.fileName)
  {
    prefix + "/" + NameText(it.fileName)
  }

  /** The folder items under `items`, each followed by the folders inside it. */
  function Folders(items: seq<DirItem>): (r: seq<DirItem>)
    ensures forall n :: n in r ==> IsFolder(n)
    decreases items
  {
    if |items| == 0 then []
    else
      var it := items[0];
      (if IsFolder(it) then [it] + Folders(it.contents) else []) + Folders(items[1..])
  }

  /** The folders of a non-empty listing: those of its first item, then those
      of the rest. */
  lemma FoldersCons(items: seq<DirItem>)
    requires |items| > 0
    ensures Folders(items) ==
      (if IsFolder(items[0]) then [items[0]] + Folders(items[0].contents) else []) + Folders(items[1..])
  {
  }

  /** Every record's path extends `prefix + "/"`. */
  predicate PathsUnder(r: seq<DirRecord>, prefix: string) {
    forall i :: 0 <= i < |r| ==> prefix + "/" <= r[i].path
  }

  /** Records under a path that itself extends `prefix + "/"` are under `prefix`. */
  lemma PathsUnderLift(r: seq<DirRecord>, path: string, prefix: string)
    requires PathsUnder(r, path) && prefix + "/" <= path
    ensures PathsUnder(r, prefix)
  {
    forall i | 0 <= i < |r|
      ensures prefix + "/" <= r[i].path
    {
      assert (prefix + "/") == path[..|prefix| + 1];
      assert r[i].path[..|prefix| + 1] == path[..|prefix| + 1];
    }
  }

  lemma PathsUnderConcat(r1: seq<DirRecord>, r2: seq<DirRecord>, prefix: string)
    requires PathsUnder(r1, prefix) && PathsUnder(r2, prefix)
    ensures PathsUnder(r1 + r2, prefix)
  {
    forall i | 0 <= i < |r1 + r2|
      ensures prefix + "/" <= (r1 + r2)[i].path
    {
      if i < |r1| {
        assert (r1 + r2)[i] == r1[i];
      } else {
        assert (r1 + r2)[i] == r2[i - |r1|];
      }
    }
  }

  /** `r` holds one record per folder of `folders`, in order, each with that
      folder's id and name. */
  predicate RecordsOf(r: seq<DirRecord>, folders: seq<DirItem>) {
    |r| == |folders| &&
    forall i :: 0 <= i < |r| ==> r[i].fid == FolderId(folders[i]) && r[i].name == folders[i].fileName
  }

  lemma RecordsOfConcat(r1: seq<DirRecord>, f1: seq<DirItem>, r2: seq<DirRecord>, f2: seq<DirItem>)
    requires RecordsOf(r1, f1) && RecordsOf(r2, f2)
    ensures RecordsOf(r1 + r2, f1 + f2)
  {
    forall i | 0 <= i < |r1 + r2|
      ensures (r1 + r2)[i].fid == FolderId((f1 + f2)[i]) && (r1 + r2)[i].name == (f1 + f2)[i].fileName
    {
      if i < |r1| {
        assert (r1 + r2)[i] == r1[i] && (f1 + f2)[i] == f1[i];
      } else {
        assert (r1 + r2)[i] == r2[i - |r1|] && (f1 + f2)[i] == f2[i - |f1|];
      }
    }
  }

  /** A folder of the drive together with the id and the path of the folder
      whose listing holds it. */
  datatype Placement = Placement(folder: DirItem, parentId: string, parentPath: string)

  /** The folders under `items`, in the order of `Folders`, each placed in the
      folder that lists it: those of `items` in `pdir` at `prefix`, and those
      inside a folder in that folder, at that folder's path. */
  function Placements(items: seq<DirItem>, pdir: string, prefix: string): seq<Placement>
    decreases items
  {
    if |items| == 0 then []
    else
      var it := items[0];
      var here :=
        if IsFolder(it) then
          [Placement(it, pdir, prefix)] + Placements(it.contents, FolderId(it), ChildPath(prefix, it))
        else [];
      here + Placements(items[1..], pdir, prefix)
  }

  /** The placements are those of the folders under `items`, in the same order. */
  lemma {:induction false} PlacedFolders(items: seq<DirItem>, pdir: string, prefix: string)
    ensures |Placements(items, pdir, prefix)| == |Folders(items)|
    ensures forall i :: 0 <= i < |Placements(items, pdir, prefix)| ==>
      Placements(items, pdir, prefix)[i].folder == Folders(items)[i]
    decreases items
  {
    if |items| > 0 {
      var it := items[0];
      FoldersCons(items);
      PlacedFolders(items[1..], pdir, prefix);
      if IsFolder(it) {
        PlacedFolders(it.contents, FolderId(it), ChildPath(prefix, it));
      }
    }
  }

  /** The placements right after the `i`th are those of its folder's contents,
      placed in that folder at its path. */
  predicate ContentsFollow(ps: seq<Placement>, i: nat) {
    i < |ps| &&
    var inner := Placements(ps[i].folder.contents, FolderId(ps[i].folder), ChildPath(ps[i].parentPath, ps[i].folder));
    i + 1 + |inner| <= |ps| && ps[i + 1..i + 1 + |inner|] == inner
  }

  /** The record `get_user_dirs` writes for a placed folder. */
  function RecordOf(p: Placement): DirRecord {
    DirRecord(FolderId(p.folder), p.folder.fileName, ChildPath(p.parentPath, p.folder), p.parentId)
  }

  /** `r` holds the records of `ps`, in order. */
  predicate RecordsOfPlaced(r: seq<DirRecord>, ps: seq<Placement>) {
    |r| == |ps| && forall i :: 0 <= i < |r| ==> r[i] == RecordOf(ps[i])
  }

  lemma RecordsOfPlacedConcat(r1: seq<DirRecord>, p1: seq<Placement>, r2: seq<DirRecord>, p2: seq<Placement>)
    requires RecordsOfPlaced(r1, p1) && RecordsOfPlaced(r2, p2)
    ensures RecordsOfPlaced(r1 + r2, p1 + p2)
  {
    forall i | 0 <= i < |r1 + r2|
      ensures (r1 + r2)[i] == RecordOf((p1 + p2)[i])
    {
      if i < |r1| {
        assert (r1 + r2)[i] == r1[i] && (p1 + p2)[i] == p1[i];
      } else {
        assert (r1 + r2)[i] == r2[i - |r1|] && (p1 + p2)[i] == p2[i - |p1|];
      }
    }
  }

  /** `get_user_dirs(pdir, prefix)` on a listing: one record per folder, in
      the order of `Folders`, each with that folder's id and name, the path of
      the folder that lists it followed by its own name, and that folder's id
      as parent. */
  function UserDirs(items: seq<DirItem>, pdir: string, prefix: string): (r: seq<DirRecord>)
    ensures RecordsOf(r, Folders(items))
    ensures RecordsOfPlaced(r, Placements(items, pdir, prefix))
    ensures PathsUnder(r, prefix)
    decreases items
  {
    if |items| == 0 then []
    else
      var it := items[0];
      var here :=
        if IsFolder(it) then
          var path := ChildPath(prefix, it);
          var below := UserDirs(it.contents, FolderId(it), path);
          PathsUnderLift(below, path, prefix);
          var top := [DirRecord(FolderId(it), it.fileName, path, pdir)];
          RecordsOfConcat(top, [it], below, Folders(it.contents));
          RecordsOfPlacedConcat(top, [Placement(it, pdir, prefix)], below, Placements(it.contents, FolderId(it), path));
          PathsUnderConcat(top, below, prefix);
          top + below
        else [];
      var rest := UserDirs(items[1..], pdir, prefix);
      FoldersCons(items);
      RecordsOfConcat(here, if IsFolder(it) then [it] + Folders(it.contents) else [], rest, Folders(items[1..]));
      RecordsOfPlacedConcat(here,
        if IsFolder(it) then [Placement(it, pdir, prefix)] + Placements(it.contents, FolderId(it), ChildPath(prefix, it)) else [],
        rest, Placements(items[1..], pdir, prefix));
      PathsUnderConcat(here, rest, prefix);
      here + rest
  }

  /** `[p for p in path.split('/') if p]`. */
  function Segments(path: string): (parts: seq<string>)
    ensures forall p :: p in parts <==> p in Split(path, '/') && p != ""
    ensures Embeds(parts, Split(path, '/'))
    ensures forall p :: p in parts ==> p != "" && '/' !in p
    ensures forall p :: multiset(parts)[p] == if p != "" then multiset(Split(path, '/'))[p] else 0
  {
    var pieces := Split(path, '/');
    var nonEmpty := (p: string) => p != "";
    assert forall p :: p in pieces ==> '/' !in p;
    FilterCounts(pieces, nonEmpty);
    Filter(pieces, nonEmpty)
  }

  /** The index of the first record named `part`, or `|dirs|` when none is. */
  function FirstNamed(dirs: seq<DirRecord>, part: string): (k: nat)
    ensures k <= |dirs|
    ensures k < |dirs| ==> dirs[k].name == Some(part)
    ensures forall j :: 0 <= j < k ==> dirs[j].name != Some(part)
  {
    if |dirs| == 0 then 0
    else if dirs[0].name == Some(part) then 0
    else 1 + FirstNamed(dirs[1..], part)
  }

  /** The loop of quark_client.py:774-784, from the folder `fid` whose listing
      is `listing`: each segment is looked up among all the folders below. */
  function Walk(listing: seq<DirItem>, fid: string, parts: seq<string>): Option<string>
    decreases |parts|
  {
    if |parts| == 0 then Some(fid)
    else
      var dirs := UserDirs(listing, fid, "");
      var k := FirstNamed(dirs, parts[0]);
      if k == |dirs| then None
      else Walk(Folders(listing)[k].contents, dirs[k].fid, parts[1..])
  }

  /** `get_dir_by_path(path)`, where `root` is the listing of the folder `"0"`. */
  function GetDirByPath(root: seq<DirItem>, path: string): (r: Option<string>)
    ensures Segments(path) == [] ==> r == Some("0")
    ensures r == Walk(root, "0", Segments(path))
  {
    if path == "" || path == "/" then
      RootPathsEmpty();
      Some("0")
    else Walk(root, "0", Segments(path))
  }

  /** The two spellings of the root have no segments, so the shortcut for them
      agrees with the walk. */
  lemma RootPathsEmpty()
    ensures Segments("") == [] && Segments("/") == []
  {
    assert Split("/", '/') == ["", ""] by {
      SplitJoin(["", ""], '/');
      assert Join(["", ""], '/') == "/";
    }
    assert Split("", '/') == [""] by {
      SplitJoin([""], '/');
    }
  }
}
