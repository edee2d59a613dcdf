/** Walking the folders of a share: the flat file list of
    `get_all_files_recursive` (quark_client.py:383-442) and the nested tree of
    `get_folder_tree` (quark_client.py:444-501).

    The server is not called: each folder entry carries the listing the
    server would return for its id, either the entries of the first page or
    the reason the request failed. */
module ShareTree {
  import opened Wrappers
  import opened Records

  /** One raw item of a listing page, with the fields the walk reads. Absent
      keys are `None`; `dir` and `shareFidToken` default to `false` and the
      empty string, `size` to 0, as the `.get` defaults of the source do. */
  datatype Entry = Entry(
    kind: Option<string>,
    dir: bool,
    fileId: Option<string>,
    fid: Option<string>,
    fileName: Option<string>,
    name: Option<string>,
    size: nat,
    shareFidToken: string,
    play: PlayLua,
    contents: Listing)

  /** The `play_lua` field of an entry: absent, a mapping, or some other JSON
      value, named by the Python type it decodes to (`NoneType` for `null`,
      `str`, `int`, `list`, ...). */
  datatype PlayLua = NoPlay | PlayMap | PlayOther(typeName: string)

  /** What listing one folder yields: its entries, or the failure message the
      server gave (`message`, else `msg`, else `未知错误`). */
  datatype Listing = Listed(entries: seq<Entry>) | Failed(detail: string)

  /** A node of the folder tree; `size_str` is left out with `format_size`. */
  datatype Tree =
    | FileNode(fid: string, name: string, size: nat)
    | FolderNode(folderId: Option<string>, folderName: string, children: seq<Tree>)

  const ListError: string := "获取文件列表失败: "
  const FlattenError: string := "递归获取文件失败: "
  const TreeError: string := "获取文件夹树失败: "
  const RootLabel: string := "根目录"

  /** Whether `file.get('play_lua', {}).get('phone_play_url')` can be
      evaluated: an absent field reads as `{}`, a mapping answers `get`, any
      other value raises. */
  predicate PlayReadable(e: Entry) {
    !e.play.PlayOther?
  }

  /** The text of the `AttributeError` raised on a value of type `typeName`. */
  function PlayError(typeName: string): string {
    "'" + typeName + "' object has no attribute 'get'"
  }

  /** `file.get('type') == 'file' or not file.get('dir', False)`. */
  predicate IsFile(e: Entry) {
    e.kind == Some("file") || !e.dir
  }

  function EntryId(e: Entry): string {
    Alias(e.fileId, e.fid)
  }

  function EntryName(e: Entry): string {
    Alias(e.fileName, e.name)
  }

  /** The record built at quark_client.py:414-429, reduced to the fields the
      rest of the tools read. */
  function Convert(e: Entry, pdir: string): (r: FileRecord)
    ensures r.fid == EntryId(e) && r.name == EntryName(e) && r.pdirFid == pdir
    ensures r.size == e.size && r.shareFidToken == e.shareFidToken
  {
    FileRecord(EntryId(e), EntryName(e), e.size, pdir, e.shareFidToken)
  }

  /** Whether a folder met at `depth` is descended into. */
  predicate Descend(depth: int, maxDepth: int) {
    maxDepth == -1 || depth < maxDepth
  }

  // ---------------------------------------------------------------------------
  // get_all_files_recursive
  // ---------------------------------------------------------------------------

  /** The files under the folder `pdir` whose listing is `l`, folders below
      the depth limit expanded in place; the first failed listing met, in
      listing order, aborts the walk. */
  function Flatten(l: Listing, pdir: string, depth: int, maxDepth: int): (r: Result<seq<FileRecord>, string>)
    ensures r.Err? ==> FlattenError <= r.error
    decreases l, 1
  {
    match l
    case Failed(detail) => Err(FlattenError + ListError + detail)
    case Listed(_) =>
      match FlattenFrom(l, pdir, 0, depth, maxDepth)
      case Err(m) => Err(FlattenError + m)
      case Ok(files) => Ok(files)
  }

  /** The loop of quark_client.py:409-437 from the entry at `i` on. The record
      of every entry, file or folder, is built before the entry is looked at,
      so an unreadable `play_lua` aborts the walk at that entry. */
  function FlattenFrom(l: Listing, pdir: string, i: nat, depth: int, maxDepth: int)
    : (r: Result<seq<FileRecord>, string>)
    requires l.Listed? && i <= |l.entries|
    decreases l, 0, |l.entries| - i
  {
    if i == |l.entries| then Ok([])
    else
      var e := l.entries[i];
      var here :=
        if !PlayReadable(e) then Err(PlayError(e.play.typeName))
        else if IsFile(e) then Ok([Convert(e, pdir)])
        else if Descend(depth, maxDepth) then Flatten(e.contents, EntryId(e), depth + 1, maxDepth)
        else Ok([]);
      match here
      case Err(m) => Err(m)
      case Ok(files) =>
        match FlattenFrom(l, pdir, i + 1, depth, maxDepth)
        case Err(m) => Err(m)
        case Ok(rest) => Ok(files + rest)
  }

  // ---------------------------------------------------------------------------
  // get_folder_tree
  // ---------------------------------------------------------------------------

  /** The tree of the folder `pdir`, or `None` when `depth` is past the limit;
      the root `"0"` is labelled `根目录` and has no id, every other folder
      keeps its id and an empty label. */
  function FolderTree(l: Listing, pdir: string, depth: int, maxDepth: int): (r: Result<Option<Tree>, string>)
    ensures r.Err? ==> TreeError <= r.error
    ensures r.Ok? && r.value.Some? ==> r.value.value.FolderNode?
    ensures r.Ok? && r.value.Some? ==>
      (r.value.value.folderName == "" <==> r.value.value.folderId.Some?) &&
      (r.value.value.folderId.Some? ==> r.value.value.folderId.value == pdir)
    ensures r.Ok? && r.value.None? <==> maxDepth != -1 && depth > maxDepth
    ensures r.Ok? && r.value.Some? ==>
      r.value.value.folderId == (if pdir == "0" then None else Some(pdir)) &&
      r.value.value.folderName == (if pdir == "0" then RootLabel else "")
    decreases l, 1
  {
    if maxDepth != -1 && depth > maxDepth then Ok(None)
    else
      match l
      case Failed(detail) => Err(TreeError + ListError + detail)
      case Listed(_) =>
        match TreeFrom(l, 0, depth, maxDepth)
        case Err(m) => Err(TreeError + m)
        case Ok(children) =>
          Ok(Some(FolderNode(if pdir != "0" then Some(pdir) else None,
                             if pdir == "0" then RootLabel else "",
                             children)))
  }

  /** The loop of quark_client.py:474-496 from the entry at `i` on. */
  function TreeFrom(l: Listing, i: nat, depth: int, maxDepth: int): (r: Result<seq<Tree>, string>)
    requires l.Listed? && i <= |l.entries|
    decreases l, 0, |l.entries| - i
  {
    if i == |l.entries| then Ok([])
    else
      var e := l.entries[i];
      var here: Result<seq<Tree>, string> :=
        if IsFile(e) then Ok([FileNode(EntryId(e), EntryName(e), e.size)])
        else
          match FolderTree(e.contents, EntryId(e), depth + 1, maxDepth)
          case Err(m) => Err(m)
          case Ok(None) => Ok([])
          case Ok(Some(t)) => Ok([t]);
      match here
      case Err(m) => Err(m)
      case Ok(nodes) =>
        match TreeFrom(l, i + 1, depth, maxDepth)
        case Err(m) => Err(m)
        case Ok(rest) => Ok(nodes + rest)
  }

  // ---------------------------------------------------------------------------
  // Reference definitions
  // ---------------------------------------------------------------------------

  /** The id, name and size of a file, the part both walks report. */
  datatype Leaf = Leaf(fid: string, name: string, size: nat)

  function Summaries(files: seq<FileRecord>): (r: seq<Leaf>)
    ensures |r| == |files|
    ensures forall k :: 0 <= k < |files| ==> r[k] == Leaf(files[k].fid, files[k].name, files[k].size)
  {
    if |files| == 0 then [] else [Leaf(files[0].fid, files[0].name, files[0].size)] + Summaries(files[1..])
  }

  /** The file nodes of a forest, in pre-order. */
  function Leaves(ts: seq<Tree>): seq<Leaf>
    decreases ts
  {
    if |ts| == 0 then []
    else
      var first := match ts[0]
        case FileNode(fid, name, size) => [Leaf(fid, name, size)]
        case FolderNode(_, _, children) => Leaves(children);
      first + Leaves(ts[1..])
  }

  /** Whether a walk of `l` meets a mishap of the kinds it is sensitive to: a
      failed listing (`listings`) of this folder or of one below a folder the
      depth limit lets it enter, or an entry of a listing it reads whose
      `play_lua` cannot be read (`plays`). */
  predicate Meets(l: Listing, depth: int, maxDepth: int, listings: bool, plays: bool)
    decreases l, 1
  {
    match l
    case Failed(_) => listings
    case Listed(_) => MeetsFrom(l, 0, depth, maxDepth, listings, plays)
  }

  predicate MeetsFrom(l: Listing, i: nat, depth: int, maxDepth: int, listings: bool, plays: bool)
    requires l.Listed? && i <= |l.entries|
    decreases l, 0, |l.entries| - i
  {
    i < |l.entries| &&
    ((plays && !PlayReadable(l.entries[i])) ||
     (!IsFile(l.entries[i]) && Descend(depth, maxDepth) &&
      Meets(l.entries[i].contents, depth + 1, maxDepth, listings, plays)) ||
     MeetsFrom(l, i + 1, depth, maxDepth, listings, plays))
  }

  /** The message of the first entry of `entries` whose `play_lua` cannot be
      read, if there is one. */
  function PlayFailure(entries: seq<Entry>): (r: Option<string>)
    ensures r.None? <==> forall k :: 0 <= k < |entries| ==> PlayReadable(entries[k])
  {
    if |entries| == 0 then None
    else if !PlayReadable(entries[0]) then Some(PlayError(entries[0].play.typeName))
    else
      var rest := PlayFailure(entries[1..]);
      assert forall k :: 1 <= k < |entries| ==> entries[k] == entries[1..][k - 1];
      rest
  }

  /** A file the flat walk meets, with the id of the folder whose listing
      held it. */
  datatype Site = Site(entry: Entry, parent: string)

  /** The files below the folder `pdir` whose listing is `l`, in pre-order,
      each with the id of the folder that listed it. Folders past the depth
      limit are not entered, and a failed listing holds no file. */
  function Sites(l: Listing, pdir: string, depth: int, maxDepth: int): seq<Site>
    decreases l, 1
  {
    match l
    case Failed(_) => []
    case Listed(_) => SitesFrom(l, pdir, 0, depth, maxDepth)
  }

  function SitesFrom(l: Listing, pdir: string, i: nat, depth: int, maxDepth: int): seq<Site>
    requires l.Listed? && i <= |l.entries|
    decreases l, 0, |l.entries| - i
  {
    if i == |l.entries| then []
    else
      var e := l.entries[i];
      var here :=
        if IsFile(e) then [Site(e, pdir)]
        else if Descend(depth, maxDepth) then Sites(e.contents, EntryId(e), depth + 1, maxDepth)
        else [];
      here + SitesFrom(l, pdir, i + 1, depth, maxDepth)
  }

  /** The record of each site, built from its entry under its folder. */
  function SiteRecords(sites: seq<Site>): (r: seq<FileRecord>)
    ensures |r| == |sites|
    ensures forall k :: 0 <= k < |sites| ==> r[k] == Convert(sites[k].entry, sites[k].parent)
  {
    if |sites| == 0 then [] else [Convert(sites[0].entry, sites[0].parent)] + SiteRecords(sites[1..])
  }

  /** The files listed directly in `entries`, converted, in order. */
  function FilesHere(entries: seq<Entry>, pdir: string): (r: seq<FileRecord>)
    ensures |r| <= |entries|
  {
    if |entries| == 0 then []
    else (if IsFile(entries[0]) then [Convert(entries[0], pdir)] else []) + FilesHere(entries[1..], pdir)
  }
}
