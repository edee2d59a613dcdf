/** What a path lookup on the user's drive can return. */
module OwnStorageProperties {
  import opened Wrappers
  import opened Text
  import opened Records
  import opened Seqs
  import opened OwnStorage

  /** The folders inside an indexed folder are themselves indexed. */
  lemma {:induction false} FoldersNested(items: seq<DirItem>, n: DirItem)
    requires n in Folders(items)
    ensures forall m :: m in Folders(n.contents) ==> m in Folders(items)
    decreases items
  {
    var it := items[0];
    var here := if IsFolder(it) then [it] + Folders(it.contents) else [];
    assert Folders(items) == here + Folders(items[1..]);
    if n in Folders(items[1..]) {
      FoldersNested(items[1..], n);
    } else {
      assert IsFolder(it) && n in [it] + Folders(it.contents);
      if n != it {
        assert n in Folders(it.contents);
        FoldersNested(it.contents, n);
      }
    }
  }

  /** A folder listed directly in `items` is placed in `pdir` at `prefix`; it
      comes after the folders of the items before it. */
  lemma TopPlaced(items: seq<DirItem>, pdir: string, prefix: string, j: nat)
    requires j < |items| && IsFolder(items[j])
    ensures |Folders(items[..j])| < |Placements(items, pdir, prefix)|
    ensures Placements(items, pdir, prefix)[|Folders(items[..j])|] == Placement(items[j], pdir, prefix)
  {
    PlacedAfter(items, pdir, prefix, j);
    PlacedFolders(items[..j], pdir, prefix);
  }

  /** `TopPlaced`, counted in placements: the placements of the items before
      the `j`th come first. */
  lemma {:induction false} PlacedAfter(items: seq<DirItem>, pdir: string, prefix: string, j: nat)
    requires j < |items| && IsFolder(items[j])
    ensures |Placements(items[..j], pdir, prefix)| < |Placements(items, pdir, prefix)|
    ensures Placements(items, pdir, prefix)[|Placements(items[..j], pdir, prefix)|] == Placement(items[j], pdir, prefix)
    decreases j
  {
    var it := items[0];
    var here := if IsFolder(it) then [Placement(it, pdir, prefix)] + Placements(it.contents, FolderId(it), ChildPath(prefix, it)) else [];
    var rest := Placements(items[1..], pdir, prefix);
    assert Placements(items, pdir, prefix) == here + rest;
    if j == 0 {
      assert items[..0] == [];
    } else {
      PlacedAfter(items[1..], pdir, prefix, j - 1);
      assert items[..j][0] == it && items[..j][1..] == items[1..][..j - 1];
      assert Placements(items[..j], pdir, prefix) == here + Placements(items[1..][..j - 1], pdir, prefix);
      assert items[1..][j - 1] == items[j];
    }
  }

  /** The placements that follow a placed folder are those of its contents,
      placed in that folder at its path: the index is written in pre-order,
      and each folder's path extends the path of the folder that lists it. */
  lemma {:induction false} PlacedInside(items: seq<DirItem>, pdir: string, prefix: string, i: nat)
    requires i < |Placements(items, pdir, prefix)|
    ensures ContentsFollow(Placements(items, pdir, prefix), i)
    decreases items, 1
  {
    var ps := Placements(items, pdir, prefix);
    var it := items[0];
    var rest := Placements(items[1..], pdir, prefix);
    if IsFolder(it) {
      var top := Placement(it, pdir, prefix);
      var inner := Placements(it.contents, FolderId(it), ChildPath(prefix, it));
      assert ps == [top] + inner + rest;
      if i == 0 {
        HereTop(top, inner, rest, ps);
      } else if i <= |inner| {
        PlacedInside(it.contents, FolderId(it), ChildPath(prefix, it), i - 1);
        HereInner(top, inner, rest, ps, i);
      } else {
        InRest([top] + inner, rest, ps, i, items[1..], pdir, prefix);
      }
    } else {
      assert ps == [] + rest;
      InRest([], rest, ps, i, items[1..], pdir, prefix);
    }
  }

  /** A placement heads the placements of its folder's contents. */
  lemma HereTop(top: Placement, inner: seq<Placement>, rest: seq<Placement>, ps: seq<Placement>)
    requires inner == Placements(top.folder.contents, FolderId(top.folder), ChildPath(top.parentPath, top.folder))
    requires ps == [top] + inner + rest
    ensures ContentsFollow(ps, 0)
  {
    assert ps[0] == top;
    SliceLeft([top] + inner, rest, 1, 1 + |inner|);
    SliceRight([top], inner, 1, 1 + |inner|);
  }

  /** `ContentsFollow` at a placement of a folder's contents, moved one place
      on, past the folder's own placement. */
  lemma HereInner(top: Placement, inner: seq<Placement>, rest: seq<Placement>, ps: seq<Placement>, i: nat)
    requires ps == [top] + inner + rest
    requires 0 < i && ContentsFollow(inner, i - 1)
    ensures ContentsFollow(ps, i)
  {
    assert ps[i] == inner[i - 1];
    var m := |Placements(inner[i - 1].folder.contents, FolderId(inner[i - 1].folder),
                         ChildPath(inner[i - 1].parentPath, inner[i - 1].folder))|;
    SliceLeft([top] + inner, rest, i + 1, i + 1 + m);
    SliceRight([top], inner, i + 1, i + 1 + m);
  }

  /** The step of `PlacedInside` for a placement among those of the later items. */
  lemma {:induction false} InRest(here: seq<Placement>, rest: seq<Placement>, ps: seq<Placement>, i: nat,
                                  items: seq<DirItem>, pdir: string, prefix: string)
    requires rest == Placements(items, pdir, prefix) && ps == here + rest && |here| <= i < |ps|
    ensures ContentsFollow(ps, i)
    decreases items, 2
  {
    var k := i - |here|;
    PlacedInside(items, pdir, prefix, k);
    RestShift(here, rest, ps, k);
  }

  /** `ContentsFollow` at the `k`th placement of the later items, moved past
      the placements of the earlier ones. */
  lemma RestShift(here: seq<Placement>, rest: seq<Placement>, ps: seq<Placement>, k: nat)
    requires ps == here + rest
    requires ContentsFollow(rest, k)
    ensures ContentsFollow(ps, |here| + k)
  {
    var i := |here| + k;
    assert ps[i] == rest[k];
    var m := |Placements(rest[k].folder.contents, FolderId(rest[k].folder), ChildPath(rest[k].parentPath, rest[k].folder))|;
    SliceRight(here, rest, i + 1, i + 1 + m);
  }

  /** The first step of a walk that does not fail on its first segment: the
      folder it enters is indexed, carries that segment's name, and the walk
      goes on from its listing under its id. */
  lemma WalkStep(listing: seq<DirItem>, fid: string, parts: seq<string>) returns (top: DirItem)
    requires |parts| > 0 && Walk(listing, fid, parts).Some?
    ensures top in Folders(listing) && top.fileName == Some(parts[0])
    ensures Walk(listing, fid, parts) == Walk(top.contents, FolderId(top), parts[1..])
  {
    var dirs := UserDirs(listing, fid, "");
    var k := FirstNamed(dirs, parts[0]);
    assert k < |dirs| && RecordsOf(dirs, Folders(listing));
    top := Folders(listing)[k];
    assert dirs[k].name == Some(parts[0]) && dirs[k].name == top.fileName && dirs[k].fid == FolderId(top);
  }

  /** The folder a successful segment walk ends on. */
  lemma {:induction false} WalkEnd(listing: seq<DirItem>, fid: string, parts: seq<string>, id: string)
    returns (n: DirItem)
    requires |parts| > 0 && Walk(listing, fid, parts) == Some(id)
    ensures n in Folders(listing) && FolderId(n) == id && n.fileName == Some(parts[|parts| - 1])
    decreases |parts|
  {
    var top := WalkStep(listing, fid, parts);
    var rest := parts[1..];
    if |rest| == 0 {
      n := top;
    } else {
      n := WalkEnd(top.contents, FolderId(top), rest, id);
      assert rest[|rest| - 1] == parts[|parts| - 1];
      FoldersNested(listing, top);
    }
  }

  /** A segment walk that succeeds ends on an indexed folder carrying the
      last segment's name. */
  lemma WalkSound(listing: seq<DirItem>, fid: string, parts: seq<string>, id: string)
    requires |parts| > 0 && Walk(listing, fid, parts) == Some(id)
    ensures exists n :: n in Folders(listing) && FolderId(n) == id && n.fileName == Some(parts[|parts| - 1])
  {
    var n := WalkEnd(listing, fid, parts, id);
  }

  /** A walk fails as soon as some segment names no folder of the listing. */
  lemma {:induction false} WalkUnknown(listing: seq<DirItem>, fid: string, parts: seq<string>, i: nat)
    requires i < |parts|
    requires forall n :: n in Folders(listing) ==> n.fileName != Some(parts[i])
    ensures Walk(listing, fid, parts) == None
    decreases |parts|
  {
    var dirs := UserDirs(listing, fid, "");
    var k := FirstNamed(dirs, parts[0]);
    if k < |dirs| {
      var n := Folders(listing)[k];
      assert i > 0;
      FoldersNested(listing, n);
      WalkUnknown(n.contents, dirs[k].fid, parts[1..], i - 1);
    }
  }

  /** A path with no segments is the root; a path that resolves to an id
      resolves to a folder of the index under the last segment's name. */
  lemma ResolveSound(root: seq<DirItem>, path: string, id: string)
    requires GetDirByPath(root, path) == Some(id)
    ensures Segments(path) == [] ==> id == "0"
    ensures Segments(path) != [] ==>
      exists d :: d in UserDirs(root, "0", "") && d.fid == id &&
        d.name == Some(Segments(path)[|Segments(path)| - 1])
  {
    var parts := Segments(path);
    if parts != [] {
      RootPathsEmpty();
      assert path != "" && path != "/";
      var n := WalkEnd(root, "0", parts, id);
      var j :| 0 <= j < |Folders(root)| && Folders(root)[j] == n;
      var dirs := UserDirs(root, "0", "");
      assert dirs[j] in dirs && dirs[j].fid == id && dirs[j].name == Some(parts[|parts| - 1]);
    }
  }

  /** A name no folder of the drive carries makes the lookup fail, wherever in
      the path it stands. */
  lemma ResolveUnknown(root: seq<DirItem>, path: string, i: nat)
    requires i < |Segments(path)|
    requires forall n :: n in Folders(root) ==> n.fileName != Some(Segments(path)[i])
    ensures GetDirByPath(root, path) == None
  {
    RootPathsEmpty();
    WalkUnknown(root, "0", Segments(path), i);
  }

  /** A folder with no listing of its own, named `name`. */
  function Folder(id: string, name: string, contents: seq<DirItem>): DirItem {
    DirItem(Some("folder"), true, Some(id), None, Some(name), contents)
  }

  /** `/name` has the one segment `name`. */
  lemma SingleSegment(name: string)
    requires name != "" && '/' !in name
    ensures Segments("/" + name) == [name]
    ensures "/" + name != "" && "/" + name != "/"
  {
    var pieces := ["", name];
    assert Split("/" + name, '/') == pieces by {
      SplitJoin(pieces, '/');
      assert Join(pieces, '/') == "/" + name;
    }
    assert pieces[1..] == [name] && pieces[1..][1..] == [];
    var keep := (p: string) => p != "";
    assert Filter(pieces[1..], keep) == [name];
    assert Filter(pieces, keep) == [name];
  }

  /** A one-segment walk ends on the first indexed folder carrying that
      segment's name. */
  lemma FoundAt(listing: seq<DirItem>, fid: string, name: string, k: nat)
    requires k < |Folders(listing)| && Folders(listing)[k].fileName == Some(name)
    requires forall j :: 0 <= j < k ==> Folders(listing)[j].fileName != Some(name)
    ensures Walk(listing, fid, [name]) == Some(FolderId(Folders(listing)[k]))
  {
    var dirs := UserDirs(listing, fid, "");
    assert RecordsOf(dirs, Folders(listing));
    var f := FirstNamed(dirs, name);
    assert dirs[k].name == Some(name);
    assert forall j :: 0 <= j < k ==> dirs[j].name != Some(name);
    assert f == k;
    assert [name][1..] == [];
  }

  /** `/b` finds `b` even though it sits inside `a`: each segment is looked
      up among all folders below, not only the direct children. */
  lemma NestedFound()
    ensures GetDirByPath([Folder("A", "a", [Folder("B", "b", [])])], "/b") == Some("B")
  {
    var b := Folder("B", "b", []);
    var a := Folder("A", "a", [b]);
    var root := [a];
    SingleSegment("b");
    assert Folders([b]) == [b];
    assert Folders(root) == [a, b];
    FoundAt(root, "0", "b", 1);
  }

  /** A walk whose first segment names an indexed folder goes on from the
      first such folder, in its listing and under its id. */
  lemma WalkHit(listing: seq<DirItem>, fid: string, parts: seq<string>, k: nat)
    requires |parts| > 0 && k < |Folders(listing)| && Folders(listing)[k].fileName == Some(parts[0])
    requires forall j :: 0 <= j < k ==> Folders(listing)[j].fileName != Some(parts[0])
    ensures Walk(listing, fid, parts) == Walk(Folders(listing)[k].contents, FolderId(Folders(listing)[k]), parts[1..])
  {
    var dirs := UserDirs(listing, fid, "");
    assert RecordsOf(dirs, Folders(listing));
    assert dirs[k].name == Some(parts[0]);
    assert forall j :: 0 <= j < k ==> dirs[j].name != Some(parts[0]);
    assert FirstNamed(dirs, parts[0]) == k;
  }

  /** `/x/y` has the two segments `x` and `y`. */
  lemma TwoSegments(x: string, y: string)
    requires x != "" && '/' !in x && y != "" && '/' !in y
    ensures Segments("/" + x + "/" + y) == [x, y]
    ensures "/" + x + "/" + y != "" && "/" + x + "/" + y != "/"
  {
    var path := "/" + x + "/" + y;
    SplitTwo(x, y);
    DropEmptyHead(x, y);
    assert |path| > 1;
  }

  /** Splitting `/x/y` at `/` gives an empty piece, then `x`, then `y`. */
  lemma SplitTwo(x: string, y: string)
    requires '/' !in x && '/' !in y
    ensures Split("/" + x + "/" + y, '/') == ["", x, y]
  {
    var pieces := ["", x, y];
    assert Join(pieces[1..], '/') == x + "/" + y;
    assert Join(pieces, '/') == "/" + x + "/" + y;
    SplitJoin(pieces, '/');
  }

  /** Dropping the empty pieces of `["", x, y]` leaves `[x, y]`. */
  lemma DropEmptyHead(x: string, y: string)
    requires x != "" && y != ""
    ensures Filter(["", x, y], (p: string) => p != "") == [x, y]
  {
    var keep := (p: string) => p != "";
    var pieces := ["", x, y];
    assert pieces[1..] == [x, y] && pieces[1..][1..] == [y] && pieces[1..][1..][1..] == [];
    assert Filter(pieces[1..][1..], keep) == [y];
    assert Filter(pieces[1..], keep) == [x, y];
  }

  /** `/a/b` on a drive holding `a` with `b` inside finds `b`. */
  lemma DeepFound(ia: string, a: string, ib: string, b: string)
    requires a != "" && '/' !in a && b != "" && '/' !in b
    ensures GetDirByPath([Folder(ia, a, [Folder(ib, b, [])])], "/" + a + "/" + b) == Some(ib)
  {
    var fb := Folder(ib, b, []);
    var fa := Folder(ia, a, [fb]);
    TwoSegments(a, b);
    assert Folders([fb]) == [fb];
    assert Folders([fa]) == [fa, fb];
    WalkHit([fa], "0", [a, b], 0);
    assert [a, b][1..] == [b];
    FoundAt([fb], ia, b, 0);
  }

  /** `/b/x` fails when `x` sits in `a` and `b` is empty: after the first
      segment the walk looks only below the folder it entered. */
  lemma SiblingMissed(ia: string, a: string, ix: string, x: string, ib: string, b: string)
    requires b != "" && '/' !in b && x != "" && '/' !in x && b != a && b != x
    ensures GetDirByPath([Folder(ia, a, [Folder(ix, x, [])]), Folder(ib, b, [])], "/" + b + "/" + x) == None
  {
    var fx := Folder(ix, x, []);
    var fa := Folder(ia, a, [fx]);
    var fb := Folder(ib, b, []);
    TwoSegments(b, x);
    assert Folders([fx]) == [fx];
    assert Folders([fb]) == [fb];
    assert Folders([fa, fb]) == [fa, fx, fb];
    WalkHit([fa, fb], "0", [b, x], 2);
    assert [b, x][1..] == [x];
    WalkUnknown([], ib, [x], 0);
  }

  /** The index of a drive holding `a` with `b` inside: `b`'s path extends
      `a`'s, and `a` is its parent. */
  lemma NestedPaths(ia: string, a: string, ib: string, b: string)
    ensures UserDirs([Folder(ia, a, [Folder(ib, b, [])])], "0", "")
      == [DirRecord(ia, Some(a), "/" + a, "0"), DirRecord(ib, Some(b), "/" + a + "/" + b, ia)]
  {
    var fb := Folder(ib, b, []);
    var fa := Folder(ia, a, [fb]);
    assert FolderId(fa) == ia && FolderId(fb) == ib;
    assert ChildPath("", fa) == "/" + a;
    assert UserDirs([fb], ia, "/" + a) == [DirRecord(ib, Some(b), "/" + a + "/" + b, ia)];
    assert UserDirs([fa], "0", "") == [DirRecord(ia, Some(a), "/" + a, "0")] + UserDirs([fb], ia, "/" + a);
  }
}
