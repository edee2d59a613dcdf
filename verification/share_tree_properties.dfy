/** How the flat walk and the tree walk of a share relate, and when they fail. */
module ShareTreeProperties {
  import opened Wrappers
  import opened Records
  import opened ShareTree

  lemma {:induction false} LeavesAppend(a: seq<Tree>, b: seq<Tree>)
    ensures Leaves(a + b) == Leaves(a) + Leaves(b)
    decreases |a|
  {
    if |a| > 0 {
      assert (a + b)[0] == a[0];
      assert (a + b)[1..] == a[1..] + b;
      LeavesAppend(a[1..], b);
    } else {
      assert a + b == b;
    }
  }

  lemma SummariesAppend(a: seq<FileRecord>, b: seq<FileRecord>)
    ensures Summaries(a + b) == Summaries(a) + Summaries(b)
  {
    assert forall k :: 0 <= k < |a + b| ==> (a + b)[k] == if k < |a| then a[k] else b[k - |a|];
  }

  /** Within the depth limit the two walks agree on the files: when the flat
      walk succeeds the tree walk does too, and the files of the flat list, by
      id, name and size, are the file nodes of the tree in pre-order. When no
      entry the flat walk reads has an unreadable `play_lua`, the two fail
      together. */
  lemma {:induction false} FlattenMatchesTree(l: Listing, pdir: string, depth: int, maxDepth: int)
    requires maxDepth == -1 || depth <= maxDepth
    ensures Flatten(l, pdir, depth, maxDepth).Ok? ==>
      FolderTree(l, pdir, depth, maxDepth).Ok? && FolderTree(l, pdir, depth, maxDepth).value.Some? &&
      Summaries(Flatten(l, pdir, depth, maxDepth).value) == Leaves([FolderTree(l, pdir, depth, maxDepth).value.value])
    ensures !Meets(l, depth, maxDepth, false, true) ==>
      (Flatten(l, pdir, depth, maxDepth).Ok? <==> FolderTree(l, pdir, depth, maxDepth).Ok?)
    decreases l, 1
  {
    if l.Listed? {
      FlattenFromMatchesTreeFrom(l, pdir, 0, depth, maxDepth);
      var t := FolderTree(l, pdir, depth, maxDepth);
      if t.Ok? {
        assert [t.value.value][1..] == [];
      }
    }
  }

  lemma {:induction false} FlattenFromMatchesTreeFrom(l: Listing, pdir: string, i: nat, depth: int, maxDepth: int)
    requires l.Listed? && i <= |l.entries|
    requires maxDepth == -1 || depth <= maxDepth
    ensures FlattenFrom(l, pdir, i, depth, maxDepth).Ok? ==>
      TreeFrom(l, i, depth, maxDepth).Ok? &&
      Summaries(FlattenFrom(l, pdir, i, depth, maxDepth).value) == Leaves(TreeFrom(l, i, depth, maxDepth).value)
    ensures !MeetsFrom(l, i, depth, maxDepth, false, true) ==>
      (FlattenFrom(l, pdir, i, depth, maxDepth).Ok? <==> TreeFrom(l, i, depth, maxDepth).Ok?)
    decreases l, 0, |l.entries| - i
  {
    if i < |l.entries| {
      var e := l.entries[i];
      FlattenFromMatchesTreeFrom(l, pdir, i + 1, depth, maxDepth);
      var flat := FlattenFrom(l, pdir, i + 1, depth, maxDepth);
      var tree := TreeFrom(l, i + 1, depth, maxDepth);
      if !PlayReadable(e) {
      } else if IsFile(e) {
        if flat.Ok? {
          var node := FileNode(EntryId(e), EntryName(e), e.size);
          SummariesAppend([Convert(e, pdir)], flat.value);
          LeavesAppend([node], tree.value);
          assert Leaves([node]) == [Leaf(EntryId(e), EntryName(e), e.size)];
        }
      } else if Descend(depth, maxDepth) {
        FlattenMatchesTree(e.contents, EntryId(e), depth + 1, maxDepth);
        var sub := Flatten(e.contents, EntryId(e), depth + 1, maxDepth);
        var subTree := FolderTree(e.contents, EntryId(e), depth + 1, maxDepth);
        if sub.Ok? && flat.Ok? {
          SummariesAppend(sub.value, flat.value);
          LeavesAppend([subTree.value.value], tree.value);
        }
      } else {
        assert FolderTree(e.contents, EntryId(e), depth + 1, maxDepth) == Ok(None);
        if flat.Ok? {
          assert [] + flat.value == flat.value;
          assert [] + tree.value == tree.value;
        }
      }
    }
  }

  /** The flat walk fails exactly when a listing it requests fails or an
      entry it reads has an unreadable `play_lua`. */
  lemma {:induction false} FlattenFailsIff(l: Listing, pdir: string, depth: int, maxDepth: int)
    ensures Flatten(l, pdir, depth, maxDepth).Err? <==> Meets(l, depth, maxDepth, true, true)
    decreases l, 1
  {
    if l.Listed? {
      FlattenFromFailsIff(l, pdir, 0, depth, maxDepth);
    }
  }

  lemma {:induction false} FlattenFromFailsIff(l: Listing, pdir: string, i: nat, depth: int, maxDepth: int)
    requires l.Listed? && i <= |l.entries|
    ensures FlattenFrom(l, pdir, i, depth, maxDepth).Err? <==> MeetsFrom(l, i, depth, maxDepth, true, true)
    decreases l, 0, |l.entries| - i
  {
    if i < |l.entries| {
      var e := l.entries[i];
      FlattenFromFailsIff(l, pdir, i + 1, depth, maxDepth);
      if PlayReadable(e) && !IsFile(e) && Descend(depth, maxDepth) {
        FlattenFailsIff(e.contents, EntryId(e), depth + 1, maxDepth);
      }
    }
  }

  /** The tree walk, within the depth limit, fails exactly when a listing it
      requests fails; it never reads `play_lua`. */
  lemma {:induction false} TreeFailsIff(l: Listing, pdir: string, depth: int, maxDepth: int)
    requires maxDepth == -1 || depth <= maxDepth
    ensures FolderTree(l, pdir, depth, maxDepth).Err? <==> Meets(l, depth, maxDepth, true, false)
    decreases l, 1
  {
    if l.Listed? {
      TreeFromFailsIff(l, 0, depth, maxDepth);
    }
  }

  lemma {:induction false} TreeFromFailsIff(l: Listing, i: nat, depth: int, maxDepth: int)
    requires l.Listed? && i <= |l.entries|
    requires maxDepth == -1 || depth <= maxDepth
    ensures TreeFrom(l, i, depth, maxDepth).Err? <==> MeetsFrom(l, i, depth, maxDepth, true, false)
    decreases l, 0, |l.entries| - i
  {
    if i < |l.entries| {
      var e := l.entries[i];
      TreeFromFailsIff(l, i + 1, depth, maxDepth);
      if !IsFile(e) && Descend(depth, maxDepth) {
        TreeFailsIff(e.contents, EntryId(e), depth + 1, maxDepth);
      }
    }
  }

  /** A walk sensitive to both kinds of mishap meets one exactly when it meets
      a failed listing or an unreadable `play_lua`: the flat walk fails exactly
      when the tree walk does or an unreadable `play_lua` is read. */
  lemma {:induction false} MeetsEither(l: Listing, depth: int, maxDepth: int)
    ensures Meets(l, depth, maxDepth, true, true) <==>
      Meets(l, depth, maxDepth, true, false) || Meets(l, depth, maxDepth, false, true)
    decreases l, 1
  {
    if l.Listed? {
      MeetsFromEither(l, 0, depth, maxDepth);
    }
  }

  lemma {:induction false} MeetsFromEither(l: Listing, i: nat, depth: int, maxDepth: int)
    requires l.Listed? && i <= |l.entries|
    ensures MeetsFrom(l, i, depth, maxDepth, true, true) <==>
      MeetsFrom(l, i, depth, maxDepth, true, false) || MeetsFrom(l, i, depth, maxDepth, false, true)
    decreases l, 0, |l.entries| - i
  {
    if i < |l.entries| {
      MeetsFromEither(l, i + 1, depth, maxDepth);
      MeetsEither(l.entries[i].contents, depth + 1, maxDepth);
    }
  }

  /** At the depth limit the flat walk lists this folder's own files only: no
      folder below is requested, so only an unreadable `play_lua` among this
      folder's entries can make it fail, and the first one does. */
  lemma ShallowFlatten(l: Listing, pdir: string, depth: int, maxDepth: int)
    requires l.Listed? && !Descend(depth, maxDepth)
    ensures Flatten(l, pdir, depth, maxDepth) ==
      match PlayFailure(l.entries)
      case None => Ok(FilesHere(l.entries, pdir))
      case Some(m) => Err(FlattenError + m)
  {
    ShallowFrom(l, pdir, 0, depth, maxDepth);
    assert l.entries[0..] == l.entries;
  }

  lemma {:induction false} ShallowFrom(l: Listing, pdir: string, i: nat, depth: int, maxDepth: int)
    requires l.Listed? && i <= |l.entries| && !Descend(depth, maxDepth)
    ensures FlattenFrom(l, pdir, i, depth, maxDepth) ==
      match PlayFailure(l.entries[i..])
      case None => Ok(FilesHere(l.entries[i..], pdir))
      case Some(m) => Err(m)
    decreases |l.entries| - i
  {
    if i < |l.entries| {
      ShallowFrom(l, pdir, i + 1, depth, maxDepth);
      assert l.entries[i..][1..] == l.entries[i + 1..];
    }
  }

  /** At the depth limit the tree walk succeeds with a folder whose file nodes
      are this folder's own files. */
  lemma ShallowTree(l: Listing, pdir: string, depth: int, maxDepth: int)
    requires l.Listed? && maxDepth != -1 && depth == maxDepth
    ensures FolderTree(l, pdir, depth, maxDepth).Ok? && FolderTree(l, pdir, depth, maxDepth).value.Some?
    ensures Leaves([FolderTree(l, pdir, depth, maxDepth).value.value]) == Summaries(FilesHere(l.entries, pdir))
  {
    ShallowTreeFrom(l, pdir, 0, depth, maxDepth);
    assert l.entries[0..] == l.entries;
    var t := FolderTree(l, pdir, depth, maxDepth).value.value;
    assert [t][1..] == [];
  }

  lemma {:induction false} ShallowTreeFrom(l: Listing, pdir: string, i: nat, depth: int, maxDepth: int)
    requires l.Listed? && i <= |l.entries| && maxDepth != -1 && depth == maxDepth
    ensures TreeFrom(l, i, depth, maxDepth).Ok?
    ensures Leaves(TreeFrom(l, i, depth, maxDepth).value) == Summaries(FilesHere(l.entries[i..], pdir))
    decreases |l.entries| - i
  {
    if i < |l.entries| {
      var e := l.entries[i];
      ShallowTreeFrom(l, pdir, i + 1, depth, maxDepth);
      assert l.entries[i..][1..] == l.entries[i + 1..];
      var tree := TreeFrom(l, i + 1, depth, maxDepth).value;
      var files := FilesHere(l.entries[i + 1..], pdir);
      if IsFile(e) {
        var node := FileNode(EntryId(e), EntryName(e), e.size);
        LeavesAppend([node], tree);
        SummariesAppend([Convert(e, pdir)], files);
        assert Leaves([node]) == [Leaf(EntryId(e), EntryName(e), e.size)];
      } else {
        assert FolderTree(e.contents, EntryId(e), depth + 1, maxDepth) == Ok(None);
        assert [] + tree == tree;
        assert [] + files == files;
      }
    }
  }

  /** `max_depth = 0` at the top: the flat walk gives the files listed in the
      root, in order, unless one of the root's entries has an unreadable
      `play_lua`; the tree walk holds the same files either way. */
  lemma RootOnly(l: Listing, pdir: string)
    requires l.Listed?
    ensures Flatten(l, pdir, 0, 0) ==
      match PlayFailure(l.entries)
      case None => Ok(FilesHere(l.entries, pdir))
      case Some(m) => Err(FlattenError + m)
    ensures FolderTree(l, pdir, 0, 0).Ok? && FolderTree(l, pdir, 0, 0).value.Some? &&
      Leaves([FolderTree(l, pdir, 0, 0).value.value]) == Summaries(FilesHere(l.entries, pdir))
  {
    ShallowFlatten(l, pdir, 0, 0);
    ShallowTree(l, pdir, 0, 0);
  }

  /** A file whose `play_lua` is a value without `get` (`null` decodes to
      `NoneType`) makes the flat walk fail while the tree walk succeeds. */
  lemma UnreadablePlay(e: Entry, pdir: string, typeName: string)
    requires IsFile(e) && e.play == PlayOther(typeName)
    ensures Flatten(Listed([e]), pdir, 0, -1) == Err(FlattenError + PlayError(typeName))
    ensures FolderTree(Listed([e]), pdir, 0, -1).Ok?
  {
    var l := Listed([e]);
    assert FlattenFrom(l, pdir, 0, 0, -1) == Err(PlayError(typeName));
    assert TreeFrom(l, 1, 0, -1) == Ok([]);
    assert TreeFrom(l, 0, 0, -1).Ok?;
  }

  lemma SiteRecordsAppend(a: seq<Site>, b: seq<Site>)
    ensures SiteRecords(a + b) == SiteRecords(a) + SiteRecords(b)
  {
    assert forall k :: 0 <= k < |a + b| ==> (a + b)[k] == if k < |a| then a[k] else b[k - |a|];
  }

  /** A flat walk that succeeds lists the record of every file it meets, in
      pre-order, each built from its entry under the id of the folder whose
      listing held it: `pdir_fid` is the listed folder at every depth, and
      size and `share_fid_token` are the entry's. */
  lemma {:induction false} FlattenSites(l: Listing, pdir: string, depth: int, maxDepth: int)
    ensures Flatten(l, pdir, depth, maxDepth).Ok? ==>
      Flatten(l, pdir, depth, maxDepth).value == SiteRecords(Sites(l, pdir, depth, maxDepth))
    decreases l, 1
  {
    if l.Listed? {
      FlattenFromSites(l, pdir, 0, depth, maxDepth);
    }
  }

  lemma {:induction false} FlattenFromSites(l: Listing, pdir: string, i: nat, depth: int, maxDepth: int)
    requires l.Listed? && i <= |l.entries|
    ensures FlattenFrom(l, pdir, i, depth, maxDepth).Ok? ==>
      FlattenFrom(l, pdir, i, depth, maxDepth).value == SiteRecords(SitesFrom(l, pdir, i, depth, maxDepth))
    decreases l, 0, |l.entries| - i
  {
    if i < |l.entries| {
      var e := l.entries[i];
      FlattenFromSites(l, pdir, i + 1, depth, maxDepth);
      var rest := SitesFrom(l, pdir, i + 1, depth, maxDepth);
      if !PlayReadable(e) {
      } else if IsFile(e) {
        SiteRecordsAppend([Site(e, pdir)], rest);
      } else if Descend(depth, maxDepth) {
        FlattenSites(e.contents, EntryId(e), depth + 1, maxDepth);
        SiteRecordsAppend(Sites(e.contents, EntryId(e), depth + 1, maxDepth), rest);
      } else {
        assert [] + rest == rest;
      }
    }
  }

  /** `s` is met at the entry `k` of `l`: the entry is a file listed in the
      folder `pdir`, or a folder the walk enters and `s` is met below it. */
  predicate SiteAt(l: Listing, pdir: string, k: nat, depth: int, maxDepth: int, s: Site)
    requires l.Listed?
  {
    k < |l.entries| &&
    ((IsFile(l.entries[k]) && s == Site(l.entries[k], pdir)) ||
     (!IsFile(l.entries[k]) && Descend(depth, maxDepth) &&
      s in Sites(l.entries[k].contents, EntryId(l.entries[k]), depth + 1, maxDepth)))
  }

  /** The files a walk meets are exactly those listed in the folder itself,
      under its id, and those met below the folders it enters, under theirs. */
  lemma SitesMembers(l: Listing, pdir: string, depth: int, maxDepth: int, s: Site)
    requires l.Listed?
    ensures s in Sites(l, pdir, depth, maxDepth) <==> exists k :: 0 <= k && SiteAt(l, pdir, k, depth, maxDepth, s)
  {
    SitesFromMembers(l, pdir, 0, depth, maxDepth, s);
  }

  lemma {:induction false} SitesFromMembers(l: Listing, pdir: string, i: nat, depth: int, maxDepth: int, s: Site)
    requires l.Listed? && i <= |l.entries|
    ensures s in SitesFrom(l, pdir, i, depth, maxDepth) <==> exists k :: i <= k && SiteAt(l, pdir, k, depth, maxDepth, s)
    decreases |l.entries| - i
  {
    if i < |l.entries| {
      SitesFromMembers(l, pdir, i + 1, depth, maxDepth, s);
      if s in SitesFrom(l, pdir, i, depth, maxDepth) && !SiteAt(l, pdir, i, depth, maxDepth, s) {
        assert s in SitesFrom(l, pdir, i + 1, depth, maxDepth);
      }
      if k :| i <= k && SiteAt(l, pdir, k, depth, maxDepth, s) {
        if k == i {
          assert s in SitesFrom(l, pdir, i, depth, maxDepth);
        } else {
          assert s in SitesFrom(l, pdir, i + 1, depth, maxDepth);
        }
      }
    }
  }

  /** A file inside a folder at the top of the share is recorded with that
      folder's id as `pdir_fid` and with its own size and `share_fid_token`. */
  lemma NestedRecord(f: Entry, x: Entry, pdir: string)
    requires !IsFile(f) && PlayReadable(f) && f.contents == Listed([x])
    requires IsFile(x) && PlayReadable(x)
    ensures Flatten(Listed([f]), pdir, 0, -1) ==
      Ok([FileRecord(EntryId(x), EntryName(x), x.size, EntryId(f), x.shareFidToken)])
  {
    var id := EntryId(f);
    assert FlattenFrom(f.contents, id, 1, 1, -1) == Ok([]);
    assert [Convert(x, id)] + [] == [Convert(x, id)];
    assert FlattenFrom(f.contents, id, 0, 1, -1) == Ok([Convert(x, id)]);
    assert Flatten(f.contents, id, 1, -1) == Ok([Convert(x, id)]);
    assert FlattenFrom(Listed([f]), pdir, 1, 0, -1) == Ok([]);
    assert FlattenFrom(Listed([f]), pdir, 0, 0, -1) == Ok([Convert(x, id)] + []);
  }
}
