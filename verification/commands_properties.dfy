/** What `cmd_save` makes of a selection: fid lists read back as written,
    digit-only fids are positions, and each fid gets the token of the last
    record listing it. */
module CommandsProperties {
  import opened Wrappers
  import opened Text
  import opened Records
  import opened Seqs
  import opened Selection
  import opened SelectionProperties
  import opened Commands

  /** A join of non-empty fields starts with the first field's first character
      and ends with the last field's last character. */
  lemma {:induction false} JoinEnds(parts: seq<string>, sep: char)
    requires |parts| > 0 && forall i :: 0 <= i < |parts| ==> parts[i] != ""
    ensures |Join(parts, sep)| > 0
    ensures Join(parts, sep)[0] == parts[0][0]
    ensures Join(parts, sep)[|Join(parts, sep)| - 1] == parts[|parts| - 1][|parts[|parts| - 1]| - 1]
    decreases |parts|
  {
    if |parts| > 1 {
      var rest := parts[1..];
      JoinEnds(rest, sep);
      assert Join(parts, sep) == parts[0] + [sep] + Join(rest, sep);
    }
  }

  /** Splitting a join of trimmed, non-empty, comma-free fids at the commas
      and trimming gives the fids back; the join itself is trimmed. */
  lemma ListedFidsOfJoin(fids: seq<string>)
    requires |fids| > 0
    requires forall i :: 0 <= i < |fids| ==> fids[i] != "" && ',' !in fids[i] && Trimmed(fids[i])
    ensures ListedFids(Join(fids, ',')) == fids
    ensures Strip(Join(fids, ',')) == Join(fids, ',')
  {
    JoinTrimmed(fids);
    SplitJoin(fids, ',');
    forall i | 0 <= i < |fids|
      ensures Strip(fids[i]) == fids[i]
    {
      StripUntrimmed(fids[i]);
    }
    assert StripEach(fids) == fids;
    FilterKeepsEvery(fids, (f: string) => f != "");
  }

  /** A join of trimmed, non-empty fids has no whitespace at either end. */
  lemma JoinEndsTrimmed(fids: seq<string>)
    requires |fids| > 0
    requires forall i :: 0 <= i < |fids| ==> fids[i] != "" && Trimmed(fids[i])
    ensures Trimmed(Join(fids, ',')) && Join(fids, ',') != ""
  {
    var first, last := fids[0], fids[|fids| - 1];
    assert Trimmed(first) && Trimmed(last);
    JoinEnds(fids, ',');
  }

  /** A join of trimmed, non-empty fids is itself trimmed. */
  lemma JoinTrimmed(fids: seq<string>)
    requires |fids| > 0
    requires forall i :: 0 <= i < |fids| ==> fids[i] != "" && Trimmed(fids[i])
    ensures Strip(Join(fids, ',')) == Join(fids, ',')
  {
    var s := Join(fids, ',');
    JoinEndsTrimmed(fids);
    assert Trimmed(s);
    StripUntrimmed(s);
  }

  /** A trimmed selection that is not a position list is read as fids. */
  lemma FidBranch(sel: string, files: seq<FileRecord>)
    requires Strip(sel) == sel && !IsIndexSelection(sel)
    ensures SelectedFids(sel, files) == ListedFids(sel)
  {
  }

  /** Fids written with commas between them are read back one by one, in
      order and with repeats, as long as the whole is not a position list. */
  lemma FidListRoundTrip(fids: seq<string>, files: seq<FileRecord>)
    requires |fids| > 0
    requires forall i :: 0 <= i < |fids| ==> fids[i] != "" && ',' !in fids[i] && Trimmed(fids[i])
    requires !IsIndexSelection(Join(fids, ','))
    ensures SelectedFids(Join(fids, ','), files) == fids
  {
    var s := Join(fids, ',');
    ListedFidsOfJoin(fids);
    FidBranch(s, files);
  }

  /** Erasing characters a string does not hold leaves it as it is. */
  lemma {:induction false} EraseAbsent(s: string, drop: set<char>)
    requires forall i :: 0 <= i < |s| ==> s[i] !in drop
    ensures Erase(s, drop) == s
    decreases |s|
  {
    if |s| > 0 {
      EraseAbsent(s[1..], drop);
    }
  }

  /** A digit string, stripped, is itself and names its value. */
  lemma DigitsToken(d: string)
    requires AllDigits(d)
    ensures TokenPositions(d) == [DigitsValue(d)]
  {
    assert !IsSpace(d[0]) && !IsSpace(d[|d| - 1]);
    StripUntrimmed(d);
  }

  /** A digit string holds no comma, so splitting it at commas keeps it whole
      and the list case reads the one position it spells. */
  lemma DigitsListPositions(d: string)
    requires AllDigits(d)
    ensures ListPositions(Split(d, ',')) == [DigitsValue(d)]
  {
    assert ',' !in d;
    var tokens := Split(d, ',');
    assert tokens == [d];
    DigitsToken(d);
    assert ListPositions(tokens) == TokenPositions(tokens[0]) + ListPositions(tokens[1..]);
  }

  /** A digit string is neither `all` nor a whole-string range. */
  lemma DigitsNotAllNotRange(d: string)
    requires AllDigits(d)
    ensures Lower(d) != "all" && RangeMatch(d).None?
  {
    assert '-' !in d;
    DigitFirstNotAll(d);
  }

  /** A digit string falls into the list case with the one position it spells. */
  lemma DigitsClassify(d: string)
    requires AllDigits(d)
    ensures Classify(d) == Positions([DigitsValue(d)])
  {
    DigitsNotAllNotRange(d);
    ClassifyAsPositions(d);
    DigitsListPositions(d);
  }

  /** A digit string selects the file at the position it spells. */
  lemma DigitsResolve(d: string, files: seq<FileRecord>)
    requires AllDigits(d)
    ensures Resolve(d, files) == Pick([DigitsValue(d)], files)
  {
    DigitsClassify(d);
    var ps := [DigitsValue(d)];
    DedupKeepsDistinct(ps);
    ResolvePositions(d, ps, files);
  }

  /** A digit string is stripped already and reads as a position list. */
  lemma DigitsAreIndex(d: string)
    requires AllDigits(d)
    ensures Strip(d) == d && IsIndexSelection(d)
  {
    assert !IsSpace(d[0]) && !IsSpace(d[|d| - 1]);
    StripUntrimmed(d);
    EraseAbsent(d, {',', '-'});
  }

  /** A digit-only fid beyond the end of the list selects nothing. */
  lemma DigitFidSelectsNothing(fid: string, files: seq<FileRecord>)
    requires AllDigits(fid) && DigitsValue(fid) > |files|
    ensures SelectedFids(fid, files) == []
  {
    DigitsAreIndex(fid);
    DigitsResolve(fid, files);
    var ps := [DigitsValue(fid)];
    PickNoneInRange(ps, files);
  }

  /** A digit-only fid is read as a position, not as a fid: when there are
      fewer files than its value, nothing is selected and the command stops
      before any transfer. */
  lemma DigitFidIsPosition(fid: string, files: seq<FileRecord>, root: seq<OwnStorage.DirItem>, toDir: string)
    requires AllDigits(fid) && DigitsValue(fid) > |files|
    ensures PlanSave(fid, files, root, toDir) == Err(NothingSelected)
  {
    DigitFidSelectsNothing(fid, files);
  }

  /** A fid no record carries gets the empty token. */
  lemma {:induction false} UnlistedNoToken(files: seq<FileRecord>, fid: string)
    requires forall i :: 0 <= i < |files| ==> files[i].fid != fid
    ensures LastToken(files, fid) == ""
    decreases |files|
  {
    if |files| > 0 {
      UnlistedNoToken(files[..|files| - 1], fid);
    }
  }

  /** A fid gets the token of the last record carrying it. */
  lemma {:induction false} LastRecordWins(files: seq<FileRecord>, fid: string, i: nat)
    requires i < |files| && files[i].fid == fid
    requires forall j :: i < j < |files| ==> files[j].fid != fid
    ensures LastToken(files, fid) == files[i].shareFidToken
    decreases |files|
  {
    if i < |files| - 1 {
      LastRecordWins(files[..|files| - 1], fid, i);
    }
  }

  /** `a,a` selects the fid `a` twice: the fid branch keeps repeats. */
  lemma RepeatedFidKept(files: seq<FileRecord>)
    ensures SelectedFids("a,a", files) == ["a", "a"]
  {
    assert Join(["a", "a"], ',') == "a,a";
    assert Erase("a,a", {',', '-'}) == "aa";
    FidListRoundTrip(["a", "a"], files);
  }
}
