/** The selection language of `parse_file_selection` (quark_client.py:902-990):
    a string picks a sub-sequence of the flat file list through a fixed,
    priority-ordered chain of cases. */
module Selection {
  import opened Wrappers
  import opened Text
  import opened Records
  import opened Seqs

  // ---------------------------------------------------------------------------
  // Syntax of the selection string
  // ---------------------------------------------------------------------------

  /** Python's `$` matches at the very end and also just before one final newline. */
  function DropFinalNewline(s: string): string {
    if |s| > 0 && s[|s| - 1] == '\n' then s[..|s| - 1] else s
  }

  /** `re.match(r'^(\d+)-(\d+)$', s)`: two digit runs joined by one dash, read as
      integers (quark_client.py:920-923, and :940-943 on one comma token). */
  function RangeMatch(s: string): (r: Option<(nat, nat)>)
    ensures r.Some? ==> '-' in s
    ensures r.Some? ==> forall c :: c in s ==> IsDigit(c) || c == '-' || c == '\n'
  {
    var t := DropFinalNewline(s);
    if '-' !in t then None
    else
      var k := IndexOf(t, '-');
      if AllDigits(t[..k]) && AllDigits(t[k + 1..]) then
        CutAt(t, k);
        assert s == t || s == t + ['\n'];
        Some((DigitsValue(t[..k]), DigitsValue(t[k + 1..])))
      else None
  }

  /** Two digit runs joined by a dash read as the two numbers they spell. */
  lemma RangeOfDigits(da: string, db: string)
    requires AllDigits(da) && AllDigits(db)
    ensures RangeMatch(da + "-" + db) == Some((DigitsValue(da), DigitsValue(db)))
  {
    var s := da + "-" + db;
    assert '-' !in da by {
      forall i | 0 <= i < |da| ensures da[i] != '-' {
        assert IsDigit(da[i]);
      }
    }
    assert s[|s| - 1] == db[|db| - 1];
    assert DropFinalNewline(s) == s;
    assert s[..|da|] == da;
    IndexOfAt(s, '-', |da|);
    assert s[|da| + 1..] == db;
  }

  /** `t` is two digit runs joined by a dash at `k`. */
  predicate DashSplit(t: string, k: nat) {
    k < |t| && t[k] == '-' && AllDigits(t[..k]) && AllDigits(t[k + 1..])
  }

  /** The range syntax matches exactly the strings that are, apart from one
      final newline, two non-empty digit runs joined by one dash, and it
      reads the two runs as the bounds. */
  lemma RangeMatchExact(s: string)
    ensures RangeMatch(s).Some? <==> exists k: nat :: DashSplit(DropFinalNewline(s), k)
    ensures forall k: nat :: DashSplit(DropFinalNewline(s), k) ==>
      RangeMatch(s) == Some((DigitsValue(DropFinalNewline(s)[..k]), DigitsValue(DropFinalNewline(s)[k + 1..])))
  {
    var t := DropFinalNewline(s);
    if RangeMatch(s).Some? {
      assert DashSplit(t, IndexOf(t, '-'));
    }
    forall k: nat | DashSplit(t, k)
      ensures RangeMatch(s) == Some((DigitsValue(t[..k]), DigitsValue(t[k + 1..])))
    {
      assert '-' !in t[..k] by {
        forall i | 0 <= i < k ensures t[..k][i] != '-' {
          assert IsDigit(t[..k][i]);
        }
      }
      IndexOfAt(t, '-', k);
    }
  }

  /** One final newline does not change what the range syntax reads. */
  lemma RangeMatchNewline(s: string)
    requires |s| > 0 && s[|s| - 1] != '\n'
    ensures RangeMatch(s + "\n") == RangeMatch(s)
  {
    assert (s + "\n")[..|s + "\n"| - 1] == s;
    assert DropFinalNewline(s + "\n") == DropFinalNewline(s);
  }

  /** The range syntax reads back the bounds it was written with. */
  lemma RangeMatchDecimal(a: nat, b: nat)
    ensures RangeMatch(Decimal(a) + "-" + Decimal(b)) == Some((a, b))
    ensures RangeMatch(Decimal(a) + "-" + Decimal(b) + "\n") == Some((a, b))
  {
    var da, db := Decimal(a), Decimal(b);
    var s := da + "-" + db;
    RangeOfDigits(da, db);
    assert s[|s| - 1] == db[|db| - 1] && IsDigit(db[|db| - 1]);
    RangeMatchNewline(s);
  }

  /** `range(start, end + 1)`: empty when `start > end`. */
  function Interval(start: nat, end: nat): (r: seq<nat>)
    ensures |r| == if start <= end then end - start + 1 else 0
    ensures forall i :: 0 <= i < |r| ==> r[i] == start + i
    decreases end + 1 - start
  {
    if start > end then [] else [start] + Interval(start + 1, end)
  }

  /** The positions one comma-separated token names (quark_client.py:935-944): a
      stripped digit string is one position, a stripped `a-b` is the whole range
      `a..b` without clamping, and anything else names none. */
  function TokenPositions(token: string): seq<nat> {
    var part := Strip(token);
    if AllDigits(part) then [DigitsValue(part)]
    else if '-' in part then
      match RangeMatch(part)
      case Some((a, b)) => Interval(a, b)
      case None => []
    else []
  }

  /** The positions of all tokens, in token order, repetitions included. */
  function ListPositions(tokens: seq<string>): seq<nat> {
    if |tokens| == 0 then [] else TokenPositions(tokens[0]) + ListPositions(tokens[1..])
  }

  // ---------------------------------------------------------------------------
  // Matching names
  // ---------------------------------------------------------------------------

  /** `re.match` of the regex built at quark_client.py:956 under `re.IGNORECASE`:
      `*` matches any run of characters other than a newline, every other
      character matches itself up to ASCII case, and only a PREFIX of the name
      has to match (nothing anchors the end). */
  function GlobMatch(pattern: string, name: string): bool
    decreases |pattern|, |name|, 0
  {
    if |pattern| == 0 then true
    else if pattern[0] == '*' then StarMatch(pattern[1..], name)
    else |name| > 0 && LowerChar(pattern[0]) == LowerChar(name[0]) && GlobMatch(pattern[1..], name[1..])
  }

  /** `.*` followed by `pattern`. */
  function StarMatch(pattern: string, name: string): bool
    decreases |pattern|, |name|, 1
  {
    GlobMatch(pattern, name) || (|name| > 0 && name[0] != '\n' && StarMatch(pattern, name[1..]))
  }

  /** Index of the last `c` in `s`, or -1 (`str.rfind`). */
  function LastIndex(s: string, c: char): (k: int)
    ensures -1 <= k < |s|
    ensures k >= 0 ==> s[k] == c
    ensures forall j :: k < j < |s| ==> s[j] != c
  {
    if |s| == 0 then -1
    else if s[|s| - 1] == c then |s| - 1
    else LastIndex(s[..|s| - 1], c)
  }

  /** `os.path.splitext(name)[1]`: empty, or the last dot of the final path
      component and what follows it, provided that component has a character
      other than a dot before that dot. */
  function SplitExt(name: string): (ext: string)
    ensures |ext| <= |name|
    ensures ext == "" || (ext[0] == '.' && ext == name[|name| - |ext|..])
    ensures ext != "" ==> '.' !in ext[1..] && '/' !in ext
    ensures '.' !in name ==> ext == ""
    ensures (exists j :: LastIndex(name, '/') < j < LastIndex(name, '.') && name[j] != '.') <==>
      (0 <= LastIndex(name, '.') && ext == name[LastIndex(name, '.')..] && ext != "")
  {
    var dot := LastIndex(name, '.');
    var slash := LastIndex(name, '/');
    if dot > slash && exists j :: slash + 1 <= j < dot && name[j] != '.' then
      var ext := name[dot..];
      assert forall i :: 0 <= i < |ext| ==> ext[i] == name[dot + i];
      ext
    else ""
  }

  const VideoKeywords: set<string> := {"video", "videos", "电影", "影视"}
  const VideoExtensions: set<string> :=
    {".mp4", ".mkv", ".avi", ".mov", ".wmv", ".flv", ".m4v", ".mpg", ".mpeg", ".webm", ".ts", ".vob"}
  const ArchiveKeywords: set<string> := {"zip", "rar", "7z", "压缩包", "压缩文件"}
  const ArchiveExtensions: set<string> :=
    {".zip", ".rar", ".7z", ".tar", ".gz", ".bz2", ".tgz", ".xz", ".lzma"}

  // ---------------------------------------------------------------------------
  // The chain of cases
  // ---------------------------------------------------------------------------

  /** What a selection string asks for, one alternative per case of the chain. */
  datatype Selector =
    | All
    | Range(start: nat, end: nat)
    | Positions(positions: seq<nat>)
    | Glob(pattern: string)
    | Category(extensions: set<string>)
    | Extension(ext: string)
    | Nothing

  /** The case of quark_client.py:916-990 that `selection` falls into; the first
      case that applies wins. */
  function Classify(selection: string): Selector {
    var lower := Lower(selection);
    if lower == "all" then All
    else if RangeMatch(selection).Some? then Range(RangeMatch(selection).value.0, RangeMatch(selection).value.1)
    else if ',' in selection || AllDigits(selection) then Positions(ListPositions(Split(selection, ',')))
    else if '*' in selection then Glob(selection)
    else if lower in VideoKeywords then Category(VideoExtensions)
    else if lower in ArchiveKeywords then Category(ArchiveExtensions)
    else if '.' !in selection then Extension(lower)
    else Nothing
  }

  /** `max(1, min(x, n))`. */
  function Clamp(x: nat, n: nat): (c: nat)
    ensures 1 <= c && (1 <= n ==> c <= n)
    ensures 1 <= x <= n ==> c == x
    ensures 1 <= n < x ==> c == n
    ensures x == 0 || n == 0 ==> c == 1
  {
    var m := if x < n then x else n;
    if m < 1 then 1 else m
  }

  /** The test that a 1-based position names one of `n` files. */
  function InRange(n: nat): nat -> bool {
    (k: nat) => 1 <= k <= n
  }

  /** The files at the 1-based `positions`, in the order of `positions`;
      positions outside `1..|files|` are skipped. */
  function Pick(positions: seq<nat>, files: seq<FileRecord>): (r: seq<FileRecord>)
    ensures forall f :: f in r ==> f in files
  {
    var ks := Filter(positions, InRange(|files|));
    assert forall i :: 0 <= i < |ks| ==> ks[i] in ks;
    seq(|ks|, i requires 0 <= i < |ks| => files[ks[i] - 1])
  }

  /** The files `Pick` takes, one per position that passes the range test. */
  lemma PickAt(positions: seq<nat>, files: seq<FileRecord>)
    ensures |Pick(positions, files)| == |Filter(positions, InRange(|files|))|
    ensures forall i :: 0 <= i < |Pick(positions, files)| ==>
      Filter(positions, InRange(|files|))[i] in positions &&
      Pick(positions, files)[i] == files[Filter(positions, InRange(|files|))[i] - 1]
  {
    var ks := Filter(positions, InRange(|files|));
    assert forall i :: 0 <= i < |ks| ==> ks[i] in ks;
  }

  /** Picking positions that are all in range takes one file per position. */
  lemma PickInRange(positions: seq<nat>, files: seq<FileRecord>)
    requires forall i :: 0 <= i < |positions| ==> 1 <= positions[i] <= |files|
    ensures |Pick(positions, files)| == |positions|
    ensures forall i :: 0 <= i < |positions| ==> Pick(positions, files)[i] == files[positions[i] - 1]
  {
    var keep := InRange(|files|);
    forall k | k in positions
      ensures keep(k)
    {
      var i :| 0 <= i < |positions| && positions[i] == k;
    }
    FilterKeepsEvery(positions, keep);
    PickAt(positions, files);
  }

  /** The whole-string range case (quark_client.py:924-929): both bounds are
      clamped into `1..|files|` and the inclusive slice between them is taken. */
  function RangeSlice(start: nat, end: nat, files: seq<FileRecord>): (r: seq<FileRecord>)
    ensures |files| == 0 ==> r == []
    ensures |files| > 0 && Clamp(start, |files|) <= Clamp(end, |files|) ==>
      r == files[Clamp(start, |files|) - 1..Clamp(end, |files|)]
    ensures |files| > 0 && Clamp(start, |files|) > Clamp(end, |files|) ==> r == []
  {
    var lo := Clamp(start, |files|);
    var hi := Clamp(end, |files|);
    var r := Pick(Interval(lo, hi), files);
    if |files| == 0 then r
    else
      PickInRange(Interval(lo, hi), files);
      r
  }

  /** The files a selector picks. */
  function Apply(selector: Selector, files: seq<FileRecord>): (r: seq<FileRecord>)
    ensures forall f :: f in r ==> f in files
    ensures |r| <= |files|
  {
    match selector
    case All => files
    case Range(a, b) => RangeSlice(a, b, files)
    case Positions(ps) => PickDistinct(Dedup(ps), files)
    case Glob(pattern) => Filter(files, (f: FileRecord) => GlobMatch(pattern, f.name))
    case Category(exts) => Filter(files, InCategory(exts))
    case Extension(e) => Filter(files, HasExtension(e))
    case Nothing => []
  }

  /** The test of a category: the lower-cased extension of the name lies in it. */
  function InCategory(exts: set<string>): FileRecord -> bool {
    (f: FileRecord) => Lower(SplitExt(f.name)) in exts
  }

  /** Keeps the bare-extension test of quark_client.py:985-986. */
  predicate ExtensionIs(name: string, e: string) {
    var ext := Lower(SplitExt(name));
    ext == "." + e || ext == e
  }

  /** The test of the bare-extension case on a record. */
  function HasExtension(e: string): FileRecord -> bool {
    (f: FileRecord) => ExtensionIs(f.name, e)
  }

  /** `Pick` on duplicate-free positions, which picks at most one file per position. */
  function PickDistinct(positions: seq<nat>, files: seq<FileRecord>): (r: seq<FileRecord>)
    requires NoDuplicates(positions)
    ensures r == Pick(positions, files)
    ensures |r| <= |files|
  {
    var ks := Filter(positions, InRange(|files|));
    EmbedsNoDuplicates(ks, positions);
    DistinctPositionsBounded(ks, |files|);
    Pick(positions, files)
  }

  /** `parse_file_selection(selection, files)` (quark_client.py:902-990). */
  function Resolve(selection: string, files: seq<FileRecord>): (r: seq<FileRecord>)
    ensures forall f :: f in r ==> f in files
    ensures |r| <= |files|
    ensures Lower(selection) == "all" ==> r == files
    ensures |files| == 0 ==> r == []
  {
    Apply(Classify(selection), files)
  }
}
