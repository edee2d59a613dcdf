/** Properties of the selection language: how its cases relate to each other
    and to independent definitions, and the surprising behaviours it keeps. */
module SelectionProperties {
  import opened Wrappers
  import opened Text
  import opened Records
  import opened Seqs
  import opened Selection

  /** A string whose first character is a digit is never the keyword `all`. */
  lemma DigitFirstNotAll(s: string)
    requires |s| > 0 && IsDigit(s[0])
    ensures Lower(s) != "all"
  {
    assert Lower(s)[0] == s[0];
  }

  /** Decimal renderings contain neither dashes nor commas nor whitespace. */
  lemma DecimalPlain(n: nat)
    ensures '-' !in Decimal(n) && ',' !in Decimal(n) && '\n' !in Decimal(n)
    ensures !IsSpace(Decimal(n)[0]) && !IsSpace(Decimal(n)[|Decimal(n)| - 1])
  {
    var d := Decimal(n);
    assert forall i :: 0 <= i < |d| ==> IsDigit(d[i]);
  }

  /** The whole-string form `a-b` is the clamped range case. */
  lemma RangeFormIsRange(a: nat, b: nat)
    ensures Classify(Decimal(a) + "-" + Decimal(b)) == Range(a, b)
  {
    var s := Decimal(a) + "-" + Decimal(b);
    assert s[0] == Decimal(a)[0];
    DigitFirstNotAll(s);
    RangeMatchDecimal(a, b);
  }

  /** The list case, once the earlier cases are ruled out. */
  lemma ClassifyAsPositions(selection: string)
    requires Lower(selection) != "all" && RangeMatch(selection).None?
    requires ',' in selection || AllDigits(selection)
    ensures Classify(selection) == Positions(ListPositions(Split(selection, ',')))
  {
  }

  /** A trailing comma defeats the whole-string range syntax. */
  lemma TrailingCommaNotRange(s: string)
    ensures RangeMatch(s + ",").None?
  {
    assert (s + ",")[|s|] == ',';
  }

  /** The token `a-b` names the unclamped range `a..b`. */
  lemma RangeTokenPositions(a: nat, b: nat)
    ensures TokenPositions(Decimal(a) + "-" + Decimal(b)) == Interval(a, b)
  {
    var s := Decimal(a) + "-" + Decimal(b);
    DecimalPlain(a);
    DecimalPlain(b);
    assert s[0] == Decimal(a)[0] && s[|s| - 1] == Decimal(b)[|Decimal(b)| - 1];
    StripUntrimmed(s);
    assert s[|Decimal(a)|] == '-';
    RangeMatchDecimal(a, b);
  }

  /** An empty token names no position. */
  lemma EmptyTokenPositions()
    ensures TokenPositions("") == []
  {
    assert Strip("") == "";
  }

  /** The same text followed by a comma is read as a list of positions, the
      range expanded without clamping. */
  lemma ListFormIsPositions(a: nat, b: nat)
    ensures Classify(Decimal(a) + "-" + Decimal(b) + ",") == Positions(Interval(a, b))
  {
    var s := Decimal(a) + "-" + Decimal(b);
    var t := s + ",";
    var parts := Split(t, ',');
    assert parts == [s, ""] by {
      DecimalPlain(a);
      DecimalPlain(b);
      assert ',' !in s;
      assert Join([s, ""], ',') == t;
      SplitJoin([s, ""], ',');
    }
    assert ListPositions(parts) == Interval(a, b) by {
      RangeTokenPositions(a, b);
      EmptyTokenPositions();
      assert ListPositions([""]) == TokenPositions("") + ListPositions([]);
      assert ListPositions([s, ""]) == TokenPositions(s) + ListPositions([""]);
    }
    assert Classify(t) == Positions(ListPositions(parts)) by {
      assert t[0] == Decimal(a)[0];
      DigitFirstNotAll(t);
      TrailingCommaNotRange(s);
      assert t[|s|] == ',';
      ClassifyAsPositions(t);
    }
  }

  lemma IntervalDistinct(a: nat, b: nat)
    ensures NoDuplicates(Interval(a, b))
  {
  }

  /** What a list of positions resolves to, once classified. */
  lemma ResolvePositions(selection: string, ps: seq<nat>, files: seq<FileRecord>)
    requires Classify(selection) == Positions(ps)
    ensures Resolve(selection, files) == Pick(Dedup(ps), files)
  {
    assert Resolve(selection, files) == Apply(Positions(ps), files);
  }

  /** What a whole-string range resolves to, once classified. */
  lemma ResolveRange(selection: string, a: nat, b: nat, files: seq<FileRecord>)
    requires Classify(selection) == Range(a, b)
    ensures Resolve(selection, files) == RangeSlice(a, b, files)
  {
    assert Resolve(selection, files) == Apply(Range(a, b), files);
  }

  /** A whole-string range within bounds takes the slice between its bounds. */
  lemma RangeWithin(selection: string, a: nat, b: nat, files: seq<FileRecord>)
    requires Classify(selection) == Range(a, b) && 1 <= a <= b <= |files|
    ensures Resolve(selection, files) == files[a - 1..b]
  {
    ResolveRange(selection, a, b, files);
    var lo, hi := Clamp(a, |files|), Clamp(b, |files|);
    assert lo == a && hi == b;
    assert RangeSlice(a, b, files) == files[lo - 1..hi];
  }

  /** The positions `a..b` within bounds pick the slice between them. */
  lemma PickInterval(a: nat, b: nat, files: seq<FileRecord>)
    requires 1 <= a <= b <= |files|
    ensures Pick(Interval(a, b), files) == files[a - 1..b]
  {
    var ps := Interval(a, b);
    PickInRange(ps, files);
    var r := Pick(ps, files);
    assert |r| == b - a + 1;
    forall i | 0 <= i < |r|
      ensures r[i] == files[a - 1..b][i]
    {
      assert ps[i] == a + i;
    }
  }

  /** A position list naming `a..b` within bounds takes the same slice. */
  lemma IntervalWithin(selection: string, a: nat, b: nat, files: seq<FileRecord>)
    requires Classify(selection) == Positions(Interval(a, b)) && 1 <= a <= b <= |files|
    ensures Resolve(selection, files) == files[a - 1..b]
  {
    ResolvePositions(selection, Interval(a, b), files);
    IntervalDistinct(a, b);
    DedupKeepsDistinct(Interval(a, b));
    PickInterval(a, b, files);
  }

  /** Within bounds, `a-b` and `a-b,` pick the same files: the slice `a..b`. */
  lemma RangeAgreesWithListForm(a: nat, b: nat, files: seq<FileRecord>)
    requires 1 <= a <= b <= |files|
    ensures Resolve(Decimal(a) + "-" + Decimal(b), files) == files[a - 1..b]
    ensures Resolve(Decimal(a) + "-" + Decimal(b) + ",", files) == files[a - 1..b]
  {
    RangeFormIsRange(a, b);
    RangeWithin(Decimal(a) + "-" + Decimal(b), a, b, files);
    ListFormIsPositions(a, b);
    IntervalWithin(Decimal(a) + "-" + Decimal(b) + ",", a, b, files);
  }

  /** A whole-string range beyond the end takes the last file alone. */
  lemma RangeBeyond(selection: string, a: nat, b: nat, files: seq<FileRecord>)
    requires Classify(selection) == Range(a, b) && 0 < |files| < a <= b
    ensures Resolve(selection, files) == [files[|files| - 1]]
  {
    ResolveRange(selection, a, b, files);
    assert Clamp(a, |files|) == |files| && Clamp(b, |files|) == |files|;
  }

  /** A position list naming `a..b` beyond the end takes nothing. */
  lemma IntervalBeyond(selection: string, a: nat, b: nat, files: seq<FileRecord>)
    requires Classify(selection) == Positions(Interval(a, b)) && |files| < a
    ensures Resolve(selection, files) == []
  {
    ResolvePositions(selection, Interval(a, b), files);
    IntervalDistinct(a, b);
    DedupKeepsDistinct(Interval(a, b));
    PickNoneInRange(Interval(a, b), files);
  }

  /** Beyond the end the two forms part: the whole-string range clamps both
      bounds to the last file, while the list form drops every position. */
  lemma RangeClampsListDrops(a: nat, b: nat, files: seq<FileRecord>)
    requires 0 < |files| < a <= b
    ensures Resolve(Decimal(a) + "-" + Decimal(b), files) == [files[|files| - 1]]
    ensures Resolve(Decimal(a) + "-" + Decimal(b) + ",", files) == []
  {
    RangeFormIsRange(a, b);
    RangeBeyond(Decimal(a) + "-" + Decimal(b), a, b, files);
    ListFormIsPositions(a, b);
    IntervalBeyond(Decimal(a) + "-" + Decimal(b) + ",", a, b, files);
  }

  /** Positions all beyond the end pick nothing. */
  lemma PickNoneInRange(positions: seq<nat>, files: seq<FileRecord>)
    requires forall k :: k in positions ==> k > |files|
    ensures Pick(positions, files) == []
  {
    FilterDropsEvery(positions, InRange(|files|));
  }

  /** `20-30` on ten files yields the tenth file alone; `20-30,` yields nothing. */
  lemma TwentyToThirtyOnTen(files: seq<FileRecord>)
    requires |files| == 10
    ensures Resolve("20-30", files) == [files[9]]
    ensures Resolve("20-30,", files) == []
  {
    var s := Decimal(20) + "-" + Decimal(30);
    assert s == "20-30" by {
      assert Decimal(2) == "2";
      assert Decimal(3) == "3";
    }
    assert s + "," == "20-30,";
    RangeClampsListDrops(20, 30, files);
  }

  /** Any selection containing a comma is read as a list of positions, so it
      never reaches glob, keyword or extension matching. */
  lemma CommaSelectsPositions(selection: string)
    requires ',' in selection
    ensures Classify(selection) == Positions(ListPositions(Split(selection, ',')))
  {
    var i :| 0 <= i < |selection| && selection[i] == ',';
    assert Lower(selection)[i] == ',';
    assert ',' !in "all";
    ClassifyAsPositions(selection);
  }

  /** Tokens none of which names a position contribute no positions. */
  lemma {:induction false} ListPositionsNone(tokens: seq<string>)
    requires forall i :: 0 <= i < |tokens| ==> TokenPositions(tokens[i]) == []
    ensures ListPositions(tokens) == []
  {
    if |tokens| > 0 {
      ListPositionsNone(tokens[1..]);
    }
  }

  /** A token of one digit names that position. */
  lemma DigitToken(t: string, n: nat)
    requires |t| == 1 && IsDigit(t[0]) && n == t[0] as int - '0' as int
    ensures TokenPositions(t) == [n]
  {
    StripUntrimmed(t);
    assert Strip(t) == t;
    assert AllDigits(t);
    assert t[..0] == [];
    assert DigitsValue(t) == n;
  }

  /** One-digit tokens contribute their digits, in the order written. */
  lemma {:induction false} ListPositionsDigits(tokens: seq<string>, ns: seq<nat>)
    requires |tokens| == |ns|
    requires forall i :: 0 <= i < |tokens| ==>
      |tokens[i]| == 1 && IsDigit(tokens[i][0]) && ns[i] == tokens[i][0] as int - '0' as int
    ensures ListPositions(tokens) == ns
  {
    if |tokens| > 0 {
      DigitToken(tokens[0], ns[0]);
      var rest, ms := tokens[1..], ns[1..];
      assert forall i :: 0 <= i < |rest| ==> rest[i] == tokens[i + 1] && ms[i] == ns[i + 1];
      ListPositionsDigits(rest, ms);
      assert ListPositions(tokens) == TokenPositions(tokens[0]) + ListPositions(rest);
      assert ns == [ns[0]] + ms;
    }
  }

  /** A comma-joined list of two or more tokens resolves through the positions
      its tokens name, whatever those tokens look like. */
  lemma ResolveTokens(tokens: seq<string>, ns: seq<nat>, files: seq<FileRecord>)
    requires |tokens| >= 2
    requires forall i :: 0 <= i < |tokens| ==> ',' !in tokens[i]
    requires ListPositions(tokens) == ns
    ensures Resolve(Join(tokens, ','), files) == Pick(Dedup(ns), files)
  {
    var s := Join(tokens, ',');
    assert s[|tokens[0]|] == ',';
    SplitJoin(tokens, ',');
    CommaSelectsPositions(s);
    ResolvePositions(s, ns, files);
  }

  /** A comma-joined list of tokens none of which names a position selects
      nothing, whatever files are listed. */
  lemma NoPositionsSelectNothing(tokens: seq<string>, files: seq<FileRecord>)
    requires |tokens| >= 2
    requires forall i :: 0 <= i < |tokens| ==> ',' !in tokens[i]
    requires ListPositions(tokens) == []
    ensures Resolve(Join(tokens, ','), files) == []
  {
    var ps := ListPositions(tokens);
    ResolveTokens(tokens, ps, files);
    PickDedupEmpty(files);
  }

  /** No positions pick no files. */
  lemma PickDedupEmpty(files: seq<FileRecord>)
    ensures Pick(Dedup<nat>([]), files) == []
  {
    assert Dedup<nat>([]) == [];
    PickNoneInRange([], files);
  }

  /** A lower-case letter followed by lower-case letters and digits. */
  predicate LetterToken(t: string) {
    t != "" && 'a' <= t[0] <= 'z' && forall j :: 0 <= j < |t| ==> 'a' <= t[j] <= 'z' || IsDigit(t[j])
  }

  /** A letter token names no position. */
  lemma LettersNoPositions(t: string)
    requires LetterToken(t)
    ensures TokenPositions(t) == [] && ',' !in t
  {
    StripUntrimmed(t);
    assert !IsDigit(t[0]);
  }

  /** Letter tokens name no positions at all. */
  lemma {:induction false} LetterTokensNoPositions(tokens: seq<string>)
    requires forall i :: 0 <= i < |tokens| ==> LetterToken(tokens[i])
    ensures ListPositions(tokens) == []
  {
    if |tokens| > 0 {
      LettersNoPositions(tokens[0]);
      LetterTokensNoPositions(tokens[1..]);
    }
  }

  /** Letter tokens hold no comma and name no positions. */
  lemma LetterTokensFacts(tokens: seq<string>)
    requires forall i :: 0 <= i < |tokens| ==> LetterToken(tokens[i])
    ensures forall i :: 0 <= i < |tokens| ==> ',' !in tokens[i]
    ensures ListPositions(tokens) == []
  {
    forall i | 0 <= i < |tokens| ensures ',' !in tokens[i] {
      var t := tokens[i];
      assert forall j :: 0 <= j < |t| ==> t[j] != ',';
    }
    LetterTokensNoPositions(tokens);
  }

  /** A comma-joined list of letter tokens, such as extension names, selects
      nothing: the list case reads only numbers and ranges. */
  lemma LetterTokensSelectNothing(tokens: seq<string>, files: seq<FileRecord>)
    requires |tokens| >= 2 && forall i :: 0 <= i < |tokens| ==> LetterToken(tokens[i])
    ensures Resolve(Join(tokens, ','), files) == []
  {
    LetterTokensFacts(tokens);
    NoPositionsSelectNothing(tokens, files);
  }

  /** The comma-joined spellings of the example selections below. */
  lemma ExampleJoins()
    ensures Join(["mkv", "pdf", "mp4"], ',') == "mkv,pdf,mp4"
    ensures Join(["1", "3", "1", "9"], ',') == "1,3,1,9"
    ensures Join(["3", "1"], ',') == "3,1"
  {
  }

  /** The help text's `mkv,pdf,mp4` selects nothing at all. */
  lemma ExtensionListSelectsNothing(files: seq<FileRecord>)
    ensures Resolve("mkv,pdf,mp4", files) == []
  {
    ExampleJoins();
    var tokens := ["mkv", "pdf", "mp4"];
    assert LetterToken(tokens[0]) && LetterToken(tokens[1]) && LetterToken(tokens[2]);
    LetterTokensSelectNothing(tokens, files);
  }

  /** No keyword of either category holds a dot. */
  lemma KeywordsUndotted(w: string)
    requires '.' in w
    ensures w !in VideoKeywords && w !in ArchiveKeywords && w != "all"
  {
  }

  /** A `*` is neither a digit, a dash, a comma nor a letter. */
  lemma StarNotAllNotRange(selection: string)
    requires '*' in selection
    ensures Lower(selection) != "all" && RangeMatch(selection).None? && !AllDigits(selection)
  {
    var i :| 0 <= i < |selection| && selection[i] == '*';
    assert Lower(selection)[i] == '*';
    assert !IsDigit(selection[i]);
  }

  /** A selection with a `*` and no comma is a glob. */
  lemma StarIsGlob(selection: string)
    requires '*' in selection && ',' !in selection
    ensures Classify(selection) == Glob(selection)
  {
    StarNotAllNotRange(selection);
  }

  /** A selection with a dot but no comma and no `*` falls through every case. */
  lemma DottedIsNothing(selection: string)
    requires '.' in selection && ',' !in selection && '*' !in selection
    ensures Classify(selection) == Nothing
  {
    var i :| 0 <= i < |selection| && selection[i] == '.';
    var lower := Lower(selection);
    assert lower[i] == '.';
    KeywordsUndotted(lower);
    assert RangeMatch(selection).None?;
    assert !AllDigits(selection) by {
      assert !IsDigit(selection[i]);
    }
  }

  /** A selection with a dot but no comma and no `*` selects nothing: `.mkv`
      is not an extension to this language. */
  lemma DottedSelectsNothing(selection: string, files: seq<FileRecord>)
    requires '.' in selection && ',' !in selection && '*' !in selection
    ensures Resolve(selection, files) == []
  {
    DottedIsNothing(selection);
    assert Resolve(selection, files) == Apply(Nothing, files);
  }

  /** A position written again later is kept once, at its first place. */
  lemma DedupRepeat(a: nat, b: nat, c: nat)
    requires a != b && a != c && b != c
    ensures Dedup<nat>([a, b, a, c]) == [a, b, c]
  {
    var ab: seq<nat> := [a, b];
    assert NoDuplicates(ab);
    DedupKeepsDistinct(ab);
    assert a in ab;
    DedupAppend(ab, a);
    var aba := ab + [a];
    assert Dedup(aba) == ab;
    assert c !in aba;
    DedupAppend(aba, c);
    assert Dedup(aba + [c]) == ab + [c];
    assert aba + [c] == [a, b, a, c];
  }

  /** The repeated 1 in `1,3,1,9` is kept once, at its first place. */
  lemma RepeatedPositionOnce()
    ensures Dedup<nat>([1, 3, 1, 9]) == [1, 3, 9]
  {
    DedupRepeat(1, 3, 9);
  }

  /** Of the positions 1, 3 and 9 on five files, 9 is dropped. */
  lemma BeyondEndDropped(files: seq<FileRecord>)
    requires |files| == 5
    ensures Pick([1, 3, 9], files) == [files[0], files[2]]
  {
    var ys: seq<nat> := [1, 3, 9];
    assert Filter(ys, InRange(|files|)) == [1, 3] by {
      assert ys[1..] == [3, 9] && ys[1..][1..] == [9] && ys[1..][1..][1..] == [];
    }
  }

  /** Two or more one-digit tokens joined with commas pick the files at
      their digits, each once, in the order written. */
  lemma DigitTokensResolve(tokens: seq<string>, ns: seq<nat>, files: seq<FileRecord>)
    requires |tokens| >= 2 && |tokens| == |ns|
    requires forall i :: 0 <= i < |tokens| ==>
      |tokens[i]| == 1 && IsDigit(tokens[i][0]) && ns[i] == tokens[i][0] as int - '0' as int
    ensures Resolve(Join(tokens, ','), files) == Pick(Dedup(ns), files)
  {
    DigitTokensFacts(tokens, ns);
    ResolveTokens(tokens, ns, files);
  }

  /** One-digit tokens hold no comma and name their digits. */
  lemma DigitTokensFacts(tokens: seq<string>, ns: seq<nat>)
    requires |tokens| == |ns|
    requires forall i :: 0 <= i < |tokens| ==>
      |tokens[i]| == 1 && IsDigit(tokens[i][0]) && ns[i] == tokens[i][0] as int - '0' as int
    ensures ListPositions(tokens) == ns
    ensures forall i :: 0 <= i < |tokens| ==> ',' !in tokens[i]
  {
    ListPositionsDigits(tokens, ns);
    forall i | 0 <= i < |tokens|
      ensures ',' !in tokens[i]
    {
      assert tokens[i] == [tokens[i][0]];
    }
  }

  /** `1,3,1,9`, spelled as its tokens, on five files. */
  lemma PositionTokensExample(files: seq<FileRecord>)
    requires |files| == 5
    ensures Resolve(Join(["1", "3", "1", "9"], ','), files) == [files[0], files[2]]
  {
    var tokens := ["1", "3", "1", "9"];
    var ns: seq<nat> := [1, 3, 1, 9];
    DigitTokensResolve(tokens, ns, files);
    RepeatedPositionOnce();
    BeyondEndDropped(files);
  }

  /** `1,3,1,9` on five files: position order, the repeated 1 once, 9 dropped. */
  lemma PositionListExample(files: seq<FileRecord>)
    requires |files| == 5
    ensures Resolve("1,3,1,9", files) == [files[0], files[2]]
  {
    ExampleJoins();
    PositionTokensExample(files);
  }

  /** `3,1`, spelled as its tokens. */
  lemma OrderTokensExample(files: seq<FileRecord>)
    requires |files| >= 3
    ensures Resolve(Join(["3", "1"], ','), files) == [files[2], files[0]]
  {
    var tokens := ["3", "1"];
    var ns: seq<nat> := [3, 1];
    DigitTokensResolve(tokens, ns, files);
    ReversedPick(files);
  }

  /** The positions 3 then 1, both distinct and in range, pick in that order. */
  lemma ReversedPick(files: seq<FileRecord>)
    requires |files| >= 3
    ensures Pick(Dedup<nat>([3, 1]), files) == [files[2], files[0]]
  {
    var xs: seq<nat> := [3, 1];
    assert Dedup(xs) == xs by {
      assert xs[..1] == [3];
    }
    PickInRange(xs, files);
  }

  /** `3,1` follows the order of the positions written, not the list order. */
  lemma PositionOrderExample(files: seq<FileRecord>)
    requires |files| >= 3
    ensures Resolve("3,1", files) == [files[2], files[0]]
  {
    ExampleJoins();
    OrderTokensExample(files);
  }

  /** Equality up to ASCII case of two strings. */
  predicate SameUpToCase(a: string, b: string) {
    |a| == |b| && forall i :: 0 <= i < |a| ==> LowerChar(a[i]) == LowerChar(b[i])
  }

  /** A pattern without `*` matches exactly the names that begin with it, up to case. */
  lemma {:induction false} GlobLiteral(lit: string, name: string)
    requires '*' !in lit
    ensures GlobMatch(lit, name) <==> |lit| <= |name| && SameUpToCase(lit, name[..|lit|])
    decreases |lit|
  {
    if |lit| > 0 {
      assert lit[0] != '*';
      assert '*' !in lit[1..] by {
        forall i | 0 <= i < |lit[1..]| ensures lit[1..][i] != '*' {
          assert lit[1..][i] == lit[i + 1];
        }
      }
      if |name| > 0 {
        GlobLiteral(lit[1..], name[1..]);
        if |lit| <= |name| {
          assert name[1..][..|lit| - 1] == name[..|lit|][1..];
          assert SameUpToCase(lit, name[..|lit|]) <==>
            LowerChar(lit[0]) == LowerChar(name[0]) && SameUpToCase(lit[1..], name[..|lit|][1..]);
        }
      }
    }
  }

  /** `.*` can take the first `k` characters of `name` and leave the rest to `p`. */
  predicate StarSplit(p: string, name: string, k: int) {
    0 <= k <= |name| && '\n' !in name[..k] && GlobMatch(p, name[k..])
  }

  /** `.*` then `p` matches exactly when `p` matches after some run of
      characters on the name's first line. */
  lemma {:induction false} StarMatchSpec(p: string, name: string)
    ensures StarMatch(p, name) <==> exists k :: StarSplit(p, name, k)
    decreases |name|
  {
    assert name[..0] == [] && name[0..] == name;
    if GlobMatch(p, name) {
      assert StarSplit(p, name, 0);
    }
    if StarMatch(p, name) && !GlobMatch(p, name) {
      StarMatchSpec(p, name[1..]);
      var k :| StarSplit(p, name[1..], k);
      assert name[..k + 1] == [name[0]] + name[1..][..k];
      assert name[k + 1..] == name[1..][k..];
      assert StarSplit(p, name, k + 1);
    }
    if k :| StarSplit(p, name, k) {
      if k > 0 {
        assert name[0] == name[..k][0];
        assert name[1..][..k - 1] == name[1..k];
        assert name[1..k] == name[..k][1..];
        assert name[1..][k - 1..] == name[k..];
        assert StarSplit(p, name[1..], k - 1);
        StarMatchSpec(p, name[1..]);
      }
    }
  }

  /** A pattern that begins with a run `lit` free of `*` matches exactly when
      the name begins with `lit` up to case and the rest of the pattern
      matches the rest of the name. */
  lemma {:induction false} GlobPrefix(lit: string, p: string, name: string)
    requires '*' !in lit
    ensures GlobMatch(lit + p, name) <==>
      |lit| <= |name| && SameUpToCase(lit, name[..|lit|]) && GlobMatch(p, name[|lit|..])
    decreases |lit|
  {
    if |lit| == 0 {
      assert lit + p == p && name[0..] == name;
    } else {
      assert (lit + p)[0] == lit[0] && lit[0] != '*';
      assert (lit + p)[1..] == lit[1..] + p;
      assert '*' !in lit[1..] by {
        forall i | 0 <= i < |lit[1..]| ensures lit[1..][i] != '*' {
          assert lit[1..][i] == lit[i + 1];
        }
      }
      if |name| > 0 {
        GlobPrefix(lit[1..], p, name[1..]);
        if |lit| <= |name| {
          assert name[1..][..|lit| - 1] == name[..|lit|][1..];
          assert name[1..][|lit| - 1..] == name[|lit|..];
          assert SameUpToCase(lit, name[..|lit|]) <==>
            LowerChar(lit[0]) == LowerChar(name[0]) && SameUpToCase(lit[1..], name[..|lit|][1..]);
        }
      }
    }
  }

  /** `lit` occurs at `i` up to case, with no newline in the name before it. */
  predicate OccursOnFirstLine(lit: string, name: string, i: int) {
    0 <= i && i + |lit| <= |name| && '\n' !in name[..i] && SameUpToCase(lit, name[i..i + |lit|])
  }

  /** `*` then a literal matches exactly the names in which the literal occurs,
      up to case, on the first line: the end of the name is not anchored. */
  lemma {:induction false} StarThenLiteral(lit: string, name: string)
    requires '*' !in lit
    ensures GlobMatch("*" + lit, name) <==> exists i :: OccursOnFirstLine(lit, name, i)
  {
    assert ("*" + lit)[1..] == lit;
    StarMatchLiteral(lit, name);
  }

  /** An occurrence at 0 is a match of the literal at the start. */
  lemma OccursAtStart(lit: string, name: string)
    ensures OccursOnFirstLine(lit, name, 0) <==> |lit| <= |name| && SameUpToCase(lit, name[..|lit|])
  {
    if |lit| <= |name| {
      assert name[0..|lit|] == name[..|lit|];
    }
  }

  /** An occurrence in the tail of a name whose first character is not a
      newline is an occurrence in the name, one place further on. */
  lemma OccursShiftRight(lit: string, name: string, i: int)
    requires |name| > 0 && name[0] != '\n' && OccursOnFirstLine(lit, name[1..], i)
    ensures OccursOnFirstLine(lit, name, i + 1)
  {
    assert name[1..][i..i + |lit|] == name[i + 1..i + 1 + |lit|];
    assert name[..i + 1] == [name[0]] + name[1..][..i];
  }

  /** An occurrence past the start is one in the tail, after a first
      character that is not a newline. */
  lemma OccursShiftLeft(lit: string, name: string, i: int)
    requires i > 0 && OccursOnFirstLine(lit, name, i)
    ensures OccursOnFirstLine(lit, name[1..], i - 1) && name[0] != '\n'
  {
    assert name[1..][i - 1..i - 1 + |lit|] == name[i..i + |lit|];
    assert name[..i] == [name[0]] + name[1..][..i - 1];
    assert name[0] == name[..i][0];
  }

  lemma {:induction false} StarMatchLiteral(lit: string, name: string)
    requires '*' !in lit
    ensures StarMatch(lit, name) <==> exists i :: OccursOnFirstLine(lit, name, i)
    decreases |name|
  {
    GlobLiteral(lit, name);
    OccursAtStart(lit, name);
    if StarMatch(lit, name) && !GlobMatch(lit, name) {
      StarMatchLiteral(lit, name[1..]);
      var i :| OccursOnFirstLine(lit, name[1..], i);
      OccursShiftRight(lit, name, i);
    }
    if i :| OccursOnFirstLine(lit, name, i) {
      if i > 0 {
        OccursShiftLeft(lit, name, i);
        StarMatchLiteral(lit, name[1..]);
      }
    }
  }

  /** `*.mkv` keeps `a.MKV`: the match ignores case. */
  lemma StarMkvKeepsUpper()
    ensures GlobMatch("*.mkv", "a.MKV")
  {
    StarThenLiteral(".mkv", "a.MKV");
    assert OccursOnFirstLine(".mkv", "a.MKV", 1);
  }

  /** `*.mkv` keeps `a.mkv.txt`: the end of the name is not anchored. */
  lemma StarMkvKeepsInner()
    ensures GlobMatch("*.mkv", "a.mkv.txt")
  {
    StarThenLiteral(".mkv", "a.mkv.txt");
    assert OccursOnFirstLine(".mkv", "a.mkv.txt", 1);
  }

  /** `*.mkv` drops `b.avi`. */
  lemma StarMkvDropsAvi()
    ensures !GlobMatch("*.mkv", "b.avi")
  {
    var n := "b.avi";
    StarThenLiteral(".mkv", n);
    assert !OccursOnFirstLine(".mkv", n, 0) by {
      assert n[0..4][0] == 'b';
    }
    assert !OccursOnFirstLine(".mkv", n, 1) by {
      assert n[1..5][1] == 'a';
    }
    assert forall i :: i >= 2 ==> !OccursOnFirstLine(".mkv", n, i);
  }

  /** `*.mkv` keeps `a.MKV` and also `a.mkv.txt`, and drops `b.avi`. */
  lemma StarMkvExample()
    ensures GlobMatch("*.mkv", "a.MKV")
    ensures GlobMatch("*.mkv", "a.mkv.txt")
    ensures !GlobMatch("*.mkv", "b.avi")
  {
    StarMkvKeepsUpper();
    StarMkvKeepsInner();
    StarMkvDropsAvi();
  }

  /** Lowering keeps every character that is not an upper-case letter. */
  lemma LowerKeeps(s: string, c: char)
    requires !('A' <= c <= 'Z')
    ensures c in s ==> c in Lower(s)
  {
    if c in s {
      var i :| 0 <= i < |s| && s[i] == c;
      assert Lower(s)[i] == c;
    }
  }

  /** A string of digits is its own lower-case form. */
  lemma LowerDigits(s: string)
    requires AllDigits(s)
    ensures AllDigits(Lower(s))
  {
    assert forall i :: 0 <= i < |s| ==> Lower(s)[i] == s[i];
  }

  /** No keyword is `all`, none holds a dash, a comma, a star or only digits,
      and no archive keyword is also a video keyword. */
  lemma KeywordPlain(k: string)
    requires k in VideoKeywords + ArchiveKeywords
    ensures k != "all" && '-' !in k && ',' !in k && '*' !in k && !AllDigits(k)
    ensures k in ArchiveKeywords ==> k !in VideoKeywords
  {
    assert |k| > 0 && !IsDigit(k[|k| - 1]);
    if k in ArchiveKeywords {
      assert k[0] in {'z', 'r', '7', '压'};
    }
  }

  /** The selection a keyword reaches: none of the earlier cases applies. */
  lemma KeywordPassesEarlierCases(selection: string)
    requires Lower(selection) in VideoKeywords + ArchiveKeywords
    ensures RangeMatch(selection).None? && ',' !in selection && '*' !in selection && !AllDigits(selection)
  {
    KeywordPlain(Lower(selection));
    LowerKeeps(selection, '-');
    LowerKeeps(selection, ',');
    LowerKeeps(selection, '*');
    if AllDigits(selection) {
      LowerDigits(selection);
    }
  }

  /** A category keyword, in any case, keeps exactly the files whose
      lower-cased extension lies in that category, in list order. */
  lemma CategoryKeyword(selection: string, files: seq<FileRecord>)
    requires Lower(selection) in VideoKeywords + ArchiveKeywords
    ensures Lower(selection) in VideoKeywords ==>
      Resolve(selection, files) == Filter(files, InCategory(VideoExtensions))
    ensures Lower(selection) in ArchiveKeywords ==>
      Resolve(selection, files) == Filter(files, InCategory(ArchiveExtensions))
  {
    CategoryClassify(selection);
    if Lower(selection) in VideoKeywords {
      CategoryFilter(selection, VideoExtensions, files);
    } else {
      CategoryFilter(selection, ArchiveExtensions, files);
    }
  }

  /** A selection classified as a category keeps the files whose lower-cased
      extension lies in it. */
  lemma CategoryFilter(selection: string, exts: set<string>, files: seq<FileRecord>)
    requires Classify(selection) == Category(exts)
    ensures Resolve(selection, files) == Filter(files, InCategory(exts))
  {
    var c := Classify(selection);
    assert Resolve(selection, files) == Apply(c, files);
    assert Apply(c, files) == Filter(files, InCategory(exts));
  }

  /** A category keyword names its category's extensions. */
  lemma CategoryClassify(selection: string)
    requires Lower(selection) in VideoKeywords + ArchiveKeywords
    ensures Lower(selection) in VideoKeywords ==> Classify(selection) == Category(VideoExtensions)
    ensures Lower(selection) in ArchiveKeywords ==> Classify(selection) == Category(ArchiveExtensions)
  {
    KeywordPlain(Lower(selection));
    KeywordPassesEarlierCases(selection);
  }

  /** A bare extension never matches with its dot left off: since the
      extension of a name is empty or starts with a dot, `mkv` keeps exactly
      the names whose extension is `.mkv` up to case. */
  lemma BareExtensionMatch(e: string, name: string)
    requires e != "" && '.' !in e
    ensures ExtensionIs(name, e) <==> Lower(SplitExt(name)) == "." + e
  {
    var ext := SplitExt(name);
    if ext != "" {
      assert Lower(ext)[0] == '.';
    }
  }

  /** Lower-casing makes no dot. */
  lemma LowerNoDot(s: string)
    requires '.' !in s
    ensures '.' !in Lower(s)
  {
    forall i | 0 <= i < |s|
      ensures Lower(s)[i] != '.'
    {
      assert s[i] != '.';
    }
  }

  /** A word with no dot, comma or star, not a range, not all digits and no
      keyword, reaches the bare-extension case; `tar-gz` is such a word. */
  lemma ExtensionClassify(t: string)
    requires '.' !in t && ',' !in t && '*' !in t && RangeMatch(t).None? && !AllDigits(t)
    requires Lower(t) != "all" && Lower(t) !in VideoKeywords + ArchiveKeywords
    ensures Classify(t) == Extension(Lower(t))
  {
  }

  /** The test that the lower-cased extension of a name is `.` and `e`. */
  function DotExtension(e: string): FileRecord -> bool {
    (f: FileRecord) => Lower(SplitExt(f.name)) == "." + e
  }

  /** A selection classified as a bare extension keeps the files that pass
      the bare-extension test. */
  lemma ExtensionFilter(selection: string, e: string, files: seq<FileRecord>)
    requires Classify(selection) == Extension(e)
    ensures Resolve(selection, files) == Filter(files, HasExtension(e))
  {
    var c := Classify(selection);
    assert Resolve(selection, files) == Apply(c, files);
    assert Apply(c, files) == Filter(files, HasExtension(e));
  }

  /** For a non-empty extension without a dot, the bare-extension test is the
      dotted one. */
  lemma ExtensionAgree(e: string, files: seq<FileRecord>)
    requires e != "" && '.' !in e
    ensures Filter(files, HasExtension(e)) == Filter(files, DotExtension(e))
  {
    forall f | f in files
      ensures HasExtension(e)(f) == DotExtension(e)(f)
    {
      BareExtensionMatch(e, f.name);
    }
    FilterAgree(files, HasExtension(e), DotExtension(e));
  }

  /** Such a word keeps exactly the files whose extension is a dot and the
      word, up to case, in list order: `MKV` keeps `a.mkv` and drops `mkv`. */
  lemma ExtensionSelects(t: string, files: seq<FileRecord>)
    requires t != "" && '.' !in t && ',' !in t && '*' !in t && RangeMatch(t).None? && !AllDigits(t)
    requires Lower(t) != "all" && Lower(t) !in VideoKeywords + ArchiveKeywords
    ensures Resolve(t, files) == Filter(files, DotExtension(Lower(t)))
  {
    ExtensionClassify(t);
    ExtensionFilter(t, Lower(t), files);
    LowerNoDot(t);
    ExtensionAgree(Lower(t), files);
  }

  /** The empty selection is read as an empty extension: it keeps the files
      whose name has no extension or ends the extension at a bare dot. */
  lemma EmptySelection(files: seq<FileRecord>)
    ensures forall f :: f in Resolve("", files) <==>
      f in files && (SplitExt(f.name) == "" || SplitExt(f.name) == ".")
  {
    assert Classify("") == Extension("");
    forall f | f in files
      ensures ExtensionIs(f.name, "") <==> SplitExt(f.name) == "" || SplitExt(f.name) == "."
    {
      var ext := SplitExt(f.name);
      if |ext| == 1 {
        assert Lower(ext) == [LowerChar(ext[0])];
      }
    }
  }
}
