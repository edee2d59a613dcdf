/** The name key of the flat file records. `get_all_files_recursive` stores a
    file's name under `file_name` (quark_client.py:414-416), while the glob,
    category and extension cases of `parse_file_selection` read `file['name']`
    (quark_client.py:958, 967, 976, 985). As written, those cases raise
    `KeyError` on the first record they look at. `Selection.Resolve` is the
    intended behaviour, reading the name the record holds. */
module NameKey {
  import opened Wrappers
  import opened Text
  import opened Records
  import opened Seqs
  import opened Selection
  import opened SelectionProperties
  import opened Commands

  const NameKeyError: string := "KeyError: 'name'"

  /** `f[key]` for the string-valued name keys of a record built at
      quark_client.py:414-428: only `file_name` is present. */
  function NameField(f: FileRecord, key: string): Option<string> {
    if key == "file_name" then Some(f.name) else None
  }

  /** `[f for f in files if test(f[key])]`, stopping with `KeyError` at the
      first record without `key`. */
  function FilterByKey(files: seq<FileRecord>, key: string, test: string -> bool): (r: Result<seq<FileRecord>, string>)
    ensures r.Ok? <==> |files| == 0 || key == "file_name"
    ensures r.Err? ==> r.error == NameKeyError
    ensures r.Ok? ==> r.value == Filter(files, (f: FileRecord) => test(f.name))
  {
    if |files| == 0 then Ok([])
    else
      match NameField(files[0], key)
      case None => Err(NameKeyError)
      case Some(name) =>
        var rest := FilterByKey(files[1..], key, test);
        if rest.Err? then rest
        else if test(name) then Ok([files[0]] + rest.value)
        else rest
  }

  /** The cases of the chain that read a record's name. */
  predicate ReadsNames(s: Selector) {
    s.Glob? || s.Category? || s.Extension?
  }

  /** The cases of the chain with the name read under `key`. */
  function ApplyWithKey(sel: Selector, files: seq<FileRecord>, key: string): (r: Result<seq<FileRecord>, string>)
    ensures !ReadsNames(sel) ==> r == Ok(Apply(sel, files))
  {
    match sel
    case Glob(p) => FilterByKey(files, key, (n: string) => GlobMatch(p, n))
    case Category(exts) => FilterByKey(files, key, (n: string) => Lower(SplitExt(n)) in exts)
    case Extension(e) => FilterByKey(files, key, (n: string) => ExtensionIs(n, e))
    case _ => Ok(Apply(sel, files))
  }

  /** `parse_file_selection` with the name read under `key`: `"name"` as the
      source is written, `"file_name"` as the records are built. */
  function ResolveWithKey(selection: string, files: seq<FileRecord>, key: string): Result<seq<FileRecord>, string> {
    ApplyWithKey(Classify(selection), files, key)
  }

  /** The source as written. */
  function ResolveAsWritten(selection: string, files: seq<FileRecord>): Result<seq<FileRecord>, string> {
    ResolveWithKey(selection, files, "name")
  }

  /** As written, every selection that reaches a name-reading case fails on a
      non-empty list, and every other selection behaves as intended. */
  lemma AsWrittenFails(selection: string, files: seq<FileRecord>)
    ensures ReadsNames(Classify(selection)) && |files| > 0 ==> ResolveAsWritten(selection, files) == Err(NameKeyError)
    ensures !ReadsNames(Classify(selection)) || |files| == 0 ==> ResolveAsWritten(selection, files) == Ok(Resolve(selection, files))
  {
  }

  /** Reading the key the records carry gives `Apply` on every selector. */
  lemma CorrectedIsApply(sel: Selector, files: seq<FileRecord>)
    ensures ApplyWithKey(sel, files, "file_name") == Ok(Apply(sel, files))
  {
    match sel
    case Glob(p) =>
      var test := (n: string) => GlobMatch(p, n);
      FilterAgree(files, (f: FileRecord) => test(f.name), (f: FileRecord) => GlobMatch(p, f.name));
    case Category(exts) =>
      var test := (n: string) => Lower(SplitExt(n)) in exts;
      FilterAgree(files, (f: FileRecord) => test(f.name), InCategory(exts));
    case Extension(e) =>
      var test := (n: string) => ExtensionIs(n, e);
      FilterAgree(files, (f: FileRecord) => test(f.name), HasExtension(e));
    case _ =>
  }

  /** Reading the key the records carry gives `Selection.Resolve` on every
      selection. */
  lemma CorrectedIsResolve(selection: string, files: seq<FileRecord>)
    ensures ResolveWithKey(selection, files, "file_name") == Ok(Resolve(selection, files))
  {
    CorrectedIsApply(Classify(selection), files);
  }

  /** `*.mkv` is a glob. */
  lemma StarMkvIsGlob()
    ensures Classify("*.mkv") == Glob("*.mkv")
  {
    var s := "*.mkv";
    assert s[0] == '*' && ',' !in s;
    StarIsGlob(s);
  }

  /** `*.mkv` on one file `a.MKV`: the source raises `KeyError`, the intended
      resolver selects the file. */
  lemma GlobCounterexample(f: FileRecord)
    requires f.name == "a.MKV"
    ensures ResolveAsWritten("*.mkv", [f]) == Err(NameKeyError)
    ensures Resolve("*.mkv", [f]) == [f]
  {
    StarMkvIsGlob();
    AsWrittenFails("*.mkv", [f]);
    StarMkvExample();
    FilterKeepsEvery([f], (g: FileRecord) => GlobMatch("*.mkv", g.name));
  }

  /** Deleting the dash of `1-` leaves the digit `1`. */
  lemma DashIsIndex()
    ensures IsIndexSelection("1-")
  {
    assert Erase("1-", {',', '-'}) == "1";
  }

  /** `1-` is no range, no position list, no glob and no keyword. */
  lemma DashIsExtension()
    ensures Classify("1-") == Extension("1-")
  {
    assert Lower("1-") == "1-";
    assert IndexOf("1-", '-') == 1;
    assert RangeMatch("1-").None?;
    assert !AllDigits("1-");
    assert "1-" !in VideoKeywords && "1-" !in ArchiveKeywords;
  }

  /** `1-` is the kind of selection `cmd_save` sends to the resolver as
      positions (main.py:197-200), yet it reaches the bare-extension case, so
      as written the save command fails on any non-empty share. */
  lemma DashSelectionFails(files: seq<FileRecord>)
    requires |files| > 0
    ensures IsIndexSelection("1-")
    ensures ResolveAsWritten("1-", files) == Err(NameKeyError)
  {
    DashIsIndex();
    DashIsExtension();
    AsWrittenFails("1-", files);
  }
}
