/** The decision kernels of the command line: the depth of `cmd_list`
    (main.py:84-93) and, in `cmd_save` (main.py:194-245), the way a selection
    becomes the fid and token lists handed to the transfer, the choice of the
    target directory, and the result of the job. */
module Commands {
  import opened Wrappers
  import opened Text
  import opened Records
  import opened Seqs
  import opened Dicts
  import opened Selection
  import opened OwnStorage
  import opened Transfer

  const NothingSelected: string := "没有选择任何文件"
  const MissingDir: string := "目标目录不存在: "
  const NoTask: string := "创建转存任务失败"

  /** The default limit of `wait_task_complete`, in seconds. */
  const SaveTimeout: int := 300

  /** `args.depth if args.depth and args.depth > 0 else -1`: an absent, zero or
      negative depth means no limit. The result always passes the test
      `depth == -1 or depth > 0` of main.py:90, so the listing is always the
      recursive one. */
  function ListDepth(depth: Option<int>): (d: int)
    ensures d == -1 || d > 0
    ensures depth.Some? && depth.value > 0 ==> d == depth.value
    ensures depth.None? || depth.value <= 0 ==> d == -1
  {
    match depth
    case Some(n) => if n != 0 && n > 0 then n else -1
    case None => -1
  }

  /** The test of main.py:197: the selection is read as file positions when
      deleting every `,` and `-` leaves a non-empty digit string. */
  predicate IsIndexSelection(sel: string) {
    AllDigits(Erase(sel, {',', '-'}))
  }

  /** `[f.get('fid') or f.get('file_id') for f in files]`: both keys of a
      record hold its id. */
  function Fids(files: seq<FileRecord>): (r: seq<string>)
    ensures |r| == |files|
    ensures forall i :: 0 <= i < |files| ==> r[i] == files[i].fid
  {
    seq(|files|, i requires 0 <= i < |files| => files[i].fid)
  }

  /** No whitespace at either end. */
  predicate Trimmed(f: string) {
    |f| > 0 ==> !IsSpace(f[0]) && !IsSpace(f[|f| - 1])
  }

  /** `[f.strip() for f in parts]`. */
  function StripEach(parts: seq<string>): (r: seq<string>)
    ensures |r| == |parts|
    ensures forall i :: 0 <= i < |parts| ==> r[i] == Strip(parts[i])
    ensures forall f :: f in r ==> Trimmed(f)
  {
    seq(|parts|, i requires 0 <= i < |parts| => Strip(parts[i]))
  }

  /** Trimming comma-free fields leaves them comma-free. */
  lemma StripEachCommaFree(parts: seq<string>)
    requires forall i :: 0 <= i < |parts| ==> ',' !in parts[i]
    ensures forall f :: f in StripEach(parts) ==> ',' !in f
  {
    var fields := StripEach(parts);
    forall i | 0 <= i < |fields|
      ensures ',' !in fields[i]
    {
      assert ',' !in parts[i];
    }
  }

  /** `[f.strip() for f in sel.split(',') if f.strip()]` (main.py:203): the
      trimmed, non-empty comma-separated fields, in order, repeats kept. */
  function ListedFids(sel: string): (r: seq<string>)
    ensures forall f :: f in r ==> f != "" && ',' !in f && Trimmed(f)
  {
    var fields := StripEach(Split(sel, ','));
    StripEachCommaFree(Split(sel, ','));
    Filter(fields, (f: string) => f != "")
  }

  /** The fids `cmd_save` transfers (main.py:194-204): positions are resolved
      against the flat file list, anything else is a list of fids. */
  function SelectedFids(selection: string, files: seq<FileRecord>): seq<string> {
    var sel := Strip(selection);
    if IsIndexSelection(sel) then Fids(Resolve(sel, files)) else ListedFids(sel)
  }

  /** The token of the last listed record whose fid is `fid`, or `''` when no
      record has that fid. */
  function LastToken(files: seq<FileRecord>, fid: string): string
    decreases |files|
  {
    if |files| == 0 then ""
    else if files[|files| - 1].fid == fid then files[|files| - 1].shareFidToken
    else LastToken(files[..|files| - 1], fid)
  }

  /** The pairs `(fid, share_fid_token)` of the listed records. */
  function TokenPairs(files: seq<FileRecord>): (pairs: seq<(string, string)>)
    ensures |pairs| == |files|
    ensures forall i :: 0 <= i < |files| ==> pairs[i] == (files[i].fid, files[i].shareFidToken)
  {
    seq(|files|, i requires 0 <= i < |files| => (files[i].fid, files[i].shareFidToken))
  }

  /** `fid_to_token.get(fid, '')` for the dictionary built at main.py:212. */
  function TokenOf(files: seq<FileRecord>, fid: string): string {
    var table := Assign(Present(TokenPairs(files)));
    if fid in table then table[fid] else ""
  }

  /** The share tokens sent with the fids (main.py:212-213): one per fid. */
  function Tokens(fids: seq<string>, files: seq<FileRecord>): (ts: seq<string>)
    ensures |ts| == |fids|
    ensures forall i :: 0 <= i < |fids| ==> ts[i] == LastToken(files, fids[i])
  {
    forall i | 0 <= i < |fids|
      ensures TokenOf(files, fids[i]) == LastToken(files, fids[i])
    {
      TokenOfIsLast(files, fids[i]);
    }
    seq(|fids|, i requires 0 <= i < |fids| => TokenOf(files, fids[i]))
  }

  /** The table of the listed records is the table of all but the final
      record, updated with the final record's pair. */
  lemma TableAppend(files: seq<FileRecord>)
    requires |files| > 0
    ensures Assign(Present(TokenPairs(files))) ==
      Assign(Present(TokenPairs(files[..|files| - 1])))[files[|files| - 1].fid := files[|files| - 1].shareFidToken]
  {
    var ps := Present(TokenPairs(files));
    assert ps[..|ps| - 1] == Present(TokenPairs(files[..|files| - 1]));
  }

  /** The dictionary lookup agrees with the last-record reference. */
  lemma {:induction false} TokenOfIsLast(files: seq<FileRecord>, fid: string)
    ensures TokenOf(files, fid) == LastToken(files, fid)
    decreases |files|
  {
    if |files| > 0 {
      TableAppend(files);
      TokenOfIsLast(files[..|files| - 1], fid);
    }
  }

  /** What `cmd_save` hands to `save_files`. */
  datatype SavePlan = SavePlan(fids: seq<string>, tokens: seq<string>, target: string)

  /** main.py:194-223 on the flat file list `files` of the share and the
      listing `root` of the user's drive. */
  function PlanSave(selection: string, files: seq<FileRecord>, root: seq<DirItem>, toDir: string): (r: Result<SavePlan, string>)
    ensures SelectedFids(selection, files) == [] ==> r == Err(NothingSelected)
    ensures r.Ok? ==> r.value.fids == SelectedFids(selection, files) && r.value.fids != []
    ensures r.Ok? ==> |r.value.tokens| == |r.value.fids|
    ensures r.Ok? ==> forall i :: 0 <= i < |r.value.fids| ==> r.value.tokens[i] == LastToken(files, r.value.fids[i])
    ensures SelectedFids(selection, files) != [] && "/" <= toDir ==>
      (r.Ok? <==> GetDirByPath(root, toDir).Some?)
    ensures r.Ok? && "/" <= toDir ==> Some(r.value.target) == GetDirByPath(root, toDir)
    ensures r.Ok? && !("/" <= toDir) ==> r.value.target == toDir
    ensures SelectedFids(selection, files) != [] && r.Err? ==> r.error == MissingDir + toDir
  {
    var fids := SelectedFids(selection, files);
    if fids == [] then Err(NothingSelected)
    else
      var tokens := Tokens(fids, files);
      if "/" <= toDir then
        match GetDirByPath(root, toDir)
        case None => Err(MissingDir + toDir)
        case Some(id) => Ok(SavePlan(fids, tokens, id))
      else Ok(SavePlan(fids, tokens, toDir))
  }

  /** The result object of main.py:239-245. */
  datatype JobResult = JobResult(status: string, taskId: string, fileCount: nat, targetDir: string)

  /** main.py:231-245: an empty task id fails the command; otherwise the job
      is awaited with the default limit and succeeds exactly when the wait
      ends on a completed poll. */
  method FinishSave(plan: SavePlan, toDir: string, taskId: string, answers: nat -> TaskData, elapsed: nat -> real)
    returns (r: Result<JobResult, string>)
    requires Clock(elapsed)
    ensures r.Err? <==> taskId == ""
    ensures r.Err? ==> r.error == NoTask
    ensures r.Ok? ==> (r.value.status == "success" <==> Outcome(answers, elapsed, SaveTimeout, 0).0)
    ensures r.Ok? ==> r.value.status == "success" || r.value.status == "error"
    ensures r.Ok? ==> r.value.taskId == taskId && r.value.fileCount == |plan.fids| && r.value.targetDir == toDir
  {
    if taskId == "" {
      return Err(NoTask);
    }
    var ok, polls, trace := WaitTaskComplete(answers, elapsed, SaveTimeout, false);
    r := Ok(JobResult(if ok then "success" else "error", taskId, |plan.fids|, toDir));
  }
}
