# QuarkPan transfer client: a Dafny model of its decision logic

QuarkPan is a command-line client for Quark Drive share links. It reads a
share link, lists the files of the share, lets the user pick files with a
small selection language, transfers the picked files into a folder of the
user's own drive and waits for the transfer job to finish. This project
models the pure decision logic of that client and proves what it does:

- **Selection language** (`Selection`, `SelectionProperties`): `parse_file_selection`.
  It is a priority-ordered chain of cases: `all`, a whole-string range `a-b`,
  a comma or digit list of positions, a `*` glob, a video or archive keyword,
  a bare extension, and a fall-through to nothing.
- **Share walks** (`ShareTree`, `ShareTreeProperties`):
  - the flat file list of `get_all_files_recursive`;
  - the folder tree of `get_folder_tree`.

  A share is an inductive tree of raw listing entries, and each folder carries
  the listing the server would return for it.
- **Transfer jobs** (`Transfer`, `TransferProperties`):
  - `check_task_status` normalises the job's status codes;
  - `wait_task_complete` is the polling loop.

  The server's answers and the clock are parameters.
- **The user's own drive** (`OwnStorage`, `OwnStorageProperties`):
  - the directory index of `get_user_dirs`;
  - the path lookup of `get_dir_by_path`.
- **Share links** (`ShareUrl`, `ShareUrlProperties`): `parse_share_url`.
- **Cookie strings** (`Cookies`, `CookiesProperties`, `Dicts`): the `;`/`=`
  parser of `set_cookie`, which the client repeats when it loads cookies.
- **Error messages** (`ErrorMessages`, `ErrorMessagesProperties`): the
  substring rules that name the failure of `get_stoken`, `save_files` and
  `create_dir`.
- **Command kernels** (`Commands`, `CommandsProperties`):
  - the depth option of `list`;
  - in `save`: the path from a selection to the fid and token lists, the
    target folder, and the job result.
- **Name key** (`NameKey`): the key under which the selection language reads
  a file's name, which the records do not carry (see Findings).

`Wrappers`, `Text`, `Seqs` and `Records` hold the shared vocabulary:
- `Option` and `Result`;
- ASCII models of `str.strip`, `str.split`, `str.lower`, `str.isdigit`, `int`
  and `sub in s`;
- order-preserving filtering and `dict.fromkeys`;
- the file record.

Two behaviours follow the code where the save helper's help text suggests
otherwise (save_helper.py:63-69, repeated at :81-87):
- **Unanchored globs:** the help text reads `*.mkv` as "all mkv files". The
  glob regex is applied with `re.match` and no end anchor, so `*.mkv` also
  keeps `a.mkv.txt` (`SelectionProperties.StarMkvKeepsInner`).
- **Extension lists:** the help text offers `mkv,pdf,mp4` to pick files by
  extension. A comma sends the selection to the position-list case, where
  letter tokens give no position, so it selects nothing
  (`SelectionProperties.ExtensionListSelectsNothing`).

The path lookup of `get_dir_by_path` looks each segment up among all folders
below the current one, not only its direct children, so `/b` finds a folder
`b` nested inside `a` (`OwnStorageProperties.NestedFound`); after the first
segment it looks only below the folder it entered
(`OwnStorageProperties.SiblingMissed`).

## Model

| member | source | states |
|---|---|---|
| Records.Alias | quark_client.py:411-412 | An id or name alias reads the first key when it holds a non-empty string, and the second key otherwise (Python's `a or b`). |
| Text.Strip | quark_client.py:265 | `str.strip` gives a slice of the input. Only whitespace lies outside the slice, and the result neither starts nor ends with whitespace. |
| Text.Split | quark_client.py:936 | `str.split(sep)` gives at least one piece. No piece holds the separator, and joining the pieces with it gives back the string. |
| Text.SplitJoin | quark_client.py:936 | Splitting a join of separator-free pieces gives the pieces back: `split` is the inverse of `join`. |
| Text.Erase | main.py:197 | Erasing `,` and `-` with `replace` keeps exactly the characters not erased. |
| Text.ContainsOccurs | quark_client.py:326 | The left-to-right scan for `sub in s` succeeds exactly when `sub` occurs at some index of `s`. |
| Seqs.Filter | quark_client.py:957-959 | The filtering loops keep exactly the elements that pass the test, in their original order. |
| Seqs.FilterCounts | quark_client.py:957-959 | Filtering keeps each element that passes the test as often as the input holds it, and no element that fails. |
| Seqs.Dedup | quark_client.py:947 | `dict.fromkeys` keeps every value once, and nothing else. The values stay in the order of their first occurrences. |
| Seqs.DedupKeepsDistinct | quark_client.py:947 | A list without repeats is its own de-duplication. |
| Seqs.DedupAppend | quark_client.py:947 | Appending a value already seen changes nothing; a new value goes last. |
| Seqs.DistinctPositionsBounded | quark_client.py:947-951 | Distinct positions in `1..n` number at most `n`, so the list case never picks more files than there are. |
| Selection.RangeMatch | quark_client.py:920 | The whole-string range syntax accepts only digits, one dash and a final newline. |
| Selection.RangeMatchExact | quark_client.py:920-923 | The range syntax matches exactly the texts that are two non-empty digit runs joined by one dash, apart from one final newline, and then reads the two runs as its bounds. |
| Selection.RangeOfDigits | quark_client.py:920-923 | Two digit runs joined by one dash read as the two numbers they spell. |
| Selection.RangeMatchNewline | quark_client.py:920 | `$` also accepts one final newline, so `a-b\n` reads as `a-b`. |
| Selection.RangeMatchDecimal | quark_client.py:920-923 | Writing `a` and `b` as `a-b` and reading it back gives `(a, b)`, with or without a final newline. |
| Selection.Interval | quark_client.py:926 | `range(start, end + 1)` counts up from `start` and is empty when `start > end`. |
| Selection.Clamp | quark_client.py:924-925 | A range bound is clamped into `1..len`: it is kept when already inside, becomes `len` when past the end, and becomes 1 when it is 0 or the list is empty. |
| Selection.SplitExt | quark_client.py:967 | `os.path.splitext` gives either no extension or the suffix from the last dot, which holds no other dot and no slash. The extension is that suffix exactly when some character other than a dot stands between the last slash and the last dot. |
| Selection.Pick | quark_client.py:949-951 | The list case takes files of the list only. |
| Selection.PickInRange | quark_client.py:949-951 | Positions that are all in range pick one file each, in the order the positions are written. |
| Selection.RangeSlice | quark_client.py:924-929 | The whole-string range clamps both ends into `1..len` and takes the inclusive slice between them. The slice is empty when the clamped start passes the clamped end, and an empty list gives nothing. |
| Selection.Apply | quark_client.py:916-990 | Every case returns files of the list and no more files than the list holds. |
| Selection.PickDistinct | quark_client.py:947-951 | De-duplicated positions pick at most as many files as the list holds. |
| Selection.Resolve | quark_client.py:902-990 | A selection returns files of the list and at most all of them. `all` in any letter case returns the whole list, and an empty list always gives nothing. |
| SelectionProperties.RangeFormIsRange | quark_client.py:916-923 | The text `a-b` is the whole-string range with the bounds `a` and `b`. |
| SelectionProperties.TrailingCommaNotRange | quark_client.py:920 | A trailing comma defeats the whole-string range syntax. |
| SelectionProperties.RangeTokenPositions | quark_client.py:940-944 | Inside a list, the token `a-b` names every position from `a` to `b`, unclamped. |
| SelectionProperties.EmptyTokenPositions | quark_client.py:936-944 | An empty token names no position. |
| SelectionProperties.ListFormIsPositions | quark_client.py:932-944 | `a-b,` is a list whose positions are `a..b`, not a range. |
| SelectionProperties.ResolvePositions | quark_client.py:932-952 | A list resolves to the files at its de-duplicated positions. |
| SelectionProperties.ResolveRange | quark_client.py:924-929 | A whole-string range resolves to its clamped slice. |
| SelectionProperties.RangeWithin | quark_client.py:924-929 | A range within bounds takes exactly the files `a..b`. |
| SelectionProperties.PickInterval | quark_client.py:949-951 | Positions `a..b` within bounds pick the slice `a..b`. |
| SelectionProperties.IntervalWithin | quark_client.py:944-951 | A list naming `a..b` within bounds takes the same slice. |
| SelectionProperties.RangeAgreesWithListForm | quark_client.py:920-951 | Within bounds, `a-b` and `a-b,` pick the same files: the slice `a..b`. |
| SelectionProperties.RangeBeyond | quark_client.py:924-925 | A whole-string range entirely past the end is clamped to the last file alone. |
| SelectionProperties.IntervalBeyond | quark_client.py:944-951 | A list naming only positions past the end takes nothing. |
| SelectionProperties.RangeClampsListDrops | quark_client.py:924-951 | Past the end the two forms part: `a-b` clamps to the last file, while `a-b,` drops every position. |
| SelectionProperties.PickNoneInRange | quark_client.py:949-951 | Positions all past the end pick nothing. |
| SelectionProperties.TwentyToThirtyOnTen | quark_client.py:920-952 | On ten files, `20-30` yields the tenth file alone and `20-30,` yields nothing. |
| SelectionProperties.CommaSelectsPositions | quark_client.py:932-933 | Any selection holding a comma is a list of positions. It never reaches the glob, keyword or extension cases. |
| SelectionProperties.ListPositionsNone | quark_client.py:934-944 | Tokens that name no position contribute none. |
| SelectionProperties.DigitToken | quark_client.py:937-938 | A one-digit token names that position. |
| SelectionProperties.ListPositionsDigits | quark_client.py:934-938 | One-digit tokens contribute their digits in the order written. |
| SelectionProperties.ResolveTokens | quark_client.py:932-952 | A comma-joined list of tokens resolves through the positions its tokens name. |
| SelectionProperties.NoPositionsSelectNothing | quark_client.py:932-952 | A comma-joined list whose tokens name no position selects nothing. |
| SelectionProperties.LettersNoPositions | quark_client.py:936-944 | A token of letters and digits that starts with a letter names no position. |
| SelectionProperties.LetterTokensNoPositions | quark_client.py:934-944 | Such tokens together name no positions. |
| SelectionProperties.LetterTokensSelectNothing | quark_client.py:932-952 | Extension names joined by commas select nothing, because the list case reads only numbers and ranges. |
| SelectionProperties.ExtensionListSelectsNothing | quark_client.py:932-952 | `mkv,pdf,mp4`, the selection the save helper's prompt suggests, selects nothing on any list. |
| SelectionProperties.StarIsGlob | quark_client.py:955 | A selection with `*` and no comma is a glob. |
| SelectionProperties.DottedIsNothing | quark_client.py:980-990 | A selection with a dot, no comma and no `*` falls through every case. |
| SelectionProperties.DottedSelectsNothing | quark_client.py:980-990 | Such a selection, `.mkv` for instance, selects nothing. |
| SelectionProperties.DedupRepeat | quark_client.py:947 | A position written again later is kept once, at its first place. |
| SelectionProperties.RepeatedPositionOnce | quark_client.py:947 | The positions `1,3,1,9` de-duplicate to `1,3,9`. |
| SelectionProperties.BeyondEndDropped | quark_client.py:949-951 | Of the positions 1, 3 and 9 on five files, 9 is dropped. |
| SelectionProperties.DigitTokensResolve | quark_client.py:932-952 | One-digit tokens joined by commas pick the files at their digits, each once, in the order written. |
| SelectionProperties.PositionListExample | quark_client.py:932-952 | `1,3,1,9` on five files gives the first and third files. |
| SelectionProperties.ReversedPick | quark_client.py:949-951 | The positions 3 then 1 pick in that order. |
| SelectionProperties.PositionOrderExample | quark_client.py:932-952 | `3,1` gives the third file, then the first: the order of the positions, not the order of the list. |
| SelectionProperties.GlobLiteral | quark_client.py:956-958 | A pattern without `*` matches exactly the names that begin with it, ignoring ASCII case. |
| SelectionProperties.StarMatchLiteral | quark_client.py:956-958 | `.*` followed by a literal matches exactly when the literal occurs, up to case, before the first newline of the name. |
| SelectionProperties.StarMatchSpec | quark_client.py:956-958 | `.*` followed by a pattern matches exactly when the pattern matches the rest of the name after some run of characters without a newline. |
| SelectionProperties.GlobPrefix | quark_client.py:956-958 | A pattern that begins with a literal run matches exactly when the name begins with that run, up to ASCII case, and the rest of the pattern matches the rest of the name. |
| SelectionProperties.StarThenLiteral | quark_client.py:955-959 | `*` then a literal keeps exactly the names holding the literal on their first line. The end of the name is not anchored. |
| SelectionProperties.StarMkvKeepsUpper | quark_client.py:955-959 | `*.mkv` keeps `a.MKV`: the match ignores case. |
| SelectionProperties.StarMkvKeepsInner | quark_client.py:955-959 | `*.mkv` keeps `a.mkv.txt`: the end is not anchored. |
| SelectionProperties.StarMkvDropsAvi | quark_client.py:955-959 | `*.mkv` drops `b.avi`. |
| SelectionProperties.StarMkvExample | quark_client.py:955-959 | The three glob cases above together. |
| SelectionProperties.KeywordPlain | quark_client.py:962-971 | No keyword is `all` or holds a dash, comma or star, and no keyword is only digits. The archive and video keywords are disjoint. |
| SelectionProperties.KeywordPassesEarlierCases | quark_client.py:916-962 | A keyword, in any case, gets past the range, list and glob cases. |
| SelectionProperties.CategoryClassify | quark_client.py:962-971 | A video keyword names the video extensions, and an archive keyword the archive extensions. |
| SelectionProperties.CategoryFilter | quark_client.py:962-979 | A category keeps, in list order, exactly the files whose lower-cased extension lies in it. |
| SelectionProperties.CategoryKeyword | quark_client.py:962-979 | A keyword in any case keeps exactly the files whose lower-cased extension is in its category, so `zip` also keeps `.rar` and `.tar`. |
| SelectionProperties.BareExtensionMatch | quark_client.py:985-986 | An extension is never matched without its dot: `mkv` keeps exactly the names whose extension is `.mkv`, up to case. |
| SelectionProperties.ExtensionClassify | quark_client.py:981-983 | A word with no dot, comma or star that is no range, not all digits and no keyword is a bare extension; dashed words such as `tar-gz` included. |
| SelectionProperties.ExtensionFilter | quark_client.py:981-988 | A bare extension keeps the files that pass the extension test, in list order. |
| SelectionProperties.ExtensionAgree | quark_client.py:985-986 | For a non-empty, dot-free extension the two-way test equals the dotted test. |
| SelectionProperties.ExtensionSelects | quark_client.py:981-988 | Such a word keeps exactly the files whose lower-cased extension is a dot followed by the lower-cased word. |
| SelectionProperties.EmptySelection | quark_client.py:981-988 | The empty selection keeps exactly the files with no extension or with a bare dot as extension. |
| ShareTree.Convert | quark_client.py:414-429 | A file record carries the entry's aliased id and name, its size and `share_fid_token`, and the id of the folder that listed it. |
| ShareTree.Flatten | quark_client.py:383-442 | Every failure of the flat walk is reported behind its own prefix. |
| ShareTree.FolderTree | quark_client.py:444-501 | A failure of the tree walk is reported behind its own prefix. The walk returns nothing exactly when the depth is past the limit, and otherwise returns a folder. The root `0` has no id and is labelled `根目录`; every other folder keeps its id and an empty label. |
| ShareTree.FilesHere | quark_client.py:409-432 | The files listed directly in a folder, converted, never more than the entries. |
| ShareTree.PlayFailure | quark_client.py:424 | The scan of a listing for `play_lua.get` finds nothing exactly when every entry's `play_lua` can be read. |
| ShareTreeProperties.FlattenMatchesTree | quark_client.py:383-501 | Within the depth limit, a flat walk that succeeds means the tree walk succeeds with a folder whose file leaves, in pre-order, are the flat list's files by id, name and size. When no entry read has an unreadable `play_lua`, the two walks fail together. |
| ShareTreeProperties.FlattenFromMatchesTreeFrom | quark_client.py:409-437 | The same agreement, entry by entry, for the rest of a listing. |
| ShareTreeProperties.FlattenFailsIff | quark_client.py:405-442 | The flat walk fails exactly when a listing it requests fails or an entry it reads has an unreadable `play_lua`. A listing below the depth limit is never requested. |
| ShareTreeProperties.FlattenFromFailsIff | quark_client.py:409-437 | The same, entry by entry. |
| ShareTreeProperties.TreeFailsIff | quark_client.py:460-501 | Within the limit, the tree walk fails exactly when a listing it requests fails; `play_lua` plays no part. |
| ShareTreeProperties.TreeFromFailsIff | quark_client.py:474-496 | The same, entry by entry. |
| ShareTreeProperties.MeetsEither | quark_client.py:409-440 | The flat walk meets a mishap exactly when it meets a failed listing or an unreadable `play_lua`. |
| ShareTreeProperties.MeetsFromEither | quark_client.py:409-440 | The same, entry by entry. |
| ShareTreeProperties.ShallowFlatten | quark_client.py:431-436 | At the depth limit the flat walk lists this folder's own files, or fails on the first entry whose `play_lua` cannot be read. No folder below can make it fail. |
| ShareTreeProperties.ShallowFrom | quark_client.py:409-437 | The same, for the rest of a listing. |
| ShareTreeProperties.ShallowTree | quark_client.py:460-496 | At the depth limit the tree walk succeeds with a folder whose file leaves are this folder's own files. |
| ShareTreeProperties.ShallowTreeFrom | quark_client.py:474-496 | The same, for the rest of a listing. |
| ShareTreeProperties.RootOnly | quark_client.py:383-501 | With `max_depth = 0` the flat walk gives the root's files in order, or the first unreadable `play_lua` behind its prefix. The tree succeeds and holds the same files. |
| ShareTreeProperties.UnreadablePlay | quark_client.py:424-440 | A file whose `play_lua` has no `get` makes the flat walk fail with the `AttributeError` text behind its prefix, while the tree walk succeeds. |
| ShareTreeProperties.FlattenSites | quark_client.py:405-437 | A successful flat walk is the record of every file it meets, in pre-order, each built under the id of the folder whose listing held it, with the entry's size and `share_fid_token`. |
| ShareTreeProperties.FlattenFromSites | quark_client.py:409-437 | The same, entry by entry. |
| ShareTreeProperties.SitesMembers | quark_client.py:409-437 | The files met are exactly those listed in the folder itself, under its id, and those met below the folders entered, under theirs. |
| ShareTreeProperties.SitesFromMembers | quark_client.py:409-437 | The same, for the rest of a listing. |
| ShareTreeProperties.NestedRecord | quark_client.py:405-437 | A file inside a top-level folder is recorded with that folder's id as `pdir_fid`, and with its own size and `share_fid_token`. |
| Transfer.Code | quark_client.py:601-607 | Every known state has a status number from 0 to 4. |
| Transfer.Outcome | quark_client.py:631-653 | The wait, as a recursive reference definition, never goes back in the count of polls. |
| Transfer.OutcomeFacts | quark_client.py:631-653 | The wait facts hold for the reference definition: every poll starts before the timeout, and only the last can see a terminal state. It succeeds exactly when the last poll saw completion, and it stops on a terminal state or the timeout. |
| Transfer.WaitEnds | quark_client.py:616-653 | The same facts for the whole wait. A timeout of 0 or less means no poll and `False`. |
| Transfer.WaitTaskComplete | quark_client.py:616-653 | The loop computes the reference outcome with the facts above. With a callback, it reports every poll's progress, state and message in order, the terminal one included; without one it reports nothing. |
| TransferProperties.NonTerminalTimesOut | quark_client.py:631-653 | A job that never ends makes the wait give up with `False` at the first test that finds the time used up. |
| TransferProperties.FailureOnThirdPoll | quark_client.py:631-646 | `pending`, `processing`, then `failed` ends the wait with `False` after three polls. |
| TransferProperties.TimeoutAfterThreePolls | quark_client.py:631-653 | A job still processing at a 5-second limit, polled every 2 seconds, is polled three times. |
| OwnStorage.ChildPath | quark_client.py:687 | A folder's path is its parent's path, a slash and its name; at the top level it is a slash and the name. |
| OwnStorage.Folders | quark_client.py:685-695 | The index walks only folders: each one followed by the folders inside it. |
| OwnStorage.UserDirs | quark_client.py:655-697 | The index holds one record per folder, in pre-order, each with that folder's id and name. Each record's path and parent id are those of the place the walk reached the folder, and every path extends the prefix. |
| OwnStorage.PlacedFolders | quark_client.py:685-695 | The places the walk visits are exactly the folders, one each, in pre-order. |
| OwnStorage.Segments | quark_client.py:772 | The segments are exactly the non-empty pieces of the path split at `/`, in their order and each as often as it occurs, so `/a/a` has two. None is empty or holds a slash. |
| OwnStorage.FirstNamed | quark_client.py:778-782 | The lookup takes the first record carrying the name, or none when no record does. |
| OwnStorage.GetDirByPath | quark_client.py:769-786 | A path without segments is the root `0`; any other path is walked from the root, segment by segment. |
| OwnStorage.RootPathsEmpty | quark_client.py:769-772 | `''` and `/` have no segments. |
| OwnStorageProperties.FoldersNested | quark_client.py:685-695 | The folders inside an indexed folder are themselves indexed. |
| OwnStorageProperties.TopPlaced | quark_client.py:685-695 | A top-level folder is visited with the given parent id and prefix, after the folders that come before it. |
| OwnStorageProperties.PlacedAfter | quark_client.py:685-695 | The same, counted by the places the earlier items take. |
| OwnStorageProperties.PlacedInside | quark_client.py:685-695 | Right after each visited folder come the places inside it, with that folder as parent id and its path as prefix. |
| OwnStorageProperties.WalkStep | quark_client.py:775-782 | A segment that is found enters an indexed folder carrying its name, and the walk goes on from that folder. |
| OwnStorageProperties.WalkEnd | quark_client.py:775-786 | A successful walk ends on an indexed folder carrying the last segment's name. |
| OwnStorageProperties.WalkSound | quark_client.py:775-786 | The same, stated as the existence of that folder. |
| OwnStorageProperties.WalkUnknown | quark_client.py:783-784 | A walk fails as soon as a segment names no folder of the listing. |
| OwnStorageProperties.ResolveSound | quark_client.py:759-786 | A resolved path is the root or names a folder of the index that carries the last segment's name. |
| OwnStorageProperties.ResolveUnknown | quark_client.py:775-784 | A name that no folder of the drive carries makes the lookup fail, wherever it stands in the path. |
| OwnStorageProperties.SingleSegment | quark_client.py:772 | `/name` has the one segment `name`. |
| OwnStorageProperties.FoundAt | quark_client.py:776-782 | A one-segment walk ends on the first indexed folder carrying that name. |
| OwnStorageProperties.NestedFound | quark_client.py:775-782 | `/b` finds `b` even when it sits inside `a`: a segment is looked up among all folders below, not only the direct children. |
| OwnStorageProperties.WalkHit | quark_client.py:776-782 | When the first folder below carrying the first segment's name is found, the walk goes on inside that folder with the other segments. |
| OwnStorageProperties.TwoSegments | quark_client.py:772 | `/x/y` has the segments `x` and `y`. |
| OwnStorageProperties.DeepFound | quark_client.py:769-786 | `/a/b` finds `b` inside `a`. |
| OwnStorageProperties.SiblingMissed | quark_client.py:775-786 | After the first segment the lookup searches only below the folder it entered: with `a` holding `x` and a sibling `b`, `/b/x` finds nothing. |
| OwnStorageProperties.NestedPaths | quark_client.py:655-697 | A folder `b` inside `a` is indexed after `a`, with the path `/a/b` and `a` as parent. |
| ShareUrl.IdRun | quark_client.py:268 | The share id is the longest leading run of `[a-zA-Z0-9_-]`. |
| ShareUrl.AfterPrefix | quark_client.py:268 | The link must start with `https://pan.quark.cn/s/` or `http://pan.quark.cn/s/`. What follows is the rest of the link. |
| ShareUrl.UntilAmp | quark_client.py:276 | `[^&]+` takes a prefix of the text up to its first `&`. |
| ShareUrl.FindPassword | quark_client.py:276-278 | The password found holds no `&`. |
| ShareUrl.ParseShareUrl | quark_client.py:255-283 | The parse fails with `无效的夸克分享链接格式` exactly when the trimmed link lacks the prefix or an id character after it. On success the id is non-empty, made of id characters, and the password holds no `&`. |
| ShareUrlProperties.FindPasswordSkips | quark_client.py:276 | The search skips text that holds no `?` and no `&`. |
| ShareUrlProperties.FindPasswordStep | quark_client.py:276 | No match starts at a character other than `?` and `&`. |
| ShareUrlProperties.FindPasswordSpec | quark_client.py:275-278 | The search finds nothing exactly when no `?pwd=` or `&pwd=` followed by a non-`&` character occurs. Otherwise it returns the value of the leftmost one, up to the next `&`. |
| ShareUrlProperties.FindPasswordShift | quark_client.py:276 | The search reads a suffix the same wherever the suffix stands. |
| ShareUrlProperties.PasswordAfterId | quark_client.py:276-278 | The `?pwd=` after the id is the first match, and its value is the code. |
| ShareUrlProperties.PrefixFound | quark_client.py:268 | After either prefix comes exactly what was appended to it. |
| ShareUrlProperties.RoundTrip | quark_client.py:255-283 | A link built from an id and a code parses back to that id and code. The id must be made of id characters and the code must be non-empty, hold no `&` and not end in whitespace. |
| ShareUrlProperties.LinkTrimmed | quark_client.py:265 | Such a link is left alone by `strip`. |
| ShareUrlProperties.IdBeforeQuery | quark_client.py:268-272 | The id of a link with a query is everything before the `?`. |
| ShareUrlProperties.IdRunStops | quark_client.py:268 | The id run stops exactly where the first non-id character follows the id. |
| ShareUrlProperties.MarkFree | quark_client.py:275-278 | Text with no `?` and no `&` yields the empty password. |
| ShareUrlProperties.NoPasswordParameter | quark_client.py:275-278 | A link made of the prefix and an id has no password parameter. |
| ShareUrlProperties.IdLinkTrimmed | quark_client.py:265 | The prefix followed by a non-empty id is left alone by `strip`. |
| ShareUrlProperties.NoCodeNoPassword | quark_client.py:255-283 | A link without a password parameter parses to its id and the empty password. |
| ShareUrlProperties.QueryLink | quark_client.py:255-283 | A link of a prefix, an id and a tail starting with a non-id character parses to that id and the password the search finds in the tail. |
| ShareUrlProperties.LinkShape | quark_client.py:265-268 | Such a link is left alone by `strip`, and after its prefix come the id and the tail. |
| ShareUrlProperties.HeadSkipped | quark_client.py:276 | The search passes over the prefix and the id. |
| ShareUrlProperties.LaterPasswordParameter | quark_client.py:275-278 | `?x=1&pwd=zz` after the id gives the password `zz`. |
| ShareUrlProperties.FirstPasswordWins | quark_client.py:275-278 | `?pwd=a&pwd=b` gives the password `a`: the first parameter wins. |
| ShareUrlProperties.UntilAmpStops | quark_client.py:276 | `[^&]+` stops at the first `&`. |
| ShareUrlProperties.ForeignHostRejected | quark_client.py:265-270 | A link that does not start with either prefix after trimming is rejected as invalid. |
| Cookies.Pair | set_cookie.py:34 | A piece is cut at the first `=` of its trimmed text. The key holds no `=`, and key, `=` and value together give back the trimmed piece. |
| Cookies.Pieces | set_cookie.py:32-34 | The loop reads one contribution per `;`-separated piece, in order: the piece's own cut (`Cookies.Pair`), or nothing. |
| Cookies.CookieCount | set_cookie.py:42 | The count printed is the number of distinct keys the pieces set. |
| CookiesProperties.NoEqualsNoCookies | set_cookie.py:32-33 | A string without `=` sets no cookie, so the count printed is 0. |
| CookiesProperties.PairRender | set_cookie.py:34 | `key=value` is cut back into the key and the value. This holds when the value holds `=`, and when the key ends or the value starts with spaces. |
| CookiesProperties.SpacesStayInside | set_cookie.py:34 | `a = b` sets the key `a ` to the value ` b`. |
| CookiesProperties.ValueKeepsEquals | set_cookie.py:34 | `a=b=c` sets `a` to `b=c`. |
| CookiesProperties.PiecesOfRendered | set_cookie.py:32-34 | Rendered pairs joined with `;` contribute exactly those pairs, in order. |
| CookiesProperties.RoundTrip | set_cookie.py:32-35 | Pairs written `k=v` and joined with `;` read back as a dictionary holding exactly their keys. Each key holds the value of its last pair. |
| Dicts.KeysExact | set_cookie.py:32-35 | A key is listed exactly when some piece sets it. |
| Dicts.AssignLastWins | set_cookie.py:32-35 | The dictionary holds exactly the keys some piece sets, each with the value of the last piece that sets it. |
| Dicts.CountIsDistinctKeys | set_cookie.py:35-42 | The dictionary has one entry per distinct key set. |
| Dicts.AssignPresent | main.py:212 | Built from pairs, the dictionary holds their keys, each with the value of its last pair. |
| ErrorMessages.ErrorText | quark_client.py:325 | A present `message` wins even when empty. Otherwise `msg` is used, and `未知错误` when neither is present. |
| ErrorMessages.StokenError | quark_client.py:324-328 | `提取码错误` is raised exactly when the text holds `密码` or `passcode`; otherwise the text is reported behind `获取 stoken 失败: `. |
| ErrorMessages.SaveError | quark_client.py:550-554 | `网盘容量不足` is raised exactly when the text holds `容量` or `空间`, or `space` in any case; otherwise the text is reported behind `转存失败: `. |
| ErrorMessages.CreateDirError | quark_client.py:737-741 | `目录已存在` is raised exactly when the text holds `存在`; otherwise the text is reported behind `创建目录失败: `. |
| ErrorMessagesProperties.SpaceAnyCase | quark_client.py:552 | `SPACE`, `Space` or any other spelling of `space` reports a full drive. |
| ErrorMessagesProperties.UnknownHasNoKeyword | quark_client.py:325-327 | The fallback text `未知错误` holds none of the keywords. |
| ErrorMessagesProperties.NoTextFallsThrough | quark_client.py:325-328 | A rejection without `message` or `msg` is reported by all three methods as their prefix and `未知错误`. |
| ErrorMessagesProperties.EmptyMessageWins | quark_client.py:325-328 | An empty `message` hides `msg` and names no cause. |
| Commands.ListDepth | main.py:84-93 | An absent, zero or negative depth means no limit, and a positive depth is kept. The result always passes the test at line 90, so the other branch is unreachable. |
| Commands.Fids | main.py:201 | The fid list has one entry per selected file: that file's fid. |
| Commands.StripEach | main.py:204 | Every field is trimmed. |
| Commands.ListedFids | main.py:204 | Every listed fid is non-empty, trimmed and comma-free. |
| Commands.Tokens | main.py:212-213 | There is one token per fid: that of the last listed record carrying it, or empty. |
| Commands.TokenPairs | main.py:212 | The dictionary is built from one `(fid, share_fid_token)` pair per listed record, in list order. |
| Commands.TokenOfIsLast | main.py:212-213 | The dictionary lookup agrees with the last-record reference definition. |
| Commands.PlanSave | main.py:194-223 | An empty fid list stops the command. Otherwise the fids are the selected ones, with one aligned token each. A target starting with `/` is resolved on the drive, and the command stops exactly when it is missing; any other target is used as given. |
| Commands.FinishSave | main.py:231-245 | An empty task id is an error. Otherwise the status is `success` exactly when the wait, with the default limit of 300 seconds, ends on completion; the file count is that of the plan, and the target reported is `to_dir` as the user gave it. |
| CommandsProperties.ListedFidsOfJoin | main.py:204 | Splitting a comma join of trimmed, comma-free fids and trimming gives the fids back. |
| CommandsProperties.FidListRoundTrip | main.py:194-204 | Fids written with commas are read back one by one, in order and with repeats, unless the whole is a position list. |
| CommandsProperties.DigitsToken | quark_client.py:937-938 | A digit string names the position it spells. |
| CommandsProperties.DigitsListPositions | quark_client.py:934-938 | A digit string is one token and one position. |
| CommandsProperties.DigitsClassify | quark_client.py:932-933 | A digit string falls into the list case. |
| CommandsProperties.DigitsResolve | quark_client.py:932-952 | A digit string selects the file at its position. |
| CommandsProperties.DigitsAreIndex | main.py:194-197 | A digit string is trimmed and reads as a position list. |
| CommandsProperties.DigitFidSelectsNothing | main.py:197-201 | A digit-only fid is read as a position, so past the end of the list it selects nothing. |
| CommandsProperties.DigitFidIsPosition | main.py:197-209 | Such a fid makes the command stop before any transfer. |
| CommandsProperties.UnlistedNoToken | main.py:213 | A fid that no record carries gets the empty token. |
| CommandsProperties.LastRecordWins | main.py:212 | A fid gets the token of the last record carrying it. |
| CommandsProperties.RepeatedFidKept | main.py:204 | `a,a` transfers `a` twice: the fid branch keeps repeats. |
| NameKey.FilterByKey | quark_client.py:957-959 | Reading a key the record lacks raises `KeyError` on the first record. Reading `file_name` filters by the name. |
| NameKey.ApplyWithKey | quark_client.py:955-990 | The cases that do not read a name do not depend on the key. |
| NameKey.CorrectedIsApply | quark_client.py:955-990 | Reading the key the records carry gives the intended case on every selector. |
| NameKey.CorrectedIsResolve | quark_client.py:902-990 | Reading the key the records carry gives `Selection.Resolve` on every selection. |
| NameKey.AsWrittenFails | quark_client.py:955-990 | As written, a selection that reaches a name-reading case fails with `KeyError` on every non-empty list, and every other selection resolves as intended. |
| NameKey.StarMkvIsGlob | quark_client.py:955 | `*.mkv` is a glob. |
| NameKey.GlobCounterexample | quark_client.py:958 | On one file `a.MKV`, `*.mkv` raises `KeyError` as written, while the intended resolver selects the file. |
| NameKey.DashIsIndex | main.py:197 | `1-` passes the position test of the save command. |
| NameKey.DashIsExtension | quark_client.py:981-983 | `1-` is no range, list, glob or keyword, so it reaches the extension case. |
| NameKey.DashSelectionFails | main.py:197-200 | `1-` is sent to the resolver as positions, yet as written it fails on every non-empty share. |

## Left out

- HTTP, JSON decoding and response shapes (`_request`, `login`, the request building of `get_stoken`, `get_file_list`, `save_files` and `create_dir`): each listing, status answer and task id is a parameter.
- Pagination: a folder's listing is one given sequence, where the client asks for one page of 50 (shares) or 100 (own drive) entries.
- The clock and `time.sleep`: the clock is a parameter that advances at least two seconds per poll.
- `format_size` and every rendering (`display_file_tree`, `display_files`, `display_file_tree_view`, the nested `display_recursive`, printing): their output is text for the terminal, and `format_size` uses floating point.
- Regex metacharacters other than `.` and `*` in a glob: they pass through unescaped and can raise `re.error`.
- Unicode: digits, whitespace and case folding are ASCII only.
- Records.Alias: an alias absent under both keys reads as the empty string, where Python gives `None`.
- Transfer.Normalise: floating-point status values such as `1.0`, which the status map also accepts, are not modelled.
- ErrorMessages.ErrorText: a non-string `message` or `msg` is not modelled.
- ErrorMessages.Rejected: the status test `status or code != 200` is kept as a predicate, with no separate contract.
- Transfer.CheckTaskStatus, Transfer.Normalise: their contracts are the empty-bodied lemmas `TransferProperties.StatusFallbacks`, `NormaliseReads` and `CodeRoundTrip`.
- OwnStorage.UserDirs: the drive is a tree in which the listing of a folder id is that folder's contents, and a failed listing reads as empty, since the source never checks the status.
- The save helper's interactive prompts, target-folder creation and argument parsing: this is interface code. It always sends empty per-file tokens.
- `list_files.py`, `test_save.py` and `test_api.py`: network scripts that repeat client logic.
- Cookie file I/O (`_load_cookies` and its JSON branch, `_save_cookies`, the file write of `set_cookie`) and the validation request after saving.
- The `type`, `obj_category`, `updated_at` and `created_at` fields of a file record: no modelled decision reads them. Of `play_lua` only whether `.get` can be called on it is kept (`ShareTree.PlayLua`): a value other than a mapping makes the flat walk fail.
- Selection.SplitExt: models `posixpath.splitext`, which cuts at `/` only; on Windows `os.path.splitext` also cuts at `\\` and `:`.
- Selection.Classify: no contract of its own; `SelectionProperties.ClassifyAsPositions`, `CommaSelectsPositions`, `StarIsGlob`, `StarNotAllNotRange`, `CategoryClassify`, `ExtensionClassify` and `DottedIsNothing` state which case each kind of selection reaches.
- Selection.TokenPositions, Selection.ListPositions: no contract of their own; `SelectionProperties.DigitToken`, `RangeTokenPositions`, `EmptyTokenPositions`, `LettersNoPositions`, `ListPositionsDigits`, `ListPositionsNone` and `ResolveTokens` state them.
- Selection.GlobMatch, Selection.StarMatch: no contract of their own; `SelectionProperties.StarMatchSpec`, `GlobPrefix`, `GlobLiteral`, `StarThenLiteral` and `StarMatchLiteral` state them.
- OwnStorage.Walk: no contract of its own; `OwnStorageProperties.WalkHit`, `WalkUnknown`, `WalkStep`, `WalkEnd`, `WalkSound` and `FoundAt` state it.
- ShareTree.FlattenFrom, ShareTree.TreeFrom: no contract of their own; `ShareTreeProperties.FlattenFromMatchesTreeFrom`, `FlattenFromFailsIff`, `TreeFromFailsIff`, `ShallowFrom` and `ShallowTreeFrom` state them.
- ShareTree.IsFile, ShareTree.PlayReadable: predicates read by the walks, with no separate contract.
- OwnStorage.IsFolder: the folder test of quark_client.py:686, a predicate read by `Folders` with no separate contract.
- ShareTree.Sites, ShareTree.SitesFrom: reference definitions with no contract of their own; `ShareTreeProperties.FlattenSites`, `FlattenFromSites`, `SitesMembers` and `SitesFromMembers` state them.
- Selection.InCategory, Selection.ExtensionIs: the tests of quark_client.py:962-978 and 985-986, with no contract of their own; `SelectionProperties.CategoryFilter`, `CategoryKeyword`, `BareExtensionMatch`, `ExtensionAgree` and `ExtensionSelects` state them.
- Dicts.Assign: the dictionary loops of set_cookie.py:32-35 and main.py:212, with no contract of its own; `Dicts.KeysExact`, `AssignLastWins`, `CountIsDistinctKeys` and `AssignPresent` state it.
- NameKey.ResolveAsWritten: the resolver as written, with no contract of its own; `NameKey.AsWrittenFails` and `GlobCounterexample` state it.
- Transfer.Terminal, Transfer.Get: the terminal-state test of quark_client.py:643-646 and `dict.get`, with no contract of their own; `Transfer.OutcomeFacts`, `WaitEnds` and `TransferProperties.StatusFallbacks` state them.
- Cookies.ParseCookies, Cookies.Piece: no contract of their own; `CookiesProperties.RoundTrip`, `NoEqualsNoCookies` and `PiecesOfRendered` state them.
- Commands.SelectedFids, Commands.IsIndexSelection: no contract of their own; `CommandsProperties.FidBranch`, `FidListRoundTrip`, `DigitsAreIndex`, `DigitFidSelectsNothing` and `RepeatedFidKept` state them.
- Commands.PlanSave: built on the corrected resolver (`NameKey.CorrectedIsResolve`), not the one as written. Selections that pass the position test of main.py:197 but reach the extension case, such as `1-`, `-1` or `1-2-3`, raise `KeyError` as written on a non-empty share (`NameKey.DashSelectionFails`), while `PlanSave` stops with nothing selected or returns a plan.
- Commands.LastToken, Commands.TokenOf: no contract of their own; `Commands.TokenOfIsLast`, `CommandsProperties.LastRecordWins` and `UnlistedNoToken` state them.
- `get_file_list` as used by `list` at depth 0: `Commands.ListDepth` shows that branch is never taken.

## Findings

| source | as written | input that shows it | evidently intended | confidence | as-written member | corrected member |
|---|---|---|---|---|---|---|
| quark_client.py:958 | The glob, category and extension cases read `file['name']`. The records of `get_all_files_recursive` store the name under `file_name` (quark_client.py:416), so every such selection raises `KeyError` on a non-empty list. | `*.mkv` on one file named `a.MKV`; or `save` with the selection `1-`, which main.py:197 sends to the resolver as positions, on any non-empty share | Read the name the record carries, so `*.mkv` selects `a.MKV` and `1-` keeps the files whose extension is `.1-` | high; not executed | NameKey.GlobCounterexample | NameKey.CorrectedIsResolve |
