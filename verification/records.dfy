/** The canonical file record that share traversal produces and the selection
    language, the save command and the tree view consume. */
module Records {
  import opened Wrappers

  /** Python's `a or b` on two optional strings, as the id and name aliases of
      a listing item are read: an empty string is falsy. An absent result is
      written as the empty string. */
  function Alias(first: Option<string>, second: Option<string>): (r: string)
    ensures first.Some? && first.value != "" ==> r == first.value
    ensures (first.None? || first.value == "") && second.Some? ==> r == second.value
  {
    if first.Some? && first.value != "" then first.value else second.GetOr("")
  }

  /** One file of a share as `get_all_files_recursive` records it
      (quark_client.py:414-429): `fid` is the `file_id` alias if truthy, else `fid`
      (the record stores it under both keys); `name` is the item's `file_name` if
      truthy, else its `name`, and the record stores it under the key
      `file_name`; `pdirFid` is the directory whose listing held the file. */
  datatype FileRecord = FileRecord(
    fid: string,
    name: string,
    size: nat,
    pdirFid: string,
    shareFidToken: string)
}
