/** Reading a share link: `parse_share_url` (quark_client.py:255-283). */
module ShareUrl {
  import opened Wrappers
  import opened Text

  const SecurePrefix: string := "https://pan.quark.cn/s/"
  const PlainPrefix: string := "http://pan.quark.cn/s/"
  const InvalidLink: string := "无效的夸克分享链接格式"

  /** The share id and the extraction code found in a link. */
  datatype ShareLink = ShareLink(pwdId: string, password: string)

  /** `[a-zA-Z0-9_-]`. */
  predicate IsIdChar(c: char) {
    'a' <= c <= 'z' || 'A' <= c <= 'Z' || '0' <= c <= '9' || c == '_' || c == '-'
  }

  /** The length of the longest run of id characters at the start of `s`. */
  function IdRun(s: string): (k: nat)
    ensures k <= |s|
    ensures forall i :: 0 <= i < k ==> IsIdChar(s[i])
    ensures k < |s| ==> !IsIdChar(s[k])
  {
    if |s| == 0 || !IsIdChar(s[0]) then 0 else 1 + IdRun(s[1..])
  }

  /** What follows `https?://pan\.quark\.cn/s/` at the start of `u`. */
  function AfterPrefix(u: string): (r: Option<string>)
    ensures r.Some? ==> (SecurePrefix <= u && u == SecurePrefix + r.value) ||
                        (PlainPrefix <= u && u == PlainPrefix + r.value)
    ensures r.None? ==> !(SecurePrefix <= u) && !(PlainPrefix <= u)
  {
    if SecurePrefix <= u then Some(u[|SecurePrefix|..])
    else if PlainPrefix <= u then Some(u[|PlainPrefix|..])
    else None
  }

  /** The characters of `s` before its first `&`. */
  function UntilAmp(s: string): (r: string)
    ensures r <= s && '&' !in r
    ensures |r| < |s| ==> s[|r|] == '&'
  {
    if |s| == 0 || s[0] == '&' then "" else [s[0]] + UntilAmp(s[1..])
  }

  /** Whether `[?&]pwd=` followed by a character other than `&` starts at `i`. */
  predicate PasswordAt(u: string, i: nat) {
    i + 5 < |u| && (u[i] == '?' || u[i] == '&') && u[i + 1..i + 5] == "pwd=" && u[i + 5] != '&'
  }

  /** `re.search(r'[?&]pwd=([^&]+)', u)` from index `i` on: the group of the
      leftmost match, or the empty string when there is none. */
  function FindPassword(u: string, i: nat): (r: string)
    ensures '&' !in r
    decreases |u| - i
  {
    if i + 5 >= |u| then ""
    else if PasswordAt(u, i) then UntilAmp(u[i + 5..])
    else FindPassword(u, i + 1)
  }

  /** `parse_share_url(url)`; the `ValueError` is the error case. */
  function ParseShareUrl(url: string): (r: Result<ShareLink, string>)
    ensures r.Err? <==> AfterPrefix(Strip(url)).None? || IdRun(AfterPrefix(Strip(url)).value) == 0
    ensures r.Err? ==> r.error == InvalidLink
    ensures r.Ok? ==> r.value.pwdId != "" && forall i :: 0 <= i < |r.value.pwdId| ==> IsIdChar(r.value.pwdId[i])
    ensures r.Ok? ==> '&' !in r.value.password
  {
    var u := Strip(url);
    match AfterPrefix(u)
    case None => Err(InvalidLink)
    case Some(rest) =>
      var k := IdRun(rest);
      if k == 0 then Err(InvalidLink)
      else Ok(ShareLink(rest[..k], FindPassword(u, 0)))
  }
}
