/** How a rejected request is turned into the message of the exception the
    client raises: the status test and message lookup shared by the request
    methods, and the substring rules of `get_stoken` (quark_client.py:322-328),
    `save_files` (quark_client.py:548-554) and `create_dir`
    (quark_client.py:735-741). */
module ErrorMessages {
  import opened Wrappers
  import opened Text

  const UnknownError: string := "未知错误"
  const WrongCode: string := "提取码错误"
  const StokenFailed: string := "获取 stoken 失败: "
  const DriveFull: string := "网盘容量不足"
  const SaveFailed: string := "转存失败: "
  const DirExists: string := "目录已存在"
  const CreateFailed: string := "创建目录失败: "

  /** `result.get('status') or result.get('code')` compared with 200: the
      `status` field counts unless it is absent or 0, when `code` is read. */
  predicate Rejected(status: Option<int>, code: Option<int>) {
    (if status.Some? && status.value != 0 then status else code) != Some(200)
  }

  /** `result.get('message', result.get('msg', '未知错误'))`: a present
      `message` wins even when it is empty. */
  function ErrorText(message: Option<string>, msg: Option<string>): (r: string)
    ensures message.Some? ==> r == message.value
    ensures message.None? && msg.Some? ==> r == msg.value
    ensures message.None? && msg.None? ==> r == UnknownError
  {
    match message
    case Some(m) => m
    case None => msg.GetOr(UnknownError)
  }

  /** The message `get_stoken` raises: a wrong extraction code when the server
      text mentions `密码` or `passcode`, otherwise the text behind a prefix. */
  function StokenError(m: string): (r: string)
    ensures r == WrongCode <==> Occurs("密码", m) || Occurs("passcode", m)
    ensures r != WrongCode ==> r == StokenFailed + m
  {
    ContainsOccurs(m, "密码");
    ContainsOccurs(m, "passcode");
    if Contains(m, "密码") || Contains(m, "passcode") then WrongCode
    else
      assert |StokenFailed + m| > |WrongCode|;
      StokenFailed + m
  }

  /** The message `save_files` raises: a full drive when the server text
      mentions `容量` or `空间`, or `space` in any letter case. */
  function SaveError(m: string): (r: string)
    ensures r == DriveFull <==> Occurs("容量", m) || Occurs("空间", m) || Occurs("space", Lower(m))
    ensures r != DriveFull ==> r == SaveFailed + m
  {
    ContainsOccurs(m, "容量");
    ContainsOccurs(m, "空间");
    ContainsOccurs(Lower(m), "space");
    if Contains(m, "容量") || Contains(m, "空间") || Contains(Lower(m), "space") then DriveFull
    else
      assert (SaveFailed + m)[0] != DriveFull[0];
      SaveFailed + m
  }

  /** The message `create_dir` raises: an existing directory when the server
      text mentions `存在`. */
  function CreateDirError(m: string): (r: string)
    ensures r == DirExists <==> Occurs("存在", m)
    ensures r != DirExists ==> r == CreateFailed + m
  {
    ContainsOccurs(m, "存在");
    if Contains(m, "存在") then DirExists
    else
      assert |CreateFailed + m| > |DirExists|;
      CreateFailed + m
  }
}
