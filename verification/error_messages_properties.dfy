/** The classifiers on the server texts that matter: any letter case of
    `space`, and the text used when the server sends none. */
module ErrorMessagesProperties {
  import opened Wrappers
  import opened Text
  import opened ErrorMessages

  /** Lower-casing commutes with taking a slice. */
  lemma LowerSlice(s: string, i: nat, j: nat)
    requires i <= j <= |s|
    ensures Lower(s)[i..j] == Lower(s[i..j])
  {
    var a, b := Lower(s)[i..j], Lower(s[i..j]);
    forall k | 0 <= k < |a|
      ensures a[k] == b[k]
    {
      assert a[k] == Lower(s)[i + k] && s[i..j][k] == s[i + k];
    }
  }

  /** `SPACE`, `Space` or any other spelling of `space` in the text reports a
      full drive. */
  lemma SpaceAnyCase(m: string, w: string, i: nat)
    requires OccursAt(w, m, i) && Lower(w) == "space"
    ensures SaveError(m) == DriveFull
  {
    LowerSlice(m, i, i + |w|);
    assert OccursAt("space", Lower(m), i);
  }

  /** `'未知错误'` holds none of the keywords. */
  lemma UnknownHasNoKeyword()
    ensures !Occurs("密码", UnknownError) && !Occurs("passcode", UnknownError)
    ensures !Occurs("容量", UnknownError) && !Occurs("空间", UnknownError)
    ensures !Occurs("space", Lower(UnknownError))
    ensures !Occurs("存在", UnknownError)
  {
    var u := UnknownError;
    assert forall k :: 0 <= k < |u| ==> u[k] in {'未', '知', '错', '误'};
    FirstCharAbsent("密码", u);
    FirstCharAbsent("passcode", u);
    FirstCharAbsent("容量", u);
    FirstCharAbsent("空间", u);
    FirstCharAbsent("存在", u);
    assert Lower(u) == u;
    FirstCharAbsent("space", u);
  }

  /** A rejection without `message` or `msg` is reported with the generic
      prefix and `未知错误` by all three methods. */
  lemma NoTextFallsThrough()
    ensures StokenError(ErrorText(None, None)) == StokenFailed + UnknownError
    ensures SaveError(ErrorText(None, None)) == SaveFailed + UnknownError
    ensures CreateDirError(ErrorText(None, None)) == CreateFailed + UnknownError
  {
    UnknownHasNoKeyword();
  }

  /** A `message` that is present but empty hides `msg`, and names none of the
      causes. */
  lemma EmptyMessageWins(msg: Option<string>)
    ensures StokenError(ErrorText(Some(""), msg)) == StokenFailed
    ensures CreateDirError(ErrorText(Some(""), msg)) == CreateFailed
  {
    assert !OccursAt("密码", "", 0) && !OccursAt("passcode", "", 0) && !OccursAt("存在", "", 0);
    assert StokenFailed + "" == StokenFailed && CreateFailed + "" == CreateFailed;
  }
}
