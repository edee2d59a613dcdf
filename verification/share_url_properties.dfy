/** Share links built from an id and a code read back as that id and code. */
module ShareUrlProperties {
  import opened Wrappers
  import opened Text
  import opened ShareUrl

  /** No character of either prefix is `?` or `&`. */
  lemma PrefixesPlain()
    ensures forall i :: 0 <= i < |SecurePrefix| ==> SecurePrefix[i] != '?' && SecurePrefix[i] != '&'
    ensures forall i :: 0 <= i < |PlainPrefix| ==> PlainPrefix[i] != '?' && PlainPrefix[i] != '&'
  {
  }

  /** Text without `?` or `&` holds no match: the search skips over it. */
  lemma {:induction false} FindPasswordSkips(u: string, i: nat, at: nat)
    requires i <= at <= |u|
    requires forall j :: i <= j < at ==> u[j] != '?' && u[j] != '&'
    ensures FindPassword(u, i) == FindPassword(u, at)
    decreases at - i
  {
    if i < at {
      FindPasswordStep(u, i);
      FindPasswordSkips(u, i + 1, at);
    }
  }

  /** A character other than `?` and `&` starts no match. */
  lemma FindPasswordStep(u: string, i: nat)
    requires i < |u| && u[i] != '?' && u[i] != '&'
    ensures FindPassword(u, i) == FindPassword(u, i + 1)
  {
    assert !PasswordAt(u, i);
  }

  /** A search that starts on a password parameter takes its value. */
  lemma FindPasswordAt(u: string, at: nat)
    requires PasswordAt(u, at)
    ensures FindPassword(u, at) == UntilAmp(u[at + 5..])
  {
  }

  /** The search finds nothing exactly when no password parameter starts at
      or after `i`; otherwise it returns the value of the leftmost one, up to
      the next `&`. */
  lemma {:induction false} FindPasswordSpec(u: string, i: nat)
    ensures FindPassword(u, i) == "" <==> forall j :: i <= j ==> !PasswordAt(u, j)
    ensures FindPassword(u, i) != "" ==>
      exists j :: i <= j && PasswordAt(u, j) && (forall k :: i <= k < j ==> !PasswordAt(u, k)) &&
        FindPassword(u, i) == UntilAmp(u[j + 5..])
    decreases |u| - i
  {
    if i + 5 >= |u| {
    } else if PasswordAt(u, i) {
      assert UntilAmp(u[i + 5..]) != "";
    } else {
      FindPasswordSpec(u, i + 1);
      var r := FindPassword(u, i + 1);
      if r != "" {
        var j :| i + 1 <= j && PasswordAt(u, j) && (forall k :: i + 1 <= k < j ==> !PasswordAt(u, k)) &&
          r == UntilAmp(u[j + 5..]);
        assert forall k :: i <= k < j ==> !PasswordAt(u, k);
      }
    }
  }

  /** The password parameter after the id is the first match of the search. */
  lemma PasswordAfterId(prefix: string, id: string, code: string)
    requires prefix == SecurePrefix || prefix == PlainPrefix
    requires forall i :: 0 <= i < |id| ==> IsIdChar(id[i])
    requires code != "" && '&' !in code
    ensures FindPassword(prefix + id + "?pwd=" + code, 0) == code
  {
    var url := prefix + id + "?pwd=" + code;
    var at := |prefix| + |id|;
    PrefixesPlain();
    forall j | 0 <= j < at
      ensures url[j] != '?' && url[j] != '&'
    {
      if j < |prefix| {
        assert url[j] == prefix[j];
      } else {
        assert url[j] == id[j - |prefix|];
      }
    }
    assert url[at..at + 5] == "?pwd=";
    assert url[at + 5..] == code;
    assert url[at + 1..at + 5] == "pwd=" && url[at + 5] == code[0];
    FindPasswordSkips(url, 0, at);
    FindPasswordAt(url, at);
    UntilAmpWhole(code);
  }

  /** After the scheme and host comes exactly what was appended to them. */
  lemma PrefixFound(secure: bool, rest: string)
    ensures AfterPrefix((if secure then SecurePrefix else PlainPrefix) + rest) == Some(rest)
  {
    var url := (if secure then SecurePrefix else PlainPrefix) + rest;
    if !secure {
      assert url[4] == ':';
      assert !(SecurePrefix <= url);
    }
  }

  /** `https://pan.quark.cn/s/<id>?pwd=<code>` (or `http://`) parses to the id
      and the code, for an id of id characters and a non-empty code with no
      `&` that does not end in whitespace. */
  lemma RoundTrip(secure: bool, id: string, code: string)
    requires id != "" && forall i :: 0 <= i < |id| ==> IsIdChar(id[i])
    requires code != "" && '&' !in code && !IsSpace(code[|code| - 1])
    ensures ParseShareUrl((if secure then SecurePrefix else PlainPrefix) + id + "?pwd=" + code)
      == Ok(ShareLink(id, code))
  {
    var prefix := if secure then SecurePrefix else PlainPrefix;
    var tail := "?pwd=" + code;
    assert prefix + id + "?pwd=" + code == prefix + id + tail;
    assert tail[|tail| - 1] == code[|code| - 1];
    QueryLink(secure, id, tail);
    assert FindPassword(tail, 0) == code by {
      assert tail[1..5] == "pwd=" && tail[5..] == code && tail[5] == code[0];
      FindPasswordAt(tail, 0);
      UntilAmpWhole(code);
    }
  }

  /** A link built from a prefix and a code that does not end in whitespace
      is left alone by `strip`. */
  lemma LinkTrimmed(prefix: string, id: string, code: string)
    requires prefix == SecurePrefix || prefix == PlainPrefix
    requires code != "" && !IsSpace(code[|code| - 1])
    ensures Strip(prefix + id + "?pwd=" + code) == prefix + id + "?pwd=" + code
  {
    var url := prefix + id + "?pwd=" + code;
    assert url[0] == 'h';
    assert url[|url| - 1] == code[|code| - 1];
    StripUntrimmed(url);
  }

  /** A trimmed link with a non-empty id run after the prefix parses to that
      run and the first password parameter. */
  lemma ParsedAs(url: string, rest: string)
    requires Strip(url) == url && AfterPrefix(url) == Some(rest) && IdRun(rest) > 0
    ensures ParseShareUrl(url) == Ok(ShareLink(rest[..IdRun(rest)], FindPassword(url, 0)))
  {
  }

  /** The id of a link with a query is everything before the `?`. */
  lemma IdBeforeQuery(id: string, code: string)
    requires forall i :: 0 <= i < |id| ==> IsIdChar(id[i])
    ensures (id + "?pwd=" + code)[..IdRun(id + "?pwd=" + code)] == id
  {
    var tail := "?pwd=" + code;
    assert id + "?pwd=" + code == id + tail;
    IdRunStops(id, tail);
    assert (id + tail)[..|id|] == id;
  }

  /** The id run stops exactly where a non-id character follows the id. */
  lemma {:induction false} IdRunStops(id: string, tail: string)
    requires forall i :: 0 <= i < |id| ==> IsIdChar(id[i])
    requires |tail| > 0 && !IsIdChar(tail[0])
    ensures IdRun(id + tail) == |id|
    decreases |id|
  {
    if |id| > 0 {
      assert (id + tail)[1..] == id[1..] + tail;
      IdRunStops(id[1..], tail);
    } else {
      assert id + tail == tail;
    }
  }

  /** A string without `&` is taken whole. */
  lemma UntilAmpWhole(s: string)
    requires '&' !in s
    ensures UntilAmp(s) == s
  {
  }

  /** A string with no `?` and no `&` holds no password parameter. */
  lemma MarkFree(u: string)
    requires forall j :: 0 <= j < |u| ==> u[j] != '?' && u[j] != '&'
    ensures FindPassword(u, 0) == ""
  {
    FindPasswordSkips(u, 0, |u|);
  }

  /** A link made of the prefix and an id holds no password parameter. */
  lemma NoPasswordParameter(id: string)
    requires forall i :: 0 <= i < |id| ==> IsIdChar(id[i])
    ensures FindPassword(SecurePrefix + id, 0) == ""
  {
    var url := SecurePrefix + id;
    PrefixesPlain();
    forall j | 0 <= j < |url|
      ensures url[j] != '?' && url[j] != '&'
    {
      if j < |SecurePrefix| {
        assert url[j] == SecurePrefix[j];
      } else {
        assert url[j] == id[j - |SecurePrefix|];
      }
    }
    MarkFree(url);
  }

  /** The prefix followed by a non-empty id is left alone by `strip`. */
  lemma IdLinkTrimmed(id: string)
    requires id != "" && forall i :: 0 <= i < |id| ==> IsIdChar(id[i])
    ensures Strip(SecurePrefix + id) == SecurePrefix + id
  {
    var url := SecurePrefix + id;
    assert url[0] == 'h' && url[|url| - 1] == id[|id| - 1];
    StripUntrimmed(url);
  }

  /** A link without a password parameter has an empty password. */
  lemma NoCodeNoPassword(id: string)
    requires id != "" && forall i :: 0 <= i < |id| ==> IsIdChar(id[i])
    ensures ParseShareUrl(SecurePrefix + id) == Ok(ShareLink(id, ""))
  {
    var url := SecurePrefix + id;
    IdLinkTrimmed(id);
    PrefixFound(true, id);
    assert id[..IdRun(id)] == id;
    NoPasswordParameter(id);
    ParsedAs(url, id);
  }

  /** The search reads a suffix the same wherever the suffix stands. */
  lemma {:induction false} FindPasswordShift(p: string, t: string, i: nat)
    ensures FindPassword(p + t, |p| + i) == FindPassword(t, i)
    decreases |t| - i
  {
    var u := p + t;
    if |p| + i + 5 < |u| {
      assert u[|p| + i..] == t[i..];
      assert PasswordAt(u, |p| + i) == PasswordAt(t, i) by {
        assert u[|p| + i] == t[i] && u[|p| + i + 5] == t[i + 5];
        assert u[|p| + i + 1..|p| + i + 5] == t[i + 1..i + 5];
      }
      assert u[|p| + i + 5..] == t[i + 5..];
      FindPasswordShift(p, t, i + 1);
    }
  }

  /** A link made of either prefix, an id and a tail that starts with a
      non-id character parses to the id and the password the tail holds. */
  lemma QueryLink(secure: bool, id: string, tail: string)
    requires id != "" && forall i :: 0 <= i < |id| ==> IsIdChar(id[i])
    requires |tail| > 0 && !IsIdChar(tail[0]) && !IsSpace(tail[|tail| - 1])
    ensures ParseShareUrl((if secure then SecurePrefix else PlainPrefix) + id + tail)
      == Ok(ShareLink(id, FindPassword(tail, 0)))
  {
    var prefix := if secure then SecurePrefix else PlainPrefix;
    var u := prefix + id + tail;
    var rest := id + tail;
    LinkShape(secure, id, tail);
    IdRunStops(id, tail);
    assert rest[..|id|] == id;
    HeadSkipped(prefix, id, tail);
    ParsedAs(u, rest);
  }

  /** Such a link is left alone by `strip`, and after its prefix come the id
      and the tail. */
  lemma LinkShape(secure: bool, id: string, tail: string)
    requires |tail| > 0 && !IsSpace(tail[|tail| - 1])
    ensures Strip((if secure then SecurePrefix else PlainPrefix) + id + tail)
      == (if secure then SecurePrefix else PlainPrefix) + id + tail
    ensures AfterPrefix((if secure then SecurePrefix else PlainPrefix) + id + tail) == Some(id + tail)
  {
    var prefix := if secure then SecurePrefix else PlainPrefix;
    var u := prefix + id + tail;
    assert u == prefix + (id + tail);
    assert u[0] == 'h' && u[|u| - 1] == tail[|tail| - 1];
    StripUntrimmed(u);
    PrefixFound(secure, id + tail);
  }

  /** The search passes over the prefix and the id. */
  lemma HeadSkipped(prefix: string, id: string, tail: string)
    requires prefix == SecurePrefix || prefix == PlainPrefix
    requires forall i :: 0 <= i < |id| ==> IsIdChar(id[i])
    ensures FindPassword(prefix + id + tail, 0) == FindPassword(tail, 0)
  {
    var head := prefix + id;
    var u := head + tail;
    assert prefix + id + tail == u;
    PrefixesPlain();
    forall j | 0 <= j < |head|
      ensures u[j] != '?' && u[j] != '&'
    {
      if j < |prefix| {
        assert u[j] == prefix[j];
      } else {
        assert u[j] == id[j - |prefix|];
      }
    }
    FindPasswordSkips(u, 0, |head|);
    FindPasswordShift(head, tail, 0);
  }

  /** A password parameter after another query parameter is found:
      `…/s/<id>?x=1&pwd=zz` gives the id and the password `zz`. */
  lemma LaterPasswordParameter(id: string)
    requires id != "" && forall i :: 0 <= i < |id| ==> IsIdChar(id[i])
    ensures ParseShareUrl(SecurePrefix + id + "?x=1&pwd=zz") == Ok(ShareLink(id, "zz"))
  {
    QueryLink(true, id, "?x=1&pwd=zz");
    SecondParameter();
  }

  lemma SecondParameter()
    ensures FindPassword("?x=1&pwd=zz", 0) == "zz"
  {
    var t := "?x=1&pwd=zz";
    assert t[1..5][0] == 'x' && "pwd="[0] == 'p';
    assert !PasswordAt(t, 0);
    FindPasswordStep(t, 1);
    FindPasswordStep(t, 2);
    FindPasswordStep(t, 3);
    assert t[5..9] == "pwd=" && t[9..] == "zz";
    FindPasswordAt(t, 4);
    UntilAmpWhole("zz");
  }

  /** Of two password parameters the first wins: `…/s/<id>?pwd=a&pwd=b`
      gives the password `a`. */
  lemma FirstPasswordWins(id: string)
    requires id != "" && forall i :: 0 <= i < |id| ==> IsIdChar(id[i])
    ensures ParseShareUrl(SecurePrefix + id + "?pwd=a&pwd=b") == Ok(ShareLink(id, "a"))
  {
    QueryLink(true, id, "?pwd=a&pwd=b");
    FirstParameter();
  }

  lemma FirstParameter()
    ensures FindPassword("?pwd=a&pwd=b", 0) == "a"
  {
    var t := "?pwd=a&pwd=b";
    assert t[1..5] == "pwd=" && t[5..] == "a&pwd=b";
    FindPasswordAt(t, 0);
    assert UntilAmp("a&pwd=b") == "a";
  }

  /** `[^&]+` stops at the first `&`. */
  lemma {:induction false} UntilAmpStops(a: string, rest: string)
    requires '&' !in a
    ensures UntilAmp(a + ("&" + rest)) == a
    decreases |a|
  {
    if |a| == 0 {
      assert a + ("&" + rest) == "&" + rest;
    } else {
      assert (a + ("&" + rest))[1..] == a[1..] + ("&" + rest);
      UntilAmpStops(a[1..], rest);
    }
  }

  /** A link that does not start with either prefix is rejected. */
  lemma ForeignHostRejected(url: string)
    requires !(SecurePrefix <= Strip(url)) && !(PlainPrefix <= Strip(url))
    ensures ParseShareUrl(url) == Err(InvalidLink)
  {
  }
}
