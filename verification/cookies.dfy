/** The cookie-string parser of `set_cookie` (set_cookie.py:31-35), whose
    loop also appears at quark_client.py:87-90 and :240-243: the string is cut
    at `;`, every piece holding `=` is trimmed and cut at its first `=`, and
    the key is set to the value, later pieces overwriting earlier ones. */
module Cookies {
  import opened Wrappers
  import opened Text
  import opened Seqs
  import opened Dicts

  /** `item.strip().split('=', 1)` for an item holding `=`: the key is what the
      trimmed item holds before its first `=`, the value all that follows. */
  function Pair(item: string): (p: (string, string))
    requires '=' in item
    ensures '=' !in p.0
    ensures p.0 + "=" + p.1 == Strip(item)
  {
    StripKeeps(item, '=');
    var t := Strip(item);
    var k := IndexOf(t, '=');
    CutAt(t, k);
    (t[..k], t[k + 1..])
  }

  /** What one piece contributes: its key and value when it holds `=`, and
      nothing otherwise. */
  function Piece(item: string): Option<(string, string)> {
    if '=' in item then Some(Pair(item)) else None
  }

  /** The contributions of the pieces, in order. */
  function Pieces(items: seq<string>): (ps: seq<Option<(string, string)>>)
    ensures |ps| == |items|
    ensures forall i :: 0 <= i < |items| ==> ps[i] == Piece(items[i])
  {
    seq(|items|, i requires 0 <= i < |items| => Piece(items[i]))
  }

  /** The dictionary `set_cookie` builds from `cookie_str`. */
  function ParseCookies(s: string): map<string, string> {
    Assign(Pieces(Split(s, ';')))
  }

  /** `len(cookies)` as printed at set_cookie.py:42. */
  function CookieCount(s: string): (n: nat)
    ensures n == |Dedup(Keys(Pieces(Split(s, ';'))))|
  {
    CountIsDistinctKeys(Pieces(Split(s, ';')));
    |ParseCookies(s)|
  }
}
