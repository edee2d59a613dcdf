/** What the cookie-string parser keeps, drops and overwrites. */
module CookiesProperties {
  import opened Wrappers
  import opened Text
  import opened Seqs
  import opened Dicts
  import opened Cookies

  /** A string with no `=` sets no cookie, so the count printed is 0. */
  lemma NoEqualsNoCookies(s: string)
    requires '=' !in s
    ensures ParseCookies(s) == map[]
    ensures CookieCount(s) == 0
  {
    var items := Split(s, ';');
    var ps := Pieces(items);
    forall i | 0 <= i < |items|
      ensures ps[i] == None
    {
      PartsInJoin(items, ';', i);
    }
    AssignLastWins(ps);
    assert forall k :: !SomeSets(ps, k);
    assert ParseCookies(s).Keys == {};
  }

  /** A key and value that `strip` and the first `=` cannot confuse, and that
      hold no `;`. */
  predicate Plain(p: (string, string)) {
    '=' !in p.0 && ';' !in p.0 && ';' !in p.1 &&
    (|p.0| > 0 ==> !IsSpace(p.0[0])) && (|p.1| > 0 ==> !IsSpace(p.1[|p.1| - 1]))
  }

  function Render(p: (string, string)): string {
    p.0 + "=" + p.1
  }

  function RenderAll(pairs: seq<(string, string)>): (items: seq<string>)
    ensures |items| == |pairs|
    ensures forall i :: 0 <= i < |pairs| ==> items[i] == Render(pairs[i])
  {
    seq(|pairs|, i requires 0 <= i < |pairs| => Render(pairs[i]))
  }

  /** `key=value` is cut back into the key and the value, even when the value
      holds `=` (only the first `=` cuts) or the key ends and the value starts
      with spaces (only the ends of the whole piece are trimmed). */
  lemma PairRender(p: (string, string))
    requires Plain(p)
    ensures '=' in Render(p)
    ensures Pair(Render(p)) == p
  {
    var item := Render(p);
    assert item[|p.0|] == '=';
    assert item[0] == if |p.0| > 0 then p.0[0] else '=';
    assert item[|item| - 1] == if |p.1| > 0 then p.1[|p.1| - 1] else '=';
    StripUntrimmed(item);
    assert item[..|p.0|] == p.0;
    IndexOfAt(item, '=', |p.0|);
    assert item[|p.0| + 1..] == p.1;
  }

  /** `a = b` sets the key `a ` to the value ` b`. */
  lemma SpacesStayInside()
    ensures Pair("a = b") == ("a ", " b")
  {
    PairRender(("a ", " b"));
    assert Render(("a ", " b")) == "a = b";
  }

  /** `a=b=c` sets `a` to `b=c`. */
  lemma ValueKeepsEquals()
    ensures Pair("a=b=c") == ("a", "b=c")
  {
    PairRender(("a", "b=c"));
    assert Render(("a", "b=c")) == "a=b=c";
  }

  /** Joining the rendered pairs and cutting at `;` gives one contribution per
      pair, the pair itself. */
  lemma PiecesOfRendered(pairs: seq<(string, string)>)
    requires |pairs| > 0
    requires forall i :: 0 <= i < |pairs| ==> Plain(pairs[i])
    ensures Pieces(Split(Join(RenderAll(pairs), ';'), ';')) == Present(pairs)
  {
    var items := RenderAll(pairs);
    forall i | 0 <= i < |items|
      ensures ';' !in items[i]
    {
      assert items[i] == pairs[i].0 + "=" + pairs[i].1;
    }
    SplitJoin(items, ';');
    forall i | 0 <= i < |pairs|
      ensures Piece(items[i]) == Some(pairs[i])
    {
      PairRender(pairs[i]);
    }
  }

  /** Pairs written `k=v` and joined with `;` read back as a dictionary with
      exactly their keys, each holding the value of its last pair. */
  lemma RoundTrip(pairs: seq<(string, string)>)
    requires |pairs| > 0
    requires forall i :: 0 <= i < |pairs| ==> Plain(pairs[i])
    ensures forall k :: k in ParseCookies(Join(RenderAll(pairs), ';')) <==>
      exists i :: 0 <= i < |pairs| && pairs[i].0 == k
    ensures forall i :: 0 <= i < |pairs| && (forall j :: i < j < |pairs| ==> pairs[j].0 != pairs[i].0) ==>
      ParseCookies(Join(RenderAll(pairs), ';'))[pairs[i].0] == pairs[i].1
  {
    PiecesOfRendered(pairs);
    AssignPresent(pairs);
  }
}
