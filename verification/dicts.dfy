/** A Python dictionary built by assigning key/value pairs in order, as the
    loop of `set_cookie` (set_cookie.py:32-35) and the comprehension
    `fid_to_token` of `cmd_save` (main.py:212) do: an absent contribution
    assigns nothing, and a later pair overwrites an earlier one. */
module Dicts {
  import opened Wrappers
  import opened Seqs

  /** Contribution `i` sets the key `k`. */
  predicate Sets(ps: seq<Option<(string, string)>>, i: int, k: string) {
    0 <= i < |ps| && ps[i].Some? && ps[i].value.0 == k
  }

  /** Some contribution sets `k`. */
  predicate SomeSets(ps: seq<Option<(string, string)>>, k: string) {
    exists i :: 0 <= i < |ps| && Sets(ps, i, k)
  }

  /** Contribution `i` sets `k` and no later one sets it again. */
  predicate LastSetter(ps: seq<Option<(string, string)>>, i: int, k: string) {
    Sets(ps, i, k) && forall j :: i < j < |ps| ==> !Sets(ps, j, k)
  }

  /** The dictionary the loop leaves after the contributions `ps`, taken from
      the left: each one present sets its key, overwriting an earlier value. */
  function Assign(ps: seq<Option<(string, string)>>): map<string, string>
    decreases |ps|
  {
    if |ps| == 0 then map[]
    else
      var m := Assign(ps[..|ps| - 1]);
      match ps[|ps| - 1]
      case None => m
      case Some(kv) => m[kv.0 := kv.1]
  }

  /** The keys the contributions set, in order, repeats included. */
  function Keys(ps: seq<Option<(string, string)>>): seq<string>
    decreases |ps|
  {
    if |ps| == 0 then []
    else
      var ks := Keys(ps[..|ps| - 1]);
      match ps[|ps| - 1]
      case None => ks
      case Some(kv) => ks + [kv.0]
  }

  /** Some contribution of `init + [last]` sets `k` exactly when one of `init`
      does or `last` does. */
  lemma SomeSetsAppend(ps: seq<Option<(string, string)>>, k: string)
    requires |ps| > 0
    ensures SomeSets(ps, k) <==> SomeSets(ps[..|ps| - 1], k) || Sets(ps, |ps| - 1, k)
  {
    var init := ps[..|ps| - 1];
    if SomeSets(ps, k) {
      var i :| 0 <= i < |ps| && Sets(ps, i, k);
      if i < |init| {
        assert init[i] == ps[i];
        assert Sets(init, i, k);
      }
    }
    if SomeSets(init, k) {
      var i :| 0 <= i < |init| && Sets(init, i, k);
      assert init[i] == ps[i];
      assert Sets(ps, i, k);
    }
  }

  /** A key is listed exactly when some contribution sets it. */
  lemma {:induction false} KeysExact(ps: seq<Option<(string, string)>>)
    ensures forall k :: k in Keys(ps) <==> SomeSets(ps, k)
    decreases |ps|
  {
    if |ps| > 0 {
      var init := ps[..|ps| - 1];
      var last := ps[|ps| - 1];
      KeysExact(init);
      assert Keys(ps) == if last.Some? then Keys(init) + [last.value.0] else Keys(init);
      forall k
        ensures k in Keys(ps) <==> SomeSets(ps, k)
      {
        SomeSetsAppend(ps, k);
      }
    }
  }

  /** A last setter that is not the final contribution is the last setter of
      the ones before the final. */
  lemma LastSetterInit(ps: seq<Option<(string, string)>>, i: int, k: string)
    requires LastSetter(ps, i, k) && i < |ps| - 1
    ensures LastSetter(ps[..|ps| - 1], i, k)
  {
    var init := ps[..|ps| - 1];
    assert init[i] == ps[i];
    forall j | i < j < |init|
      ensures !Sets(init, j, k)
    {
      assert init[j] == ps[j];
      assert !Sets(ps, j, k);
    }
  }

  /** The dictionary holds exactly the keys some contribution sets, each with
      the value of the last contribution that sets it. */
  lemma {:induction false} AssignLastWins(ps: seq<Option<(string, string)>>)
    ensures forall k :: k in Assign(ps) <==> SomeSets(ps, k)
    ensures forall i, k :: LastSetter(ps, i, k) ==> k in Assign(ps) && Assign(ps)[k] == ps[i].value.1
    decreases |ps|
  {
    if |ps| > 0 {
      var init := ps[..|ps| - 1];
      var last := ps[|ps| - 1];
      var m := Assign(init);
      AssignLastWins(init);
      assert Assign(ps) == if last.Some? then m[last.value.0 := last.value.1] else m;
      forall k
        ensures k in Assign(ps) <==> SomeSets(ps, k)
      {
        SomeSetsAppend(ps, k);
      }
      forall i, k | LastSetter(ps, i, k)
        ensures k in Assign(ps) && Assign(ps)[k] == ps[i].value.1
      {
        if i < |ps| - 1 {
          LastSetterInit(ps, i, k);
          assert !Sets(ps, |ps| - 1, k);
          assert init[i] == ps[i];
        }
      }
    }
  }

  /** The dictionary has one entry per distinct key the contributions set. */
  lemma CountIsDistinctKeys(ps: seq<Option<(string, string)>>)
    ensures |Assign(ps)| == |Dedup(Keys(ps))|
  {
    var m := Assign(ps);
    var d := Dedup(Keys(ps));
    AssignLastWins(ps);
    KeysExact(ps);
    assert m.Keys == set k | k in d;
    DistinctCount(d);
  }

  /** Each pair, present. */
  function Present(pairs: seq<(string, string)>): (ps: seq<Option<(string, string)>>)
    ensures |ps| == |pairs|
    ensures forall i :: 0 <= i < |pairs| ==> ps[i] == Some(pairs[i])
  {
    seq(|pairs|, i requires 0 <= i < |pairs| => Some(pairs[i]))
  }

  /** With every pair present, the keys set are the pairs' keys and the last
      pair with a key gives its value. */
  lemma AssignPresent(pairs: seq<(string, string)>)
    ensures forall k :: k in Assign(Present(pairs)) <==> exists i :: 0 <= i < |pairs| && pairs[i].0 == k
    ensures forall i :: 0 <= i < |pairs| && (forall j :: i < j < |pairs| ==> pairs[j].0 != pairs[i].0) ==>
      Assign(Present(pairs))[pairs[i].0] == pairs[i].1
  {
    var ps := Present(pairs);
    AssignLastWins(ps);
    forall k
      ensures SomeSets(ps, k) <==> exists i :: 0 <= i < |pairs| && pairs[i].0 == k
    {
      if exists i :: 0 <= i < |pairs| && pairs[i].0 == k {
        var i :| 0 <= i < |pairs| && pairs[i].0 == k;
        assert Sets(ps, i, k);
      }
    }
    forall i | 0 <= i < |pairs| && (forall j :: i < j < |pairs| ==> pairs[j].0 != pairs[i].0)
      ensures LastSetter(ps, i, pairs[i].0)
    {
    }
  }

}
