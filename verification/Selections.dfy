/** Keeping some elements of a list in their order, said by positions. */
module Selections {

  predicate Ascending(picks: seq<nat>, n: nat) {
    && (forall j, k :: 0 <= j < k < |picks| ==> picks[j] < picks[k])
    && (forall k :: 0 <= k < |picks| ==> picks[k] < n)
  }

  predicate Taken<T, U(==)>(ss: seq<T>, keep: T -> bool, f: T -> U, picks: seq<nat>, out: seq<U>) {
    && |out| == |picks| && Ascending(picks, |ss|)
    && (forall k :: 0 <= k < |picks| ==> keep(ss[picks[k]]) && out[k] == f(ss[picks[k]]))
  }

  predicate NoneMissed<T>(ss: seq<T>, keep: T -> bool, picks: seq<nat>) {
    forall i :: 0 <= i < |ss| && keep(ss[i]) ==> i in picks
  }

  /** `out` holds `f` of the elements `keep` accepts, all of them, in their order. */
  ghost predicate Selects<T, U>(ss: seq<T>, keep: T -> bool, f: T -> U, out: seq<U>) {
    exists picks: seq<nat> :: Taken(ss, keep, f, picks, out) && NoneMissed(ss, keep, picks)
  }

  lemma SelectsNothing<T, U>(keep: T -> bool, f: T -> U)
    ensures Selects([], keep, f, [])
  {
    var none: seq<nat> := [];
    assert Taken([], keep, f, none, []) && NoneMissed([], keep, none);
  }

  // ---- an element behind ----

  lemma AscendingSnoc(picks: seq<nat>, n: nat)
    requires Ascending(picks, n)
    ensures Ascending(picks + [n], n + 1)
  {
  }

  lemma TakenSnoc<T, U>(ss: seq<T>, keep: T -> bool, f: T -> U, picks: seq<nat>, out: seq<U>, x: T)
    requires Taken(ss, keep, f, picks, out)
    ensures Taken(ss + [x], keep, f, picks, out)
    ensures keep(x) ==> Taken(ss + [x], keep, f, picks + [|ss|], out + [f(x)])
  {
    AscendingSnoc(picks, |ss|);
  }

  lemma NoneMissedSnoc<T>(ss: seq<T>, keep: T -> bool, picks: seq<nat>, x: T)
    requires NoneMissed(ss, keep, picks)
    ensures NoneMissed(ss + [x], keep, if keep(x) then picks + [|ss|] else picks)
  {
    var all := ss + [x];
    forall i | 0 <= i < |all| && keep(all[i])
      ensures i in picks + (if keep(x) then [|ss|] else [])
    {
      if i < |ss| {
        assert keep(ss[i]);
      }
    }
    assert picks + [] == picks;
  }

  lemma SelectsSnoc<T, U>(ss: seq<T>, keep: T -> bool, f: T -> U, out: seq<U>, x: T)
    requires Selects(ss, keep, f, out)
    ensures Selects(ss + [x], keep, f, if keep(x) then out + [f(x)] else out)
  {
    var picks: seq<nat> :| Taken(ss, keep, f, picks, out) && NoneMissed(ss, keep, picks);
    TakenSnoc(ss, keep, f, picks, out, x);
    NoneMissedSnoc(ss, keep, picks, x);
  }

  lemma SelectsLast<T, U>(ss: seq<T>, keep: T -> bool, f: T -> U, before: seq<U>, out: seq<U>)
    requires ss != [] && Selects(ss[..|ss| - 1], keep, f, before)
    requires out == if keep(ss[|ss| - 1]) then before + [f(ss[|ss| - 1])] else before
    ensures Selects(ss, keep, f, out)
  {
    SelectsSnoc(ss[..|ss| - 1], keep, f, before, ss[|ss| - 1]);
    assert ss[..|ss| - 1] + [ss[|ss| - 1]] == ss;
  }

  // ---- an element in front ----

  function Moved(picks: seq<nat>): (r: seq<nat>)
    ensures |r| == |picks| && forall k :: 0 <= k < |r| ==> r[k] == picks[k] + 1
  {
    seq(|picks|, k requires 0 <= k < |picks| => picks[k] + 1)
  }

  lemma AscendingCons(picks: seq<nat>, n: nat)
    requires Ascending(picks, n)
    ensures Ascending(Moved(picks), n + 1) && Ascending([0] + Moved(picks), n + 1)
  {
  }

  lemma TakenCons<T, U>(x: T, ss: seq<T>, keep: T -> bool, f: T -> U, picks: seq<nat>, out: seq<U>)
    requires Taken(ss, keep, f, picks, out)
    ensures Taken([x] + ss, keep, f, Moved(picks), out)
    ensures keep(x) ==> Taken([x] + ss, keep, f, [0] + Moved(picks), [f(x)] + out)
  {
    AscendingCons(picks, |ss|);
    var all := [x] + ss;
    assert forall k :: 0 <= k < |picks| ==> all[Moved(picks)[k]] == ss[picks[k]];
  }

  lemma InMoved(picks: seq<nat>, i: nat)
    requires i in picks
    ensures i + 1 in Moved(picks)
  {
    var k :| 0 <= k < |picks| && picks[k] == i;
    assert Moved(picks)[k] == i + 1;
  }

  lemma NoneMissedBehind<T>(x: T, ss: seq<T>, keep: T -> bool, picks: seq<nat>, more: seq<nat>)
    requires NoneMissed(ss, keep, picks) && (keep(x) ==> 0 in more) && forall i :: i in picks ==> i + 1 in more
    ensures NoneMissed([x] + ss, keep, more)
  {
    var all := [x] + ss;
    forall i | 0 <= i < |all| && keep(all[i])
      ensures i in more
    {
      if i > 0 {
        assert keep(ss[i - 1]);
        assert i - 1 in picks;
      }
    }
  }

  lemma NoneMissedCons<T>(x: T, ss: seq<T>, keep: T -> bool, picks: seq<nat>)
    requires NoneMissed(ss, keep, picks)
    ensures NoneMissed([x] + ss, keep, if keep(x) then [0] + Moved(picks) else Moved(picks))
  {
    forall i | i in picks
      ensures i + 1 in Moved(picks)
    {
      InMoved(picks, i);
    }
    NoneMissedBehind(x, ss, keep, picks, if keep(x) then [0] + Moved(picks) else Moved(picks));
  }

  lemma SelectsCons<T, U>(x: T, ss: seq<T>, keep: T -> bool, f: T -> U, out: seq<U>)
    requires Selects(ss, keep, f, out)
    ensures Selects([x] + ss, keep, f, if keep(x) then [f(x)] + out else out)
  {
    var picks: seq<nat> :| Taken(ss, keep, f, picks, out) && NoneMissed(ss, keep, picks);
    TakenCons(x, ss, keep, f, picks, out);
    NoneMissedCons(x, ss, keep, picks);
  }

  lemma SelectsFirst<T, U>(ss: seq<T>, keep: T -> bool, f: T -> U, rest: seq<U>, out: seq<U>)
    requires ss != [] && Selects(ss[1..], keep, f, rest)
    requires out == if keep(ss[0]) then [f(ss[0])] + rest else rest
    ensures Selects(ss, keep, f, out)
  {
    SelectsCons(ss[0], ss[1..], keep, f, rest);
    assert [ss[0]] + ss[1..] == ss;
  }

  // ---- there is only one such list ----

  lemma PickedBefore(picks: seq<nat>, n: nat, j: nat, k: nat)
    requires Ascending(picks, n) && j <= k < |picks|
    ensures j < k ==> picks[j] < picks[k]
  {
  }

  lemma LastPicked(picks: seq<nat>, n: nat)
    requires Ascending(picks, n + 1) && n in picks
    ensures picks[|picks| - 1] == n && Ascending(picks[..|picks| - 1], n)
  {
    var k :| 0 <= k < |picks| && picks[k] == n;
    PickedBefore(picks, n + 1, k, |picks| - 1);
  }

  lemma NotPicked(picks: seq<nat>, n: nat)
    requires Ascending(picks, n + 1) && n !in picks
    ensures Ascending(picks, n)
  {
    forall k | 0 <= k < |picks|
      ensures picks[k] < n
    {
      assert picks[k] in picks;
    }
  }

  lemma MissedInit<T>(ss: seq<T>, keep: T -> bool, picks: seq<nat>, fewer: seq<nat>)
    requires ss != [] && NoneMissed(ss, keep, picks) && forall i :: i in picks && i < |ss| - 1 ==> i in fewer
    ensures NoneMissed(ss[..|ss| - 1], keep, fewer)
  {
    forall i | 0 <= i < |ss| - 1 && keep(ss[..|ss| - 1][i])
      ensures i in fewer
    {
      assert keep(ss[i]) && i in picks;
    }
  }

  lemma TakenInit<T, U>(ss: seq<T>, keep: T -> bool, f: T -> U, picks: seq<nat>, out: seq<U>)
    requires ss != [] && Taken(ss, keep, f, picks, out) && |ss| - 1 in picks
    ensures var n, m := |ss| - 1, |picks| - 1;
            Taken(ss[..n], keep, f, picks[..m], out[..m]) && out == out[..m] + [f(ss[n])]
  {
    LastPicked(picks, |ss| - 1);
  }

  lemma TakenFromInit<T, U>(ss: seq<T>, keep: T -> bool, f: T -> U, picks: seq<nat>, out: seq<U>)
    requires ss != [] && Taken(ss, keep, f, picks, out) && Ascending(picks, |ss| - 1)
    ensures Taken(ss[..|ss| - 1], keep, f, picks, out)
  {
  }

  lemma UnwantedNotPicked<T, U>(ss: seq<T>, keep: T -> bool, f: T -> U, picks: seq<nat>, out: seq<U>)
    requires ss != [] && Taken(ss, keep, f, picks, out) && !keep(ss[|ss| - 1])
    ensures |ss| - 1 !in picks
  {
    forall k | 0 <= k < |picks|
      ensures picks[k] != |ss| - 1
    {
      assert keep(ss[picks[k]]);
    }
  }

  lemma InitWithLast<T, U>(ss: seq<T>, keep: T -> bool, f: T -> U, picks: seq<nat>, out: seq<U>)
    requires ss != [] && Taken(ss, keep, f, picks, out) && NoneMissed(ss, keep, picks) && keep(ss[|ss| - 1])
    ensures out != [] && out == out[..|out| - 1] + [f(ss[|ss| - 1])]
    ensures Selects(ss[..|ss| - 1], keep, f, out[..|out| - 1])
  {
    var n := |ss| - 1;
    TakenInit(ss, keep, f, picks, out);
    LastPicked(picks, n);
    InitKeepsRest(picks, n);
    MissedInit(ss, keep, picks, picks[..|picks| - 1]);
  }

  lemma InitWithoutLast<T, U>(ss: seq<T>, keep: T -> bool, f: T -> U, picks: seq<nat>, out: seq<U>)
    requires ss != [] && Taken(ss, keep, f, picks, out) && NoneMissed(ss, keep, picks) && !keep(ss[|ss| - 1])
    ensures Selects(ss[..|ss| - 1], keep, f, out)
  {
    UnwantedNotPicked(ss, keep, f, picks, out);
    NotPicked(picks, |ss| - 1);
    MissedInit(ss, keep, picks, picks);
    TakenFromInit(ss, keep, f, picks, out);
  }

  lemma SelectsInit<T, U>(ss: seq<T>, keep: T -> bool, f: T -> U, out: seq<U>) returns (short: seq<U>)
    requires ss != [] && Selects(ss, keep, f, out)
    ensures Selects(ss[..|ss| - 1], keep, f, short)
    ensures out == if keep(ss[|ss| - 1]) then short + [f(ss[|ss| - 1])] else short
  {
    var picks: seq<nat> :| Taken(ss, keep, f, picks, out) && NoneMissed(ss, keep, picks);
    if keep(ss[|ss| - 1]) {
      InitWithLast(ss, keep, f, picks, out);
      short := out[..|out| - 1];
    } else {
      InitWithoutLast(ss, keep, f, picks, out);
      short := out;
    }
  }

  lemma InitKeepsRest(picks: seq<nat>, n: nat)
    requires picks != [] && picks[|picks| - 1] == n
    ensures forall i :: i in picks && i < n ==> i in picks[..|picks| - 1]
  {
  }

  lemma {:induction false} SelectsOne<T, U>(ss: seq<T>, keep: T -> bool, f: T -> U, a: seq<U>, b: seq<U>)
    requires Selects(ss, keep, f, a) && Selects(ss, keep, f, b)
    ensures a == b
  {
    if ss != [] {
      var shortA := SelectsInit(ss, keep, f, a);
      var shortB := SelectsInit(ss, keep, f, b);
      SelectsOne(ss[..|ss| - 1], keep, f, shortA, shortB);
    } else {
      SelectsFromNothing(keep, f, a);
      SelectsFromNothing(keep, f, b);
    }
  }

  lemma SomethingBelow(picks: seq<nat>, n: nat)
    requires Ascending(picks, n) && picks != []
    ensures n > 0
  {
    assert picks[0] < n;
  }

  lemma SelectsFromNothing<T, U>(keep: T -> bool, f: T -> U, out: seq<U>)
    requires Selects([], keep, f, out)
    ensures out == []
  {
    var picks: seq<nat> :| Taken([], keep, f, picks, out);
    if picks != [] {
      SomethingBelow(picks, 0);
    }
  }
}
