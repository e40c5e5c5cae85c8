/** What a failed fetch does to a streamed answer (shared/chart_inline.py). */
module ChartFailures {
  import opened Text
  import opened ChartInline
  import opened ChartStreaming

  // ---- where the first failure may lie ----

  /** Emission `k` is the last that is not empty. */
  predicate LastEmission(cuts: seq<string>, k: nat) {
    k < |cuts| && cuts[k] != "" && AllEmpty(cuts[k + 1..])
  }

  predicate AllEmpty(cuts: seq<string>) {
    forall i :: 0 <= i < |cuts| ==> cuts[i] == ""
  }

  /** No fetch fails before the last emission. */
  ghost predicate NoneFailsBefore(env: Env, l: Ledger, cuts: seq<string>) {
    forall k: nat :: LastEmission(cuts, k) ==> ReplaceAll(env, l, cuts[..k]).0.failed == 0
  }

  lemma EmptyChangesNothing(env: Env, l: Ledger)
    ensures Replace(env, l, "", 0) == (l, "")
  {
    ReplaceEnd(env, l, "", 0);
  }

  /** A text without the notice sentence has no part with it. */
  lemma NoMarkInParts(a: string, b: string)
    requires !Contains(a + b, FAILED_MARK)
    ensures !Contains(a, FAILED_MARK) && !Contains(b, FAILED_MARK)
  {
    if Contains(a, FAILED_MARK) || Contains(b, FAILED_MARK) {
      ContainsEither(a, b, FAILED_MARK);
    }
  }

  /** Once a fetch has failed, exactly the emissions that are not empty get the notice. */
  lemma {:induction false} FailedBefore(env: Env, l: Ledger, cuts: seq<string>)
    requires l.failed > 0 && !Contains(ReplaceAll(env, l, cuts).1, FAILED_MARK)
    ensures Notices(env, l, cuts) == 0 <==> AllEmpty(cuts)
    decreases cuts
  {
    if cuts != [] {
      var (l1, raw) := Replace(env, l, cuts[0], 0);
      FailuresGrow(env, l, cuts[0], 0);
      NoMarkInParts(raw, ReplaceAll(env, l1, cuts[1..]).1);
      FailedBefore(env, l1, cuts[1..]);
      assert AllEmpty(cuts) <==> cuts[0] == "" && AllEmpty(cuts[1..]);
    }
  }

  lemma LastOfRest(cuts: seq<string>, k: nat)
    requires 0 < k <= |cuts|
    ensures LastEmission(cuts, k) <==> LastEmission(cuts[1..], k - 1)
    ensures cuts[..k][0] == cuts[0] && cuts[..k][1..] == cuts[1..][..k - 1]
  {
    if k < |cuts| {
      assert cuts[1..][k - 1 + 1..] == cuts[k + 1..];
    }
  }

  /** The first emission passed without a failure. */
  lemma AfterGoodOne(env: Env, l: Ledger, cuts: seq<string>)
    requires cuts != [] && l.failed == 0
    ensures NoneFailsBefore(env, l, cuts) <==> NoneFailsBefore(env, Replace(env, l, cuts[0], 0).0, cuts[1..])
  {
    var l1, rest := Replace(env, l, cuts[0], 0).0, cuts[1..];
    forall k: nat | 0 < k <= |cuts|
      ensures LastEmission(cuts, k) <==> LastEmission(rest, k - 1)
      ensures ReplaceAll(env, l, cuts[..k]).0 == ReplaceAll(env, l1, rest[..k - 1]).0
    {
      LastOfRest(cuts, k);
    }
    if NoneFailsBefore(env, l, cuts) {
      forall k: nat | LastEmission(rest, k)
        ensures ReplaceAll(env, l1, rest[..k]).0.failed == 0
      {
        assert LastEmission(cuts, k + 1);
      }
    }
    if NoneFailsBefore(env, l1, rest) {
      forall k: nat | LastEmission(cuts, k)
        ensures ReplaceAll(env, l, cuts[..k]).0.failed == 0
      {
        assert k > 0 ==> LastEmission(rest, k - 1);
      }
    }
  }

  /** The last emission that is not empty. */
  lemma {:induction false} FindLast(cuts: seq<string>) returns (k: nat)
    requires !AllEmpty(cuts)
    ensures LastEmission(cuts, k)
  {
    var n := |cuts| - 1;
    if cuts[n] != "" {
      k := n;
    } else {
      assert !AllEmpty(cuts[..n]) by {
        var i :| 0 <= i < |cuts| && cuts[i] != "";
        assert cuts[..n][i] == cuts[i];
      }
      k := FindLast(cuts[..n]);
      assert cuts[k + 1..] == cuts[..n][k + 1..] + [cuts[n]];
    }
  }

  /** The first emission brought a failure. */
  lemma AfterBadOne(env: Env, l: Ledger, cuts: seq<string>)
    requires cuts != [] && cuts[0] != "" && l.failed == 0 && Replace(env, l, cuts[0], 0).0.failed > 0
    ensures NoneFailsBefore(env, l, cuts) <==> AllEmpty(cuts[1..])
  {
    var l1, rest := Replace(env, l, cuts[0], 0).0, cuts[1..];
    if AllEmpty(rest) {
      forall k: nat | LastEmission(cuts, k)
        ensures k == 0
      {
        LastOfRest(cuts, if k == 0 then 1 else k);
      }
    } else {
      var k := FindLast(rest);
      LastOfRest(cuts, k + 1);
      AllFailuresGrow(env, l1, rest[..k]);
      assert ReplaceAll(env, l, cuts[..k + 1]).0 == ReplaceAll(env, l1, rest[..k]).0;
      assert LastEmission(cuts, k + 1);
    }
  }

  /** The stream gets as many notices as the whole text exactly when no fetch fails before the last emission. */
  lemma {:induction false} NoticesMatchIff(env: Env, l: Ledger, cuts: seq<string>)
    requires l.failed == 0 && !Contains(ReplaceAll(env, l, cuts).1, FAILED_MARK)
    ensures Notices(env, l, cuts) == (if ReplaceAll(env, l, cuts).0.failed > 0 then 1 else 0)
       <==> NoneFailsBefore(env, l, cuts)
    decreases cuts
  {
    if cuts != [] {
      var (l1, raw) := Replace(env, l, cuts[0], 0);
      EmptyChangesNothing(env, l);
      NoMarkInParts(raw, ReplaceAll(env, l1, cuts[1..]).1);
      if l1.failed == 0 {
        NoticesMatchIff(env, l1, cuts[1..]);
        AfterGoodOne(env, l, cuts);
      } else {
        AllFailuresGrow(env, l1, cuts[1..]);
        FailedBefore(env, l1, cuts[1..]);
        AfterBadOne(env, l, cuts);
      }
    }
  }

  // ---- in terms of the text ----

  /** The text in front of emission `k` fails no fetch of its own. */
  ghost predicate GoodUpTo(env: Env, cuts: seq<string>, k: nat)
    requires k <= |cuts|
  {
    Replace(env, EMPTY.ledger, Concat(cuts[..k]), 0).0.failed == 0
  }

  lemma {:induction false} CleanPrefix(cuts: seq<string>, k: nat)
    requires CleanCuts(cuts) && k <= |cuts|
    ensures CleanCuts(cuts[..k])
  {
    if k > 0 {
      var rest := cuts[1..];
      CleanPrefix(rest, k - 1);
      assert cuts[..k][1..] == rest[..k - 1] && cuts[..k] + cuts[k..] == cuts;
      ConcatAppend(cuts[..k], cuts[k..]);
      assert Concat(cuts) == Concat(cuts[..k]) + Concat(cuts[k..]);
      assert Concat(cuts[..k]) == cuts[0] + Concat(rest[..k - 1]);
      CleanTake(Concat(cuts), |cuts[0]|, |Concat(cuts[..k])|);
      assert Concat(cuts)[..|Concat(cuts[..k])|] == Concat(cuts[..k]);
    }
  }

  ghost predicate GoodUpToLast(env: Env, cuts: seq<string>) {
    forall k: nat :: LastEmission(cuts, k) ==> GoodUpTo(env, cuts, k)
  }

  lemma GoodUpToLastIff(env: Env, cuts: seq<string>)
    requires CleanCuts(cuts)
    ensures GoodUpToLast(env, cuts) <==> NoneFailsBefore(env, EMPTY.ledger, cuts)
  {
    forall k: nat | LastEmission(cuts, k)
      ensures GoodUpTo(env, cuts, k) <==> ReplaceAll(env, EMPTY.ledger, cuts[..k]).0.failed == 0
    {
      CleanPrefix(cuts, k);
      ReplaceCuts(env, EMPTY.ledger, cuts[..k]);
    }
  }

  lemma AgreeIffNotices(env: Env, text: string, deltas: seq<string>)
    requires Safe(text) && Concat(deltas) == text
    requires !Contains(Replace(env, EMPTY.ledger, text, 0).1, FAILED_MARK)
    ensures Streamed(env, EMPTY, deltas).1 == WholeStep(env, EMPTY, text).1
       <==> Notices(env, EMPTY.ledger, Cuts("", deltas))
            == if Replace(env, EMPTY.ledger, text, 0).0.failed > 0 then 1 else 0
  {
    NoticesDecide(env, text, deltas);
  }

  /** A safe text that does not mention the failure, streamed in any way, with any fetcher: stream and whole text agree
      if and only if no fetch fails in the text in front of the last emission. */
  lemma AgreeIffFailuresAreLast(env: Env, text: string, deltas: seq<string>)
    requires Safe(text) && Concat(deltas) == text
    requires !Contains(Replace(env, EMPTY.ledger, text, 0).1, FAILED_MARK)
    ensures Streamed(env, EMPTY, deltas).1 == WholeStep(env, EMPTY, text).1
       <==> GoodUpToLast(env, Cuts("", deltas))
  {
    AgreeIffNotices(env, text, deltas);
    NoticesForText(env, text, deltas);
  }

  lemma NoticesForText(env: Env, text: string, deltas: seq<string>)
    requires Safe(text) && Concat(deltas) == text
    requires !Contains(Replace(env, EMPTY.ledger, text, 0).1, FAILED_MARK)
    ensures Notices(env, EMPTY.ledger, Cuts("", deltas))
            == (if Replace(env, EMPTY.ledger, text, 0).0.failed > 0 then 1 else 0)
       <==> GoodUpToLast(env, Cuts("", deltas))
  {
    assert "" + text == text;
    CutsAreClean("", deltas);
    StreamIsReplace(env, EMPTY, deltas);
    NoticesMatchIff(env, EMPTY.ledger, Cuts("", deltas));
    GoodUpToLastIff(env, Cuts("", deltas));
  }

  // ---- a stream that says it twice ----

  /** A marker with an id of sixteen zeros, and a blank. */
  function OneChart(): (t: string)
    ensures |t| == |MARKER| + 17 && t[..|MARKER|] == MARKER && t[|t| - 1] == ' '
    ensures forall i :: |MARKER| <= i < |t| - 1 ==> t[i] == '0'
  {
    MARKER + seq(16, i => '0') + " "
  }

  /** The text begins with that marker, and at most one character other than `c` follows the blank. */
  predicate OneChartThen(t: string) {
    OneChart() <= t && |t| <= |OneChart()| + 1 && forall i :: |OneChart()| <= i < |t| ==> t[i] != 'c'
  }

  lemma MarkerLetters(i: nat)
    requires 0 < i < |MARKER|
    ensures MARKER[i] != 'c'
  {
  }

  lemma NoOtherC(t: string, i: nat)
    requires OneChartThen(t) && 0 < i < |t|
    ensures t[i] != 'c'
  {
    var first := OneChart();
    if i < |MARKER| {
      MarkerLetters(i);
      assert t[i] == first[i] == first[..|MARKER|][i];
    } else {
      assert i < |first| ==> t[i] == first[i];
    }
  }

  lemma StartsWithC(t: string, p: nat)
    requires At(t, p, MARKER)
    ensures t[p] == 'c'
  {
    assert t[p] == t[p..p + |MARKER|][0];
  }

  /** The only token of the text has the sixteen digits. */
  lemma OnlyToken(t: string, p: nat)
    requires OneChartThen(t) && p <= |t|
    ensures TokenLen(t, p) == if p == 0 then |MARKER| + 16 else 0
  {
    var first := OneChart();
    if p == 0 {
      assert t[..|MARKER|] == first[..|MARKER|] == MARKER;
      assert forall j :: |MARKER| <= j < |first| ==> t[j] == first[j];
      HexRunMaximal(t, |MARKER|, MAX_ID_LEN);
      assert !IsHex(t[|MARKER| + 16]);
      assert forall j :: |MARKER| <= j < |MARKER| + 16 ==> IsHex(t[j]);
    } else if p < |t| {
      if At(t, p, MARKER) {
        StartsWithC(t, p);
        NoOtherC(t, p);
      }
    }
  }

  lemma OneChartIsSafe(t: string)
    requires OneChartThen(t)
    ensures Safe(t)
  {
    forall p: nat
      ensures !UnsafeAt(t, p)
    {
      if p <= |t| {
        OnlyToken(t, p);
        IdHasNoC(t);
      }
    }
  }

  lemma IdHasNoC(t: string)
    requires OneChartThen(t)
    ensures 'c' !in t[|MARKER|..|MARKER| + 16]
  {
    forall i | |MARKER| <= i < |MARKER| + 16
      ensures t[i] != 'c'
    {
      NoOtherC(t, i);
    }
  }

  lemma LastLetter(t: string, k: nat)
    requires 0 < k <= |MARKER| && EndsWith(t, MARKER[..k])
    ensures t[|t| - 1] == MARKER[k - 1]
  {
    assert t[|t| - 1] == t[|t| - k..][k - 1];
  }

  lemma NoSuchLetter(i: nat)
    requires i < |MARKER|
    ensures MARKER[i] != 'x' && MARKER[i] != ' '
  {
  }

  /** Nothing is held of a text whose last character belongs to no marker and no id. */
  lemma NothingHeld(t: string)
    requires t != "" && (t[|t| - 1] == 'x' || t[|t| - 1] == ' ')
    ensures Holdback(t) == |t|
  {
    var k := PartialMarker(t, |MARKER| - 1);
    if k > 0 {
      NoSuchLetter(k - 1);
      LastLetter(t, k);
    } else {
      var idx := LastMarker(t, |t|);
      if idx.Some? {
        NotAllHex(t, idx.value);
      }
    }
  }

  lemma NotAllHex(t: string, p: nat)
    requires At(t, p, MARKER) && (t[|t| - 1] == 'x' || t[|t| - 1] == ' ')
    ensures !AllHex(t[p + |MARKER|..])
  {
    var tail := t[p + |MARKER|..];
    if tail == "" {
      LastLetter(t, |MARKER|);
    } else {
      assert tail[|tail| - 1] == t[|t| - 1];
    }
  }

  /** The fetcher that never gets a picture. */
  function Failing(b64: string -> string): Env {
    Env((n, id) => "", b64)
  }

  lemma OneChartFails(b64: string -> string)
    ensures var r := Replace(Failing(b64), EMPTY.ledger, OneChart(), 0); r.0.failed == 1 && r.1 == " "
  {
    var env, t := Failing(b64), OneChart();
    var n := |MARKER| + 16;
    OnlyToken(t, 0);
    OnlyToken(t, n);
    ReplaceToken(env, EMPTY.ledger, t, 0, n);
    var l := Count(LookUp(env, EMPTY.ledger, t[|MARKER|..n])).0;
    ReplaceStep(env, l, t, n);
    ReplaceEnd(env, l, t, n + 1);
  }

  lemma NoToken(env: Env, l: Ledger)
    ensures Replace(env, l, "x", 0) == (l, "x")
  {
    assert !At("x", 0, MARKER);
    ReplaceStep(env, l, "x", 0);
    ReplaceEnd(env, l, "x", 1);
    assert ['x'] + "" == "x";
  }

  lemma TooShort(t: string)
    requires |t| <= 1
    ensures !Contains(t, FAILED_MARK)
  {
    assert |FAILED_MARK| > 1;
  }

  lemma ReleasedWhole(t: string)
    requires t != "" && (t[|t| - 1] == 'x' || t[|t| - 1] == ' ')
    ensures Take("", t) == (t, "")
  {
    NothingHeld(t);
    assert "" + t == t && t[..|t|] == t && t[|t|..] == "";
  }

  lemma TwoCuts()
    ensures Cuts("", [OneChart(), "x"]) == [OneChart(), "x", ""]
  {
    var t := OneChart();
    ReleasedWhole(t);
    ReleasedWhole("x");
    assert [t, "x"][1..] == ["x"] && ["x"][1..] == [];
    assert Cuts("", []) == [""];
    assert Cuts("", ["x"]) == ["x"] + [""];
  }

  /** A chart that cannot be fetched, and one more emission behind it: the stream says so twice. */
  lemma FailureSaidTwice(b64: string -> string)
    ensures exists env: Env, text: string, deltas: seq<string> ::
              && Safe(text) && Concat(deltas) == text && env.b64 == b64
              && Streamed(env, EMPTY, deltas).1 != WholeStep(env, EMPTY, text).1
  {
    var env, t := Failing(b64), OneChart();
    var deltas := [t, "x"];
    assert Concat(deltas) == t + "x" by {
      assert deltas[1..] == ["x"] && ["x"][1..] == [] && "x" + "" == "x";
    }
    OneChartIsSafe(t + "x");
    TwoCuts();
    TwoNotices(env);
    NoticesDecide(env, t + "x", deltas);
    assert Streamed(env, EMPTY, deltas).1 != WholeStep(env, EMPTY, t + "x").1;
  }

  lemma TwoNotices(env: Env)
    requires env == Failing(env.b64)
    ensures Notices(env, EMPTY.ledger, [OneChart(), "x", ""]) == 2
  {
    var cuts := [OneChart(), "x", ""];
    OneChartFails(env.b64);
    var l := Replace(env, EMPTY.ledger, OneChart(), 0).0;
    NoToken(env, l);
    EmptyChangesNothing(env, l);
    TooShort(" ");
    TooShort("x");
    assert cuts[1..] == ["x", ""] && ["x", ""][1..] == [""] && [""][1..] == [];
  }
}
