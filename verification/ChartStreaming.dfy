/** What chunked delivery of an answer with chart markers guarantees (shared/chart_inline.py). */
module ChartStreaming {
  import opened Text
  import opened ChartInline

  // ---- replacing a text in one go, whatever the fetcher answers ----

  function Prepend(piece: string, r: (Ledger, string)): (Ledger, string) {
    (r.0, piece + r.1)
  }

  lemma PrependTwice(a: string, b: string, r: (Ledger, string))
    ensures Prepend(a, Prepend(b, r)) == Prepend(a + b, r)
  {
    Associative(a, b, r.1);
  }

  /** The leftmost matches from `p` on are replaced one after the other; each fetch sees the ledger left by the ones
      before. */
  function Replace(env: Env, l: Ledger, s: string, p: nat): (Ledger, string)
    requires p <= |s|
    decreases |s| - p
  {
    if p == |s| then (l, "")
    else
      var n := TokenLen(s, p);
      if n > 0 then
        var found := Count(LookUp(env, l, s[p + |MARKER|..p + n]));
        Prepend(found.1, Replace(env, found.0, s, p + n))
      else Prepend([s[p]], Replace(env, l, s, p + 1))
  }

  lemma {:induction false} MatchesTail(s: string, p: nat, i: nat)
    requires p <= |s|
    requires i <= |Matches(s, p)|
    ensures Matches(s, if i == 0 then p else Matches(s, p)[i - 1].end) == Matches(s, p)[i..]
    decreases |s| - p
  {
    if p < |s| && i > 0 {
      var n := TokenLen(s, p);
      if n > 0 {
        MatchesTail(s, p + n, i - 1);
      } else {
        MatchesTail(s, p + 1, i);
      }
    }
  }

  lemma ReplaceStep(env: Env, l: Ledger, s: string, p: nat)
    requires p < |s| && TokenLen(s, p) == 0
    ensures Replace(env, l, s, p) == Prepend([s[p]], Replace(env, l, s, p + 1)) && Matches(s, p) == Matches(s, p + 1)
  {
  }

  lemma ReplaceToken(env: Env, l: Ledger, s: string, p: nat, n: nat)
    requires p < |s| && TokenLen(s, p) == n > 0
    ensures var found := Count(LookUp(env, l, s[p + |MARKER|..p + n]));
            && Replace(env, l, s, p) == Prepend(found.1, Replace(env, found.0, s, p + n))
            && Matches(s, p) == [Match(p, p + n, s[p + |MARKER|..p + n])] + Matches(s, p + n)
  {
  }

  lemma ReplaceEnd(env: Env, l: Ledger, s: string, p: nat)
    requires p == |s|
    ensures Replace(env, l, s, p) == (l, "")
  {
  }

  lemma FirstOfSlice(s: string, p: nat, e: nat)
    requires p < e <= |s|
    ensures s[p..e] == [s[p]] + s[p + 1..e]
  {
  }

  /** Up to the next match the text is copied; then the match is looked up. */
  ghost predicate Gap(env: Env, l: Ledger, s: string, p: nat)
    requires p <= |s|
  {
    var ms := Matches(s, p);
    if ms == [] then Replace(env, l, s, p) == (l, s[p..])
    else
      var found := Count(LookUp(env, l, ms[0].id));
      Replace(env, l, s, p) == Prepend(s[p..ms[0].start], Prepend(found.1, Replace(env, found.0, s, ms[0].end)))
  }

  lemma NothingInFront(s: string, p: nat, r: (Ledger, string))
    requires p <= |s|
    ensures Prepend(s[p..p], r) == r
  {
    assert s[p..p] + r.1 == r.1;
  }

  lemma GapAtToken(env: Env, l: Ledger, s: string, p: nat)
    requires p < |s| && TokenLen(s, p) > 0
    ensures Gap(env, l, s, p)
  {
    ReplaceToken(env, l, s, p, TokenLen(s, p));
    NothingInFront(s, p, Replace(env, l, s, p));
  }

  lemma GapBefore(env: Env, l: Ledger, s: string, p: nat)
    requires p < |s| && TokenLen(s, p) == 0 && Gap(env, l, s, p + 1)
    ensures Gap(env, l, s, p)
  {
    ReplaceStep(env, l, s, p);
    var ms := Matches(s, p + 1);
    if ms == [] {
      assert s[p..] == [s[p]] + s[p + 1..];
    } else {
      FirstOfSlice(s, p, ms[0].start);
      var found := Count(LookUp(env, l, ms[0].id));
      PrependTwice([s[p]], s[p + 1..ms[0].start], Prepend(found.1, Replace(env, found.0, s, ms[0].end)));
    }
  }

  lemma {:induction false} ReplaceGap(env: Env, l: Ledger, s: string, p: nat)
    requires p <= |s|
    ensures Gap(env, l, s, p)
    decreases |s| - p
  {
    if p == |s| {
      assert s[p..] == "";
    } else if TokenLen(s, p) > 0 {
      GapAtToken(env, l, s, p);
    } else {
      ReplaceGap(env, l, s, p + 1);
      GapBefore(env, l, s, p);
    }
  }

  /** What the loop has appended after `i` matches, and the replacement of the rest. */
  ghost predicate FilledTo(env: Env, l: Ledger, s: string, i: nat)
    requires i <= |Matches(s, 0)| && Resume(Matches(s, 0), i) <= |s|
  {
    var filled := Fill(env, l, s, Matches(s, 0), i);
    Replace(env, l, s, 0) == Prepend(filled.1, Replace(env, filled.0, s, Resume(Matches(s, 0), i)))
  }

  lemma FilledNext(env: Env, l: Ledger, s: string, i: nat)
    requires i < |Matches(s, 0)| && Resume(Matches(s, 0), i) <= |s| && FilledTo(env, l, s, i)
    ensures Resume(Matches(s, 0), i + 1) <= |s| && FilledTo(env, l, s, i + 1)
  {
    var ms := Matches(s, 0);
    var q, m := Resume(ms, i), ms[i];
    MatchesTail(s, 0, i);
    var (l1, out) := Fill(env, l, s, ms, i);
    ReplaceGap(env, l1, s, q);
    assert Gap(env, l1, s, q) && Matches(s, q)[0] == m;
    var found := Count(LookUp(env, l1, m.id));
    var rest := Replace(env, found.0, s, m.end);
    PrependTwice(out, s[q..m.start], Prepend(found.1, rest));
    PrependTwice(out + s[q..m.start], found.1, rest);
  }

  lemma {:induction false} FillIsReplace(env: Env, l: Ledger, s: string, i: nat)
    requires i <= |Matches(s, 0)|
    ensures Resume(Matches(s, 0), i) <= |s| && FilledTo(env, l, s, i)
  {
    if i == 0 {
      assert "" + Replace(env, l, s, 0).1 == Replace(env, l, s, 0).1;
    } else {
      FillIsReplace(env, l, s, i - 1);
      FilledNext(env, l, s, i - 1);
    }
  }

  lemma NoMatchLeft(env: Env, l: Ledger, s: string)
    ensures var q := Resume(Matches(s, 0), |Matches(s, 0)|); q <= |s| && Replace(env, l, s, q) == (l, s[q..])
  {
    var ms := Matches(s, 0);
    MatchesTail(s, 0, |ms|);
    ReplaceGap(env, l, s, Resume(ms, |ms|));
    assert Gap(env, l, s, Resume(ms, |ms|));
  }

  /** `_substitute` is the replacement in one go, with the notice behind it. */
  lemma SubstituteIsReplace(env: Env, l: Ledger, s: string)
    ensures var r := Replace(env, l, s, 0); Substitute(env, l, s) == (r.0, Notify(r.0, r.1))
  {
    var ms := Matches(s, 0);
    FillIsReplace(env, l, s, |ms|);
    assert FilledTo(env, l, s, |ms|);
    NoMatchLeft(env, Fill(env, l, s, ms, |ms|).0, s);
  }

  // ---- cutting a text ----

  /** No token of `s` straddles position `q`. */
  ghost predicate Clean(s: string, q: nat) {
    forall p: nat :: p < q && p <= |s| && TokenLen(s, p) > 0 ==> p + TokenLen(s, p) <= q
  }

  lemma {:induction false} HexRunShift(s: string, q: nat, p: nat, cap: nat)
    requires q + p <= |s|
    ensures HexRun(s, q + p, cap) == HexRun(s[q..], p, cap)
    decreases cap
  {
    if cap > 0 && q + p < |s| && IsHex(s[q + p]) {
      HexRunShift(s, q, p + 1, cap - 1);
    }
  }

  lemma {:induction false} HexRunTake(s: string, q: nat, p: nat, cap: nat)
    requires p <= q <= |s|
    ensures var n := HexRun(s, p, cap);
            HexRun(s[..q], p, cap) == if p + n <= q then n else q - p
    decreases cap
  {
    if cap > 0 && p < q && IsHex(s[p]) {
      HexRunTake(s, q, p + 1, cap - 1);
    }
  }

  lemma TokenShift(s: string, q: nat, p: nat)
    requires q + p <= |s|
    ensures TokenLen(s, q + p) == TokenLen(s[q..], p)
  {
    if q + p + |MARKER| <= |s| {
      assert s[q..][p..p + |MARKER|] == s[q + p..q + p + |MARKER|];
      HexRunShift(s, q, p + |MARKER|, MAX_ID_LEN);
    }
  }

  lemma TokenTake(s: string, q: nat, p: nat)
    requires p <= q <= |s|
    ensures TokenLen(s[..q], p) > 0 ==> TokenLen(s, p) > 0
    ensures p + TokenLen(s, p) <= q ==> TokenLen(s[..q], p) == TokenLen(s, p)
    ensures p + TokenLen(s, p) > q && TokenLen(s[..q], p) > 0 ==> TokenLen(s[..q], p) == q - p
  {
    if p + |MARKER| <= q {
      assert s[..q][p..p + |MARKER|] == s[p..p + |MARKER|];
      HexRunTake(s, q, p + |MARKER|, MAX_ID_LEN);
    }
  }

  lemma CleanTake(text: string, p: nat, j: nat)
    requires p <= j <= |text| && Clean(text, p)
    ensures Clean(text[..j], p)
  {
    forall r: nat | r < p && TokenLen(text[..j], r) > 0
      ensures r + TokenLen(text[..j], r) <= p
    {
      TokenTake(text, j, r);
    }
  }

  lemma SameId(s: string, q: nat, p: nat, n: nat)
    requires |MARKER| <= n && q + p + n <= |s|
    ensures s[q..][p + |MARKER|..p + n] == s[q + p + |MARKER|..q + p + n]
  {
  }

  /** The replacement of `s` from `p` on is that of `t` from `r` on and then, with the ledger it leaves, that of `u`. */
  ghost predicate Splits(env: Env, l: Ledger, s: string, p: nat, t: string, r: nat, u: string)
    requires p <= |s| && r <= |t|
  {
    var first := Replace(env, l, t, r);
    Replace(env, l, s, p) == Prepend(first.1, Replace(env, first.0, u, 0))
  }

  lemma SameToken(env: Env, l: Ledger, s: string, p: nat, t: string, r: nat, n: nat, u: string)
    requires p < |s| && r < |t| && TokenLen(s, p) == TokenLen(t, r) == n > 0
    requires s[p + |MARKER|..p + n] == t[r + |MARKER|..r + n]
    requires Splits(env, Count(LookUp(env, l, s[p + |MARKER|..p + n])).0, s, p + n, t, r + n, u)
    ensures Splits(env, l, s, p, t, r, u)
  {
    var found := Count(LookUp(env, l, s[p + |MARKER|..p + n]));
    ReplaceToken(env, l, s, p, n);
    ReplaceToken(env, l, t, r, n);
    var first := Replace(env, found.0, t, r + n);
    PrependTwice(found.1, first.1, Replace(env, first.0, u, 0));
  }

  lemma SameStep(env: Env, l: Ledger, s: string, p: nat, t: string, r: nat, u: string)
    requires p < |s| && r < |t| && TokenLen(s, p) == TokenLen(t, r) == 0 && s[p] == t[r]
    requires Splits(env, l, s, p + 1, t, r + 1, u)
    ensures Splits(env, l, s, p, t, r, u)
  {
    ReplaceStep(env, l, s, p);
    ReplaceStep(env, l, t, r);
    var first := Replace(env, l, t, r + 1);
    PrependTwice([s[p]], first.1, Replace(env, first.0, u, 0));
  }

  lemma SplitsEnd(env: Env, l: Ledger, s: string, p: nat, t: string, r: nat)
    requires p == |s| && r == |t|
    ensures Splits(env, l, s, p, t, r, "")
  {
    ReplaceEnd(env, l, s, p);
    ReplaceEnd(env, l, t, r);
    ReplaceEnd(env, l, "", 0);
    assert "" + "" == "";
  }

  lemma {:induction false} ReplaceShift(env: Env, l: Ledger, s: string, q: nat, p: nat)
    requires q + p <= |s|
    ensures Splits(env, l, s, q + p, s[q..], p, "")
    decreases |s| - p
  {
    if q + p == |s| {
      SplitsEnd(env, l, s, q + p, s[q..], p);
    } else {
      TokenShift(s, q, p);
      var n := TokenLen(s, q + p);
      if n > 0 {
        ReplaceShift(env, Count(LookUp(env, l, s[q + p + |MARKER|..q + p + n])).0, s, q, p + n);
        SameId(s, q, p, n);
        SameToken(env, l, s, q + p, s[q..], p, n, "");
      } else {
        ReplaceShift(env, l, s, q, p + 1);
        SameStep(env, l, s, q + p, s[q..], p, "");
      }
    }
  }

  /** The replacement of a suffix is that of the text from there on. */
  lemma ReplaceSuffix(env: Env, l: Ledger, s: string, q: nat)
    requires q <= |s|
    ensures Replace(env, l, s, q) == Replace(env, l, s[q..], 0)
  {
    ReplaceShift(env, l, s, q, 0);
    assert Splits(env, l, s, q, s[q..], 0, "");
    var first := Replace(env, l, s[q..], 0);
    ReplaceEnd(env, first.0, "", 0);
    assert first.1 + "" == first.1;
  }

  /** A clean cut splits the replacement. */
  lemma {:induction false} ReplaceSplit(env: Env, l: Ledger, s: string, q: nat, p: nat)
    requires p <= q <= |s| && Clean(s, q)
    ensures Splits(env, l, s, p, s[..q], p, s[q..])
    decreases q - p
  {
    if p == q {
      ReplaceSuffix(env, l, s, q);
      ReplaceEnd(env, l, s[..q], p);
      assert "" + Replace(env, l, s[q..], 0).1 == Replace(env, l, s[q..], 0).1;
    } else {
      TokenTake(s, q, p);
      var n := TokenLen(s, p);
      if n > 0 {
        ReplaceSplit(env, Count(LookUp(env, l, s[p + |MARKER|..p + n])).0, s, q, p + n);
        assert s[..q][p + |MARKER|..p + n] == s[p + |MARKER|..p + n];
        SameToken(env, l, s, p, s[..q], p, n, s[q..]);
      } else {
        ReplaceSplit(env, l, s, q, p + 1);
        SameStep(env, l, s, p, s[..q], p, s[q..]);
      }
    }
  }

  // ---- the holdback makes clean cuts ----

  /** The ids of all charts referred to in the text avoid the letter `c`, the first letter of the marker. */
  ghost predicate Safe(text: string) {
    forall p: nat :: !UnsafeAt(text, p)
  }

  ghost predicate UnsafeAt(text: string, p: nat) {
    p <= |text| && TokenLen(text, p) > 0 && 'c' in text[p + |MARKER|..p + TokenLen(text, p)]
  }

  lemma MarkerLetter(s: string, p: nat, q: nat)
    requires At(s, p, MARKER) && p < q < p + |MARKER|
    ensures s[q] != 'c'
  {
    assert s[q] == MARKER[q - p];
  }

  /** A token contains no `c` behind its first letter. */
  lemma SafeToken(text: string, p: nat, q: nat)
    requires Safe(text) && p < q && p <= |text| && q < p + TokenLen(text, p)
    ensures text[q] != 'c'
  {
    var n := TokenLen(text, p);
    if q < p + |MARKER| {
      MarkerLetter(text, p, q);
    } else {
      assert !UnsafeAt(text, p);
      assert text[q] == text[p + |MARKER|..p + n][q - p - |MARKER|];
    }
  }

  lemma SafeSuffix(text: string, q: nat)
    requires Safe(text) && q <= |text|
    ensures Safe(text[q..])
  {
    forall p: nat | p <= |text[q..]| && TokenLen(text[q..], p) > 0
      ensures !UnsafeAt(text[q..], p)
    {
      TokenShift(text, q, p);
      var n := TokenLen(text, q + p);
      assert !UnsafeAt(text, q + p);
      assert text[q..][p + |MARKER|..p + n] == text[q + p + |MARKER|..q + p + n];
    }
  }

  /** The case of a released whole buffer: a straddling token would have been held back. */
  lemma WholeBufferClean(text: string, buf: string)
    requires Safe(text) && buf <= text && Holdback(buf) == |buf|
    ensures Clean(text, |buf|)
  {
    forall p: nat | p < |buf| && p <= |text| && TokenLen(text, p) > 0
      ensures p + TokenLen(text, p) <= |buf|
    {
      MarkerNotCut(text, buf, p);
      IdNotCut(text, buf, p);
    }
  }

  /** A buffer that ends inside a marker ends with a prefix of it. */
  lemma MarkerNotCut(text: string, buf: string, p: nat)
    requires buf <= text && Holdback(buf) == |buf| && p < |buf| && At(text, p, MARKER)
    ensures p + |MARKER| <= |buf|
  {
    assert PartialMarker(buf, |MARKER| - 1) == 0;
    if |buf| < p + |MARKER| {
      EndsWithPrefix(text, buf, p);
    }
  }

  lemma EndsWithPrefix(text: string, buf: string, p: nat)
    requires buf <= text && p < |buf| < p + |MARKER| && At(text, p, MARKER)
    ensures EndsWith(buf, MARKER[..|buf| - p])
  {
    assert buf[p..] == text[p..p + |MARKER|][..|buf| - p] == MARKER[..|buf| - p];
  }

  /** A buffer that ends inside an id ends with a marker and hex digits. */
  lemma IdNotCut(text: string, buf: string, p: nat)
    requires Safe(text) && buf <= text && Holdback(buf) == |buf| && p + |MARKER| <= |buf| && TokenLen(text, p) > 0
    ensures p + TokenLen(text, p) <= |buf|
  {
    var q, n := |buf|, TokenLen(text, p);
    assert buf[p..p + |MARKER|] == text[p..p + |MARKER|];
    assert At(buf, p, MARKER);
    var idx := LastMarker(buf, q).value;
    if p < idx < p + n {
      assert text[idx] == buf[idx] == MARKER[0];
      SafeToken(text, p, idx);
    }
    HexRunMaximal(text, p + |MARKER|, MAX_ID_LEN);
    var tail := buf[p + |MARKER|..];
    assert forall j :: 0 <= j < |tail| ==> tail[j] == text[p + |MARKER| + j];
    assert q < p + n ==> AllHex(tail);
  }

  /** A position that holds the letter `c` is clean: no token contains one behind its start. */
  lemma LetterClean(text: string, q: nat)
    requires Safe(text) && q < |text| && text[q] == 'c'
    ensures Clean(text, q)
  {
    forall p: nat | p < q && p <= |text| && TokenLen(text, p) > 0
      ensures p + TokenLen(text, p) <= q
    {
      if q < p + TokenLen(text, p) {
        SafeToken(text, p, q);
      }
    }
  }

  lemma HoldbackClean(text: string, buf: string)
    requires Safe(text) && buf <= text
    ensures Clean(text, Holdback(buf))
  {
    var q := Holdback(buf);
    if q == |buf| {
      WholeBufferClean(text, buf);
    } else {
      var n := PartialMarker(buf, |MARKER| - 1);
      if n > 0 {
        assert buf[q..] == MARKER[..n];
        assert buf[q] == MARKER[..n][0];
      } else {
        assert At(buf, q, MARKER);
        assert buf[q] == MARKER[0];
      }
      LetterClean(text, q);
    }
  }

  // ---- a stream as a list of emissions ----

  /** The raw text a delta releases, and the text then held. */
  function Take(held: string, delta: string): (r: (string, string))
    ensures r.0 + r.1 == held + delta
  {
    if delta == "" then ("", held)
    else
      var buf := held + delta;
      (buf[..Holdback(buf)], buf[Holdback(buf)..])
  }

  /** The texts a stream hands to `_substitute`, one for each delta and one for the flush; empty ones are skipped. */
  function Cuts(held: string, deltas: seq<string>): (cuts: seq<string>)
    ensures |cuts| == |deltas| + 1
    decreases deltas
  {
    if deltas == [] then [held] else [Take(held, deltas[0]).0] + Cuts(Take(held, deltas[0]).1, deltas[1..])
  }

  lemma FourParts(a: string, b: string, c: string, d: string, e: string)
    requires a + b == c + d
    ensures a + (b + e) == c + (d + e)
  {
    Associative(a, b, e);
    Associative(c, d, e);
  }

  /** Deltas and flush together hand over exactly the text received. */
  lemma {:induction false} CutsRebuild(held: string, deltas: seq<string>)
    ensures Concat(Cuts(held, deltas)) == held + Concat(deltas)
    decreases deltas
  {
    if deltas == [] {
      ConcatCons(held, []);
      assert [held] + [] == [held] && held + "" == held;
    } else {
      var (emit, held') := Take(held, deltas[0]);
      CutsRebuild(held', deltas[1..]);
      ConcatCons(emit, Cuts(held', deltas[1..]));
      FourParts(emit, held', held, deltas[0], Concat(deltas[1..]));
    }
  }

  /** Emissions one after the other. */
  function EmitAll(env: Env, l: Ledger, cuts: seq<string>): (Ledger, string)
    decreases cuts
  {
    if cuts == [] then (l, "")
    else
      var (l1, out) := Emit(env, l, cuts[0]);
      Prepend(out, EmitAll(env, l1, cuts[1..]))
  }

  /** What `feed` and `flush` release is what the texts handed over become, one after the other. */
  lemma {:induction false} StreamedEmits(env: Env, st: State, deltas: seq<string>)
    ensures var (l, out) := EmitAll(env, st.ledger, Cuts(st.buf, deltas));
            Streamed(env, st, deltas) == (State("", l), out)
    decreases deltas
  {
    var cuts := Cuts(st.buf, deltas);
    if deltas == [] {
      assert cuts[1..] == [];
      assert Emit(env, st.ledger, st.buf).1 + "" == Emit(env, st.ledger, st.buf).1;
    } else {
      var st1 := FeedStep(env, st, deltas[0]).0;
      StreamedEmits(env, st1, deltas[1..]);
      assert cuts[1..] == Cuts(st1.buf, deltas[1..]);
    }
  }

  /** The same without notices. */
  function ReplaceAll(env: Env, l: Ledger, cuts: seq<string>): (Ledger, string)
    decreases cuts
  {
    if cuts == [] then (l, "")
    else
      var (l1, raw) := Replace(env, l, cuts[0], 0);
      Prepend(raw, ReplaceAll(env, l1, cuts[1..]))
  }

  /** Each of the texts ends where no marker of the whole is torn. */
  ghost predicate CleanCuts(cuts: seq<string>) {
    cuts != [] ==> Clean(Concat(cuts), |cuts[0]|) && CleanCuts(cuts[1..])
  }

  lemma ReplaceHead(env: Env, l: Ledger, head: string, rest: string)
    requires Clean(head + rest, |head|)
    ensures Splits(env, l, head + rest, 0, head, 0, rest)
  {
    ReplaceSplit(env, l, head + rest, |head|, 0);
    assert (head + rest)[..|head|] == head && (head + rest)[|head|..] == rest;
  }

  lemma {:induction false} ReplaceCuts(env: Env, l: Ledger, cuts: seq<string>)
    requires CleanCuts(cuts)
    ensures Replace(env, l, Concat(cuts), 0) == ReplaceAll(env, l, cuts)
    decreases cuts
  {
    if cuts == [] {
      ReplaceEnd(env, l, "", 0);
    } else {
      ReplaceHead(env, l, cuts[0], Concat(cuts[1..]));
      assert Splits(env, l, Concat(cuts), 0, cuts[0], 0, Concat(cuts[1..]));
      ReplaceCuts(env, Replace(env, l, cuts[0], 0).0, cuts[1..]);
    }
  }

  /** One delta of a safe text. */
  lemma TakeClean(held: string, delta: string, rest: string)
    requires Safe(held + (delta + rest))
    ensures var (emit, held') := Take(held, delta);
            Clean(emit + (held' + rest), |emit|) && Safe(held' + rest)
  {
    var (emit, held') := Take(held, delta);
    var text := held + (delta + rest);
    FourParts(emit, held', held, delta, rest);
    if delta != "" {
      Associative(held, delta, rest);
      HoldbackClean(text, held + delta);
    }
    SafeSuffix(text, |emit|);
    assert text[|emit|..] == held' + rest;
  }

  lemma NothingTorn(text: string)
    ensures Clean(text, |text|)
  {
  }

  lemma {:induction false} CutsAreClean(held: string, deltas: seq<string>)
    requires Safe(held + Concat(deltas))
    ensures CleanCuts(Cuts(held, deltas))
    decreases deltas
  {
    var cuts := Cuts(held, deltas);
    CutsRebuild(held, deltas);
    if deltas == [] {
      NothingTorn(held);
      assert held + Concat(deltas) == held && cuts[1..] == [];
    } else {
      var (emit, held') := Take(held, deltas[0]);
      TakeClean(held, deltas[0], Concat(deltas[1..]));
      CutsAreClean(held', deltas[1..]);
      CutsRebuild(held', deltas[1..]);
      assert cuts[1..] == Cuts(held', deltas[1..]);
    }
  }

  // ---- streaming equals whole ----

  lemma EmitIsReplace(env: Env, l: Ledger, text: string)
    ensures var r := Replace(env, l, text, 0);
            Emit(env, l, text) == (r.0, if text == "" then "" else Notify(r.0, r.1))
  {
    SubstituteIsReplace(env, l, text);
    if text == "" {
      ReplaceEnd(env, l, text, 0);
    }
  }

  lemma {:induction false} EmitAllLedger(env: Env, l: Ledger, cuts: seq<string>)
    ensures EmitAll(env, l, cuts).0 == ReplaceAll(env, l, cuts).0
    decreases cuts
  {
    if cuts != [] {
      EmitIsReplace(env, l, cuts[0]);
      EmitAllLedger(env, Emit(env, l, cuts[0]).0, cuts[1..]);
    }
  }

  /** What a stream releases, up to notices, is the replacement of the whole text. */
  lemma StreamIsReplace(env: Env, st: State, deltas: seq<string>)
    requires Safe(st.buf + Concat(deltas))
    ensures ReplaceAll(env, st.ledger, Cuts(st.buf, deltas)) == Replace(env, st.ledger, st.buf + Concat(deltas), 0)
  {
    CutsAreClean(st.buf, deltas);
    CutsRebuild(st.buf, deltas);
    ReplaceCuts(env, st.ledger, Cuts(st.buf, deltas));
  }

  /** For every fetcher, every state and every way of cutting a safe text, streaming makes the same fetches in the same
      order as the whole text at once, and leaves the same cache and counters. */
  lemma SameFetches(env: Env, l: Ledger, text: string, deltas: seq<string>)
    requires Safe(text) && Concat(deltas) == text
    ensures Streamed(env, State("", l), deltas).0.ledger == WholeStep(env, State("", l), text).0.ledger
  {
    var st := State("", l);
    assert "" + text == text;
    StreamedEmits(env, st, deltas);
    EmitAllLedger(env, l, Cuts("", deltas));
    StreamIsReplace(env, st, deltas);
    SubstituteIsReplace(env, l, text);
  }

  // ---- the failure notice ----

  /** An emission that gets the notice: a fetch has failed by then, and the text does not mention it. */
  predicate Noticed(r: (Ledger, string)) {
    r.0.failed > 0 && !Contains(r.1, FAILED_MARK)
  }

  /** How many emissions of a stream get the notice. */
  function Notices(env: Env, l: Ledger, cuts: seq<string>): nat
    decreases cuts
  {
    if cuts == [] then 0
    else
      var r := Replace(env, l, cuts[0], 0);
      (if cuts[0] != "" && Noticed(r) then 1 else 0) + Notices(env, r.0, cuts[1..])
  }

  lemma {:induction false} FailuresGrow(env: Env, l: Ledger, s: string, p: nat)
    requires p <= |s|
    ensures Replace(env, l, s, p).0.failed >= l.failed
    decreases |s| - p
  {
    if p < |s| {
      var n := TokenLen(s, p);
      if n > 0 {
        ReplaceToken(env, l, s, p, n);
        FailuresGrow(env, Count(LookUp(env, l, s[p + |MARKER|..p + n])).0, s, p + n);
      } else {
        ReplaceStep(env, l, s, p);
        FailuresGrow(env, l, s, p + 1);
      }
    }
  }

  lemma {:induction false} AllFailuresGrow(env: Env, l: Ledger, cuts: seq<string>)
    ensures ReplaceAll(env, l, cuts).0.failed >= l.failed
    decreases cuts
  {
    if cuts != [] {
      FailuresGrow(env, l, cuts[0], 0);
      AllFailuresGrow(env, Replace(env, l, cuts[0], 0).0, cuts[1..]);
    }
  }

  /** Each notice makes the stream longer, and nothing else does. */
  lemma {:induction false} NoticesAreAdded(env: Env, l: Ledger, cuts: seq<string>)
    ensures |EmitAll(env, l, cuts).1| == |ReplaceAll(env, l, cuts).1| + Notices(env, l, cuts) * |NOTICE|
    ensures Notices(env, l, cuts) == 0 ==> EmitAll(env, l, cuts).1 == ReplaceAll(env, l, cuts).1
    decreases cuts
  {
    if cuts != [] {
      EmitIsReplace(env, l, cuts[0]);
      ReplaceEnd(env, l, "", 0);
      NoticesAreAdded(env, Replace(env, l, cuts[0], 0).0, cuts[1..]);
    }
  }

  lemma ContainsEither(a: string, b: string, m: string)
    requires Contains(a, m) || Contains(b, m)
    ensures Contains(a + b, m)
  {
    if Contains(a, m) {
      var i: nat :| i <= |a| && At(a, i, m);
      assert (a + b)[i..i + |m|] == a[i..i + |m|];
      assert At(a + b, i, m);
    } else {
      var i: nat :| i <= |b| && At(b, i, m);
      assert (a + b)[|a| + i..|a| + i + |m|] == b[i..i + |m|];
      assert At(a + b, |a| + i, m);
    }
  }

  /** Without any notice in the stream the whole text gets none either. */
  lemma {:induction false} NoNoticeAtAll(env: Env, l: Ledger, cuts: seq<string>)
    requires Notices(env, l, cuts) == 0 && l.failed == 0
    ensures !Noticed(ReplaceAll(env, l, cuts))
    decreases cuts
  {
    if cuts != [] {
      var (l1, raw) := Replace(env, l, cuts[0], 0);
      var rest := ReplaceAll(env, l1, cuts[1..]);
      if l1.failed == 0 {
        NoNoticeAtAll(env, l1, cuts[1..]);
        if Contains(rest.1, FAILED_MARK) {
          ContainsEither(raw, rest.1, FAILED_MARK);
        }
      } else {
        ReplaceEnd(env, l, "", 0);
        ContainsEither(raw, rest.1, FAILED_MARK);
      }
    }
  }

  /** Once a fetch has failed every further emission that does not mention it gets a notice: with at most one, and
      no mention, there are no further emissions. */
  lemma {:induction false} NothingFollows(env: Env, l: Ledger, cuts: seq<string>)
    requires l.failed > 0 && !Contains(ReplaceAll(env, l, cuts).1, FAILED_MARK) && Notices(env, l, cuts) == 0
    ensures ReplaceAll(env, l, cuts).1 == ""
    decreases cuts
  {
    if cuts != [] {
      var (l1, raw) := Replace(env, l, cuts[0], 0);
      FailuresGrow(env, l, cuts[0], 0);
      var rest := ReplaceAll(env, l1, cuts[1..]);
      if Contains(rest.1, FAILED_MARK) || Contains(raw, FAILED_MARK) {
        ContainsEither(raw, rest.1, FAILED_MARK);
      }
      assert cuts[0] == "";
      ReplaceEnd(env, l, "", 0);
      NothingFollows(env, l1, cuts[1..]);
    }
  }

  lemma NoticeBehind(raw: string)
    ensures raw + NOTICE + "" == raw + "" + NOTICE
  {
  }

  /** If the whole text gets the notice and the stream gets one only, it stands at the end of the stream. */
  lemma {:induction false} OneNoticeIsLast(env: Env, l: Ledger, cuts: seq<string>)
    requires Notices(env, l, cuts) == 1 && !Contains(ReplaceAll(env, l, cuts).1, FAILED_MARK)
    ensures EmitAll(env, l, cuts).1 == ReplaceAll(env, l, cuts).1 + NOTICE
    decreases cuts
  {
    var (l1, raw) := Replace(env, l, cuts[0], 0);
    var rest := ReplaceAll(env, l1, cuts[1..]);
    EmitIsReplace(env, l, cuts[0]);
    ReplaceEnd(env, l, "", 0);
    if Contains(rest.1, FAILED_MARK) || Contains(raw, FAILED_MARK) {
      ContainsEither(raw, rest.1, FAILED_MARK);
    }
    if cuts[0] != "" && Noticed((l1, raw)) {
      NothingFollows(env, l1, cuts[1..]);
      NoticesAreAdded(env, l1, cuts[1..]);
      NoticeBehind(raw);
    } else {
      OneNoticeIsLast(env, l1, cuts[1..]);
      Associative(raw, rest.1, NOTICE);
    }
  }

  /** With any fetcher, a safe text streamed in any way equals the whole text exactly when as many emissions of the
      stream get the failure notice as the whole text does, which is once or not at all. */
  lemma NoticesDecide(env: Env, text: string, deltas: seq<string>)
    requires Safe(text) && Concat(deltas) == text
    ensures var whole := Replace(env, EMPTY.ledger, text, 0);
            var sent, notices := Streamed(env, EMPTY, deltas).1, Notices(env, EMPTY.ledger, Cuts("", deltas));
            && WholeStep(env, EMPTY, text).1 == Notify(whole.0, whole.1)
            && |sent| == |whole.1| + notices * |NOTICE|
            && (sent == WholeStep(env, EMPTY, text).1 <==> notices == if Noticed(whole) then 1 else 0)
            && (whole.0.failed == 0 ==> notices == 0)
  {
    var l, cuts := EMPTY.ledger, Cuts("", deltas);
    assert "" + text == text;
    SubstituteIsReplace(env, l, text);
    StreamedEmits(env, EMPTY, deltas);
    StreamIsReplace(env, EMPTY, deltas);
    NoticesAreAdded(env, l, cuts);
    var whole, notices := Replace(env, l, text, 0), Notices(env, l, cuts);
    if notices == 0 {
      NoNoticeAtAll(env, l, cuts);
    } else if notices == 1 && Noticed(whole) {
      OneNoticeIsLast(env, l, cuts);
    }
    if whole.0.failed == 0 {
      NoFailureNoNotice(env, l, cuts);
    }
  }

  lemma {:induction false} NoFailureNoNotice(env: Env, l: Ledger, cuts: seq<string>)
    requires ReplaceAll(env, l, cuts).0.failed == 0
    ensures Notices(env, l, cuts) == 0
    decreases cuts
  {
    if cuts != [] {
      AllFailuresGrow(env, Replace(env, l, cuts[0], 0).0, cuts[1..]);
      NoFailureNoNotice(env, Replace(env, l, cuts[0], 0).0, cuts[1..]);
    }
  }

  /** For every fetcher and every way of cutting a safe text into deltas, streaming and whole-text processing agree
      whenever no fetch failed. */
  lemma StreamingMatchesWhole(env: Env, text: string, deltas: seq<string>)
    requires Safe(text) && Concat(deltas) == text && WholeStep(env, EMPTY, text).0.ledger.failed == 0
    ensures Streamed(env, EMPTY, deltas).1 == WholeStep(env, EMPTY, text).1 == Replace(env, EMPTY.ledger, text, 0).1
  {
    SubstituteIsReplace(env, EMPTY.ledger, text);
    NoticesDecide(env, text, deltas);
  }

  // ---- every run, whatever the fetcher does ----

  datatype Op = Feed(delta: string) | Flush | Whole(text: string)

  function Step(env: Env, st: State, op: Op): State {
    match op
    case Feed(delta) => FeedStep(env, st, delta).0
    case Flush => FlushStep(env, st).0
    case Whole(text) => WholeStep(env, st, text).0
  }

  function Run(env: Env, ops: seq<Op>): State {
    if ops == [] then EMPTY else Step(env, Run(env, ops[..|ops| - 1]), ops[|ops| - 1])
  }

  /** How often `id` was fetched successfully. */
  function Successes(calls: seq<(string, bool)>, id: string): nat {
    if calls == [] then 0
    else Successes(calls[..|calls| - 1], id) + (if calls[|calls| - 1] == (id, true) then 1 else 0)
  }

  /** The cache holds exactly the ids fetched successfully, and each was fetched so once. */
  ghost predicate FetchedOnce(l: Ledger) {
    forall id :: Successes(l.calls, id) == if id in l.cache then 1 else 0
  }

  lemma LookUpFetchesOnce(env: Env, l: Ledger, id: string)
    requires FetchedOnce(l)
    ensures FetchedOnce(Count(LookUp(env, l, id)).0)
  {
    var l1 := Count(LookUp(env, l, id)).0;
    if id !in l.cache {
      assert l1.calls[..|l.calls|] == l.calls;
    }
  }

  lemma {:induction false} FillFetchesOnce(env: Env, l: Ledger, s: string, ms: seq<Match>, i: nat)
    requires FetchedOnce(l) && Ordered(s, ms) && i <= |ms|
    ensures FetchedOnce(Fill(env, l, s, ms, i).0)
  {
    if i > 0 {
      FillFetchesOnce(env, l, s, ms, i - 1);
      LookUpFetchesOnce(env, Fill(env, l, s, ms, i - 1).0, ms[i - 1].id);
    }
  }

  lemma EmitFetchesOnce(env: Env, l: Ledger, text: string)
    requires FetchedOnce(l)
    ensures FetchedOnce(Substitute(env, l, text).0) && FetchedOnce(Emit(env, l, text).0)
  {
    var ms := Matches(text, 0);
    FillFetchesOnce(env, l, text, ms, |ms|);
  }

  /** In every run every chart is fetched successfully at most once, and at most 71 characters are held. */
  lemma {:induction false} EveryRun(env: Env, ops: seq<Op>)
    ensures var st := Run(env, ops);
            && |st.buf| <= MAX_HELD
            && FetchedOnce(st.ledger)
            && forall id :: Successes(st.ledger.calls, id) <= 1
  {
    if ops != [] {
      var st, op := Run(env, ops[..|ops| - 1]), ops[|ops| - 1];
      EveryRun(env, ops[..|ops| - 1]);
      match op
      case Feed(delta) =>
        EmitFetchesOnce(env, st.ledger, (st.buf + delta)[..Holdback(st.buf + delta)]);
      case Flush =>
        EmitFetchesOnce(env, st.ledger, st.buf);
      case Whole(text) =>
        EmitFetchesOnce(env, st.ledger, text);
    }
  }

  /** One more delta leaves what was handed over before as it was, and cuts what was held and the delta. */
  lemma {:induction false} CutsSnoc(held: string, deltas: seq<string>, delta: string)
    ensures var cuts, n := Cuts(held, deltas), |deltas|;
            Cuts(held, deltas + [delta]) == cuts[..n] + [Take(cuts[n], delta).0, Take(cuts[n], delta).1]
    decreases deltas
  {
    if deltas == [] {
      assert ([] + [delta])[1..] == [];
    } else {
      assert (deltas + [delta])[0] == deltas[0] && (deltas + [delta])[1..] == deltas[1..] + [delta];
      CutsSnoc(Take(held, deltas[0]).1, deltas[1..], delta);
    }
  }

  lemma ConcatLast(ss: seq<string>)
    requires ss != []
    ensures Concat(ss[..|ss| - 1]) + ss[|ss| - 1] == Concat(ss)
  {
    ConcatSnoc(ss[..|ss| - 1], ss[|ss| - 1]);
    assert ss[..|ss| - 1] + [ss[|ss| - 1]] == ss;
  }

  /** At every moment the text handed to `_substitute` so far and the text held are the text received. */
  lemma NothingLost(deltas: seq<string>)
    ensures var cuts, n := Cuts("", deltas), |deltas|; Concat(cuts[..n]) + cuts[n] == Concat(deltas)
  {
    var cuts := Cuts("", deltas);
    CutsRebuild("", deltas);
    ConcatLast(cuts);
    assert "" + Concat(deltas) == Concat(deltas);
  }

  function Feeds(deltas: seq<string>): seq<Op> {
    if deltas == [] then [] else Feeds(deltas[..|deltas| - 1]) + [Feed(deltas[|deltas| - 1])]
  }

  /** The buffer of the running filter is the text held in that accounting. */
  lemma {:induction false} HeldIsBuffer(env: Env, deltas: seq<string>)
    ensures Run(env, Feeds(deltas)).buf == Cuts("", deltas)[|deltas|]
  {
    if deltas != [] {
      var before, last := deltas[..|deltas| - 1], deltas[|deltas| - 1];
      HeldIsBuffer(env, before);
      CutsSnoc("", before, last);
      assert deltas == before + [last];
      assert Feeds(deltas)[..|Feeds(deltas)| - 1] == Feeds(before);
    }
  }
}
