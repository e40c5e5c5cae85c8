/** Which parts of a text the chart filter takes for markers, and what becomes of them, said without the matching
    functions (shared/chart_inline.py:28-29, 90-107). */
module ChartTokens {
  import opened Text
  import opened ChartInline
  import opened ChartStreaming

  /** A hexadecimal digit of an id. */
  predicate HexDigit(c: char) {
    c in "0123456789abcdef"
  }

  /** A marker at `p` and an id of `k` digits behind it: 16 to 64 digits, as many as there are up to 64. */
  predicate MarkerAt(s: string, p: nat, k: nat) {
    && p + 8 + k <= |s| && s[p..p + 8] == "chart://" && 16 <= k <= 64
    && (forall i :: p + 8 <= i < p + 8 + k ==> HexDigit(s[i]))
    && (k < 64 && p + 8 + k < |s| ==> !HexDigit(s[p + 8 + k]))
  }

  lemma HexDigitIs(c: char)
    ensures IsHex(c) <==> HexDigit(c)
  {
    if IsHex(c) {
      if c <= '9' {
        DigitListed(c);
      } else {
        LetterListed(c);
      }
    }
  }

  lemma DigitListed(c: char)
    requires '0' <= c <= '9'
    ensures HexDigit(c)
  {
    var all := "0123456789abcdef";
    assert all[c as int - '0' as int] == c;
  }

  lemma LetterListed(c: char)
    requires 'a' <= c <= 'f'
    ensures HexDigit(c)
  {
    var all := "0123456789abcdef";
    assert all[10 + (c as int - 'a' as int)] == c;
  }

  lemma {:induction false} RunLength(s: string, p: nat, cap: nat, k: nat)
    requires p + k <= |s| && k <= cap && forall i :: p <= i < p + k ==> IsHex(s[i])
    requires k < cap && p + k < |s| ==> !IsHex(s[p + k])
    ensures HexRun(s, p, cap) == k
    decreases k
  {
    if k > 0 {
      RunLength(s, p + 1, cap - 1, k - 1);
    }
  }

  lemma HexDigitsAre()
    ensures forall c :: IsHex(c) <==> HexDigit(c)
  {
    forall c
      ensures IsHex(c) <==> HexDigit(c)
    {
      HexDigitIs(c);
    }
  }

  lemma MarkerIsToken(s: string, p: nat, k: nat)
    requires MarkerAt(s, p, k)
    ensures TokenLen(s, p) == 8 + k
  {
    HexDigitsAre();
    RunLength(s, p + 8, 64, k);
  }

  /** The digits of a token, for any word for them. */
  lemma TokenDigits(s: string, p: nat, digit: char -> bool)
    requires p <= |s| && TokenLen(s, p) > 0 && forall c :: IsHex(c) <==> digit(c)
    ensures var k := TokenLen(s, p) - 8;
            && 16 <= k <= 64 && (forall i :: p + 8 <= i < p + 8 + k ==> digit(s[i]))
            && (k < 64 && p + 8 + k < |s| ==> !digit(s[p + 8 + k]))
  {
    HexRunMaximal(s, p + 8, 64);
  }

  lemma TokenIsMarker(s: string, p: nat)
    requires p <= |s| && TokenLen(s, p) > 0
    ensures MarkerAt(s, p, TokenLen(s, p) - 8)
  {
    HexDigitsAre();
    TokenDigits(s, p, HexDigit);
  }

  /** The length of a token is that of the marker and the whole id. */
  lemma TokenLenIff(s: string, p: nat, k: nat)
    requires p <= |s|
    ensures TokenLen(s, p) == 8 + k <==> MarkerAt(s, p, k)
  {
    if MarkerAt(s, p, k) {
      MarkerIsToken(s, p, k);
    } else if TokenLen(s, p) > 0 {
      TokenIsMarker(s, p);
    }
  }

  lemma NoTokenIff(s: string, p: nat)
    requires p <= |s|
    ensures TokenLen(s, p) == 0 <==> forall k :: 0 <= k <= |s| ==> !MarkerAt(s, p, k)
  {
    forall k: nat
      ensures TokenLen(s, p) == 8 + k <==> MarkerAt(s, p, k)
    {
      TokenLenIff(s, p, k);
    }
    if TokenLen(s, p) > 0 {
      assert MarkerAt(s, p, TokenLen(s, p) - 8);
    }
  }

  // ---- a text and its charts ----

  /** No marker with an id begins before position `q`. */
  ghost predicate PlainUpTo(s: string, q: nat) {
    forall p: nat, k: nat :: p < q && p <= |s| ==> !MarkerAt(s, p, k)
  }

  /** Text without markers is copied. */
  lemma {:induction false} PlainIsCopied(env: Env, l: Ledger, s: string, p: nat, q: nat)
    requires p <= q <= |s| && PlainUpTo(s, q)
    ensures Replace(env, l, s, p) == Prepend(s[p..q], Replace(env, l, s, q))
    decreases q - p
  {
    if p == q {
      NothingInFront(s, p, Replace(env, l, s, p));
    } else {
      NoTokenIff(s, p);
      ReplaceStep(env, l, s, p);
      PlainIsCopied(env, l, s, p + 1, q);
      PrependTwice([s[p]], s[p + 1..q], Replace(env, l, s, q));
      FirstOfSlice(s, p, q);
    }
  }

  /** What stands for a chart: its picture as a URI, or nothing when there is none. */
  function Picture(env: Env, svg: string): string {
    if svg == "" then "" else "data:image/svg+xml;base64," + env.b64(svg)
  }

  /** The answer to a fetch of `id` in this state; a chart fetched before is not fetched again. */
  function PieceFor(env: Env, l: Ledger, id: string): string {
    if id in l.cache then l.cache[id] else Picture(env, env.fetch(|l.calls|, id))
  }

  /** The state after it. */
  function LedgerAfter(env: Env, l: Ledger, id: string): Ledger {
    if id in l.cache then l.(replaced := l.replaced + 1)
    else if env.fetch(|l.calls|, id) == "" then l.(failed := l.failed + 1, calls := l.calls + [(id, false)])
    else
      Ledger(l.cache[id := Picture(env, env.fetch(|l.calls|, id))], l.replaced + 1, l.failed, l.calls + [(id, true)])
  }

  /** A text that is plain up to a marker with a whole id: the plain text is copied, the marker with its whole id
      becomes the picture of that id, and then the rest is replaced. */
  lemma FirstChart(env: Env, l: Ledger, plain: string, id: string, rest: string)
    requires var s := plain + ("chart://" + id + rest); MarkerAt(s, |plain|, |id|) && PlainUpTo(s, |plain|)
    ensures Replace(env, l, plain + ("chart://" + id + rest), 0)
         == Prepend(plain + PieceFor(env, l, id), Replace(env, LedgerAfter(env, l, id), rest, 0))
  {
    var s, q, n := plain + ("chart://" + id + rest), |plain|, 8 + |id|;
    PlainIsCopied(env, l, s, 0, q);
    MarkerIsToken(s, q, |id|);
    Slices(plain, id, rest);
    ChartReplaced(env, l, s, q, n, id, rest);
    PrependTwice(plain, PieceFor(env, l, id), Replace(env, LedgerAfter(env, l, id), rest, 0));
  }

  lemma Fetched(env: Env, l: Ledger, id: string)
    ensures Count(LookUp(env, l, id)) == (LedgerAfter(env, l, id), PieceFor(env, l, id))
  {
  }

  lemma ChartReplaced(env: Env, l: Ledger, s: string, q: nat, n: nat, id: string, rest: string)
    requires q < |s| && TokenLen(s, q) == n > 0 && s[q + 8..q + n] == id && s[q + n..] == rest
    ensures Replace(env, l, s, q) == Prepend(PieceFor(env, l, id), Replace(env, LedgerAfter(env, l, id), rest, 0))
  {
    ReplaceToken(env, l, s, q, n);
    Fetched(env, l, id);
    ReplaceSuffix(env, LedgerAfter(env, l, id), s, q + n);
  }

  lemma Slices(plain: string, id: string, rest: string)
    ensures var s, q := plain + ("chart://" + id + rest), |plain|;
            s[0..q] == plain && s[q + 8..q + 8 + |id|] == id && s[q + 8 + |id|..] == rest
  {
  }

  /** A text without charts stays as it is. */
  lemma NoChart(env: Env, l: Ledger, s: string)
    requires PlainUpTo(s, |s|)
    ensures Replace(env, l, s, 0) == (l, s)
  {
    PlainIsCopied(env, l, s, 0, |s|);
    ReplaceEnd(env, l, s, |s|);
    assert s[0..|s|] == s && s + "" == s;
  }

  /** A finished text with one chart: the URI of the picture of the whole id in its place; without a picture nothing in
      its place and the notice behind. */
  lemma OneChartText(env: Env, plain: string, id: string, rest: string)
    requires var s := plain + ("chart://" + id + rest); MarkerAt(s, |plain|, |id|) && PlainUpTo(s, |plain|)
    requires PlainUpTo(rest, |rest|) && !Contains(plain + rest, FAILED_MARK)
    ensures var svg := env.fetch(0, id);
            WholeStep(env, EMPTY, plain + ("chart://" + id + rest)).1
            == if svg != "" then plain + ("data:image/svg+xml;base64," + env.b64(svg)) + rest else plain + rest + NOTICE
  {
    var l := EMPTY.ledger;
    FirstChart(env, l, plain, id, rest);
    NoChart(env, LedgerAfter(env, l, id), rest);
    SubstituteIsReplace(env, l, plain + ("chart://" + id + rest));
    assert plain + "" == plain;
  }

  // ---- any text ----

  /** `s` is `plain`, a marker with a whole id, and `rest`, and the marker is the first one. */
  ghost predicate BeginsWithChart(s: string, plain: string, id: string, rest: string) {
    s == plain + ("chart://" + id + rest) && MarkerAt(s, |plain|, |id|) && PlainUpTo(s, |plain|)
  }

  /** Chart after chart becomes its picture; the state goes from `l` to `after`. */
  ghost predicate Rewritten(env: Env, l: Ledger, s: string, after: Ledger, out: string)
    decreases |s|
  {
    if PlainUpTo(s, |s|) then after == l && out == s
    else
      exists plain, id, rest, more ::
        && BeginsWithChart(s, plain, id, rest) && |rest| < |s|
        && Rewritten(env, LedgerAfter(env, l, id), rest, after, more) && out == plain + PieceFor(env, l, id) + more
  }

  lemma FindsChart(s: string) returns (plain: string, id: string, rest: string)
    requires !PlainUpTo(s, |s|)
    ensures BeginsWithChart(s, plain, id, rest) && |rest| < |s|
  {
    var q: nat := 0;
    while forall k: nat :: !MarkerAt(s, q, k)
      invariant q <= |s| && PlainUpTo(s, q)
      decreases |s| - q
    {
      q := q + 1;
    }
    var k: nat :| MarkerAt(s, q, k);
    plain, id, rest := s[..q], s[q + 8..q + 8 + k], s[q + 8 + k..];
    assert s == s[..q] + (s[q..q + 8] + s[q + 8..q + 8 + k] + s[q + 8 + k..]);
  }

  lemma {:induction false} ReplaceIsRewritten(env: Env, l: Ledger, s: string)
    ensures var (after, out) := Replace(env, l, s, 0); Rewritten(env, l, s, after, out)
    decreases |s|
  {
    if PlainUpTo(s, |s|) {
      NoChart(env, l, s);
    } else {
      var plain, id, rest := FindsChart(s);
      FirstChart(env, l, plain, id, rest);
      ReplaceIsRewritten(env, LedgerAfter(env, l, id), rest);
    }
  }

  /** What comes of a text: its charts become pictures, and the notice stands behind if a fetch failed so far and the
      text does not say so itself. */
  ghost predicate Substituted(env: Env, l: Ledger, s: string, after: Ledger, out: string) {
    exists body ::
      && Rewritten(env, l, s, after, body)
      && out == if after.failed > 0 && !Contains(body, FAILED_MARK) then body + NOTICE else body
  }

  lemma SubstituteIs(env: Env, l: Ledger, s: string)
    ensures var (after, out) := Substitute(env, l, s); Substituted(env, l, s, after, out)
  {
    SubstituteIsReplace(env, l, s);
    ReplaceIsRewritten(env, l, s);
  }

  // ---- what is held back ----

  /** The buffer ends with the first `n` characters of the marker, but not all of it. */
  predicate EndsInPart(buf: string, n: nat) {
    1 <= n <= 7 && n <= |buf| && buf[|buf| - n..] == "chart://"[..n]
  }

  /** From the last marker of the buffer on there are fewer than 64 digits, and nothing else. */
  predicate OpenChart(buf: string, p: nat) {
    && p + 8 <= |buf| < p + 8 + 64 && buf[p..p + 8] == "chart://"
    && (forall i :: p + 8 <= i < |buf| ==> HexDigit(buf[i]))
  }

  /** Held back is the longest beginning of a marker at the end, or else a marker whose id may go on, or nothing. */
  ghost predicate HeldFrom(buf: string, cut: nat) {
    if exists n: nat :: EndsInPart(buf, n) then
      cut <= |buf| && EndsInPart(buf, |buf| - cut) && forall m: nat :: EndsInPart(buf, m) ==> m <= |buf| - cut
    else if exists p: nat :: OpenChart(buf, p) then OpenChart(buf, cut)
    else cut == |buf|
  }

  lemma PartIs(buf: string, n: nat)
    requires 1 <= n <= 7
    ensures EndsInPart(buf, n) <==> EndsWith(buf, MARKER[..n])
  {
  }

  lemma OpenIs(buf: string, p: nat)
    requires At(buf, p, MARKER)
    ensures OpenChart(buf, p) <==> |buf[p + 8..]| < 64 && AllHex(buf[p + 8..])
  {
    var tail := buf[p + 8..];
    HexDigitsAre();
    if AllHex(tail) {
      forall i | p + 8 <= i < |buf|
        ensures HexDigit(buf[i])
      {
        assert buf[i] == tail[i - p - 8];
      }
    }
  }

  /** A character behind the first one of a marker is none of the first ones of another. */
  lemma MarkerChar(s: string, p: nat, i: nat)
    requires At(s, p, MARKER) && i < 8
    ensures s[p + i] == MARKER[i]
  {
    assert s[p..p + 8][i] == MARKER[i];
  }

  lemma NoDigit()
    ensures !HexDigit(MARKER[1])
  {
  }

  lemma OpenIsLast(buf: string, p: nat, q: nat)
    requires OpenChart(buf, p) && At(buf, q, MARKER)
    ensures q <= p
  {
    if q >= p + 8 {
      MarkerChar(buf, q, 1);
      NoDigit();
    } else if q > p {
      MarkerChar(buf, p, q - p);
      MarkerChar(buf, q, 0);
    }
  }

  lemma HoldbackIs(buf: string)
    ensures HeldFrom(buf, Holdback(buf))
  {
    var n := PartialMarker(buf, 7);
    forall m: nat
      ensures EndsInPart(buf, m) ==> m <= n
      ensures m == n > 0 ==> EndsInPart(buf, m)
    {
      if 1 <= m <= 7 {
        PartIs(buf, m);
      }
    }
    if n == 0 {
      LastIsOpen(buf);
    }
  }

  lemma LastIsOpen(buf: string)
    ensures var r := LastMarker(buf, |buf|);
            && (forall p: nat :: OpenChart(buf, p) ==> r == Some(p))
            && (r.Some? && |buf[r.value + 8..]| < 64 && AllHex(buf[r.value + 8..]) ==> OpenChart(buf, r.value))
  {
    var r := LastMarker(buf, |buf|);
    forall p: nat | OpenChart(buf, p)
      ensures r == Some(p)
    {
      assert At(buf, p, MARKER);
      OpenIsLast(buf, p, r.value);
    }
    if r.Some? {
      OpenIs(buf, r.value);
    }
  }
}
