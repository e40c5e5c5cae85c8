/** The condition on chart ids under which streaming equals whole-text processing is exact (shared/chart_inline.py). */
module ChartConverse {
  import opened Text
  import opened ChartInline
  import opened ChartStreaming

  /** Every fetch of `id`, whenever it happens, yields the picture `svg(id)`. */
  ghost predicate Serves(env: Env, svg: string -> string) {
    forall n: nat, id :: env.fetch(n, id) == svg(id) != ""
  }

  function UriOf(env: Env, svg: string -> string): string -> string {
    id => DataUri(env, svg(id))
  }

  ghost predicate Faithful(env: Env, svg: string -> string, l: Ledger) {
    && l.failed == 0
    && forall id :: id in l.cache ==> l.cache[id] == UriOf(env, svg)(id)
  }

  lemma LookUpServed(env: Env, svg: string -> string, l: Ledger, id: string)
    requires Serves(env, svg) && Faithful(env, svg, l)
    ensures var (l1, piece) := Count(LookUp(env, l, id));
            Faithful(env, svg, l1) && piece == UriOf(env, svg)(id)
  {
  }

  lemma InlineStep(s: string, p: nat, uri: string -> string)
    requires p < |s| && TokenLen(s, p) == 0
    ensures Inline(s, p, uri) == [s[p]] + Inline(s, p + 1, uri)
  {
  }

  lemma InlineToken(s: string, p: nat, uri: string -> string)
    requires p < |s| && TokenLen(s, p) > 0
    ensures Inline(s, p, uri) == uri(s[p + |MARKER|..p + TokenLen(s, p)]) + Inline(s, p + TokenLen(s, p), uri)
  {
  }

  ghost predicate ServedFrom(env: Env, svg: string -> string, l: Ledger, s: string, p: nat)
    requires p <= |s|
  {
    var r := Replace(env, l, s, p);
    Faithful(env, svg, r.0) && r.1 == Inline(s, p, UriOf(env, svg))
  }

  lemma ServedToken(env: Env, svg: string -> string, l: Ledger, s: string, p: nat, n: nat)
    requires p < |s| && TokenLen(s, p) == n > 0 && Serves(env, svg) && Faithful(env, svg, l)
    requires ServedFrom(env, svg, Count(LookUp(env, l, s[p + |MARKER|..p + n])).0, s, p + n)
    ensures ServedFrom(env, svg, l, s, p)
  {
    ReplaceToken(env, l, s, p, n);
    InlineToken(s, p, UriOf(env, svg));
    LookUpServed(env, svg, l, s[p + |MARKER|..p + n]);
  }

  lemma ServedStep(env: Env, svg: string -> string, l: Ledger, s: string, p: nat)
    requires p < |s| && TokenLen(s, p) == 0 && ServedFrom(env, svg, l, s, p + 1)
    ensures ServedFrom(env, svg, l, s, p)
  {
    ReplaceStep(env, l, s, p);
    InlineStep(s, p, UriOf(env, svg));
  }

  /** With such a fetcher every marker becomes the URI of its own picture. */
  lemma {:induction false} ReplaceServed(env: Env, svg: string -> string, l: Ledger, s: string, p: nat)
    requires p <= |s| && Serves(env, svg) && Faithful(env, svg, l)
    ensures ServedFrom(env, svg, l, s, p)
    decreases |s| - p
  {
    if p == |s| {
      ReplaceEnd(env, l, s, p);
    } else if TokenLen(s, p) > 0 {
      var n := TokenLen(s, p);
      var id := s[p + |MARKER|..p + n];
      LookUpServed(env, svg, l, id);
      ReplaceServed(env, svg, Count(LookUp(env, l, id)).0, s, p + n);
      ServedToken(env, svg, l, s, p, n);
    } else {
      ReplaceServed(env, svg, l, s, p + 1);
      ServedStep(env, svg, l, s, p);
    }
  }

  lemma SubstituteServed(env: Env, svg: string -> string, l: Ledger, s: string)
    requires Serves(env, svg) && Faithful(env, svg, l)
    ensures Faithful(env, svg, Substitute(env, l, s).0)
    ensures Substitute(env, l, s).1 == Inline(s, 0, UriOf(env, svg))
  {
    SubstituteIsReplace(env, l, s);
    ReplaceServed(env, svg, l, s, 0);
    assert ServedFrom(env, svg, l, s, 0);
  }

  lemma InlineSplit(env: Env, svg: string -> string, s: string, q: nat)
    requires q <= |s| && Clean(s, q) && Serves(env, svg)
    ensures var uri := UriOf(env, svg); Inline(s, 0, uri) == Inline(s[..q], 0, uri) + Inline(s[q..], 0, uri)
  {
    var l := EMPTY.ledger;
    ReplaceSplit(env, l, s, q, 0);
    assert Splits(env, l, s, 0, s[..q], 0, s[q..]);
    ReplaceServed(env, svg, l, s, 0);
    ReplaceServed(env, svg, l, s[..q], 0);
    assert ServedFrom(env, svg, l, s, 0) && ServedFrom(env, svg, l, s[..q], 0);
    ReplaceServed(env, svg, Replace(env, l, s[..q], 0).0, s[q..], 0);
    assert ServedFrom(env, svg, Replace(env, l, s[..q], 0).0, s[q..], 0);
  }

  /** A fetcher that gives the same picture for an id every time. */
  function Steady(svg: string -> string, b64: string -> string): Env {
    Env((n, id) => svg(id), b64)
  }

  /** Two pictures whose encodings have the same length and differ. */
  ghost predicate Separates(b64: string -> string, one: string, two: string) {
    one != "" && two != "" && |b64(one)| == |b64(two)| && b64(one) != b64(two)
  }

  lemma {:induction false} LeastUnsafe(text: string, p: nat) returns (q: nat)
    requires UnsafeAt(text, p)
    ensures UnsafeAt(text, q) && forall r: nat :: r < q ==> !UnsafeAt(text, r)
  {
    if r: nat :| r < p && UnsafeAt(text, r) {
      q := LeastUnsafe(text, r);
    } else {
      q := p;
    }
  }

  lemma InId(text: string, r: nat, p: nat)
    requires r <= |text| && r + |MARKER| <= p < r + TokenLen(text, r)
    ensures text[p] in text[r + |MARKER|..r + TokenLen(text, r)]
  {
    assert text[p] == text[r + |MARKER|..r + TokenLen(text, r)][p - r - |MARKER|];
  }

  /** The tokens before the first unsafe one end before it begins. */
  lemma LeastUnsafeClean(text: string, p: nat)
    requires UnsafeAt(text, p) && forall r: nat :: r < p ==> !UnsafeAt(text, r)
    ensures Clean(text, p)
  {
    assert text[p] == text[p..p + |MARKER|][0] == 'c';
    forall r: nat | r < p && TokenLen(text, r) > 0
      ensures r + TokenLen(text, r) <= p
    {
      if p < r + |MARKER| {
        MarkerLetter(text, r, p);
      }
      assert !UnsafeAt(text, r);
      if r + |MARKER| <= p < r + TokenLen(text, r) {
        InId(text, r, p);
      }
    }
  }

  lemma LaterLetter(buf: string, k: nat)
    requires 1 < k <= |MARKER| && EndsWith(buf, MARKER[..k])
    ensures buf[|buf| - 1] != 'c'
  {
    assert buf[|buf| - 1] == buf[|buf| - k..][k - 1] == MARKER[..k][k - 1] == MARKER[k - 1];
  }

  /** A buffer that ends with the letter `c` is released up to that letter. */
  lemma HoldbackLetter(buf: string)
    requires buf != "" && buf[|buf| - 1] == 'c'
    ensures Holdback(buf) == |buf| - 1
  {
    var k := PartialMarker(buf, |MARKER| - 1);
    assert MARKER[..1] == ['c'];
    assert EndsWith(buf, MARKER[..1]);
    if k > 1 {
      LaterLetter(buf, k);
    }
  }

  lemma DifferBehind(p: string, x: string, y: string, w: string, k: nat)
    requires k < |x| && k < |w| && x[k] != w[k]
    ensures p + x + y != p + w
  {
    assert (p + x + y)[|p| + k] == x[k];
    assert (p + w)[|p| + k] == w[k];
  }

  lemma UrisDiffer(b64: string -> string, one: string, two: string) returns (k: nat)
    requires Separates(b64, one, two)
    ensures k < |URI_PREFIX + b64(one)| == |URI_PREFIX + b64(two)|
    ensures (URI_PREFIX + b64(one))[k] != (URI_PREFIX + b64(two))[k]
  {
    var i :| 0 <= i < |b64(one)| && b64(one)[i] != b64(two)[i];
    k := |URI_PREFIX| + i;
    assert (URI_PREFIX + b64(one))[k] == b64(one)[i] && (URI_PREFIX + b64(two))[k] == b64(two)[i];
  }

  /** A token begins with the first character of its URI. */
  lemma TokenStart(token: string, uri: string -> string, k: nat)
    requires TokenLen(token, 0) > 0
    ensures var u := uri(token[|MARKER|..TokenLen(token, 0)]);
            k < |u| ==> k < |Inline(token, 0, uri)| && Inline(token, 0, uri)[k] == u[k]
  {
    InlineToken(token, 0, uri);
  }

  lemma PlainStart(text: string, uri: string -> string)
    requires text != "" && TokenLen(text, 0) == 0
    ensures |Inline(text, 0, uri)| > 0 && Inline(text, 0, uri)[0] == text[0]
  {
    InlineStep(text, 0, uri);
  }

  ghost predicate DifferAt(x: string, y: string, k: nat) {
    k < |x| && k < |y| && x[k] != y[k]
  }

  /** Stopping inside an id that is then too short: the marker comes out instead of a URI. */
  lemma TornToText(token: string, j: nat, uri: string -> string)
    requires |MARKER| <= j < TokenLen(token, 0) && TokenLen(token[..j], 0) == 0
    requires URI_PREFIX <= uri(token[|MARKER|..TokenLen(token, 0)])
    ensures DifferAt(Inline(token[..j], 0, uri), Inline(token, 0, uri), 0)
  {
    TokenStart(token, uri, 0);
    PlainStart(token[..j], uri);
    assert token[0] == token[..|MARKER|][0] == 'c';
  }

  /** Stopping inside an id that is still long enough: the URI of another chart comes out. */
  lemma TornToUri(token: string, j: nat, uri: string -> string, k: nat)
    requires |MARKER| <= j < TokenLen(token, 0) && TokenLen(token[..j], 0) == j
    requires DifferAt(uri(token[..j][|MARKER|..j]), uri(token[|MARKER|..TokenLen(token, 0)]), k)
    ensures DifferAt(Inline(token[..j], 0, uri), Inline(token, 0, uri), k)
  {
    TokenStart(token, uri, k);
    TokenStart(token[..j], uri, k);
  }

  lemma UriIs(svg: string -> string, b64: string -> string, id: string)
    ensures UriOf(Steady(svg, b64), svg)(id) == URI_PREFIX + b64(svg(id))
  {
  }

  /** What comes out of a torn token differs from what comes out of the whole one. */
  lemma TornToken(token: string, j: nat, svg: string -> string, b64: string -> string, one: string, two: string)
      returns (k: nat)
    requires |MARKER| <= j < TokenLen(token, 0) && Separates(b64, one, two)
    requires svg(token[|MARKER|..TokenLen(token, 0)]) == one && svg(token[..j][|MARKER|..j]) == two
    ensures var uri := UriOf(Steady(svg, b64), svg); DifferAt(Inline(token[..j], 0, uri), Inline(token, 0, uri), k)
  {
    var uri := UriOf(Steady(svg, b64), svg);
    TokenTake(token, j, 0);
    UriIs(svg, b64, token[|MARKER|..TokenLen(token, 0)]);
    UriIs(svg, b64, token[..j][|MARKER|..j]);
    if TokenLen(token[..j], 0) == 0 {
      k := 0;
      TornToText(token, j, uri);
    } else {
      k := UrisDiffer(b64, one, two);
      TornToUri(token, j, uri, k);
    }
  }

  lemma SliceTake(text: string, p: nat, j: nat)
    requires p <= j <= |text|
    ensures text[..j][..p] == text[..p] && text[..j][p..] == text[p..][..j - p]
  {
  }

  /** The text before a torn token comes out as it should. */
  lemma BeforeToken(env: Env, svg: string -> string, text: string, p: nat, j: nat)
    requires p <= j <= |text| && Clean(text, p) && Serves(env, svg)
    ensures var uri := UriOf(env, svg);
            Inline(text[..j], 0, uri) == Inline(text[..p], 0, uri) + Inline(text[p..][..j - p], 0, uri)
  {
    CleanTake(text, p, j);
    SliceTake(text, p, j);
    InlineSplit(env, svg, text[..j], p);
  }

  /** Feeding a text up to and including a letter `c` releases everything before that letter. */
  lemma FeedToLetter(env: Env, svg: string -> string, text: string, j: nat)
    requires Serves(env, svg) && j < |text| && text[j] == 'c'
    ensures FeedStep(env, EMPTY, text[..j + 1]).1 == Inline(text[..j], 0, UriOf(env, svg))
  {
    HoldbackLetter(text[..j + 1]);
    assert EMPTY.buf + text[..j + 1] == text[..j + 1] && text[..j + 1][..j] == text[..j];
    SubstituteServed(env, svg, EMPTY.ledger, text[..j]);
  }

  /** If the replacements of a torn and of a whole token differ, so do the two outputs. */
  lemma TearShows(env: Env, svg: string -> string, text: string, p: nat, j: nat, k: nat)
    requires Serves(env, svg) && Clean(text, p) && p <= j < |text| && text[j] == 'c'
    requires DifferAt(Inline(text[p..][..j - p], 0, UriOf(env, svg)), Inline(text[p..], 0, UriOf(env, svg)), k)
    ensures Streamed(env, EMPTY, [text[..j + 1], text[j + 1..]]).1 != WholeStep(env, EMPTY, text).1
  {
    var uri, deltas := UriOf(env, svg), [text[..j + 1], text[j + 1..]];
    FeedToLetter(env, svg, text, j);
    SubstituteServed(env, svg, EMPTY.ledger, text);
    BeforeToken(env, svg, text, p, j);
    InlineSplit(env, svg, text, p);
    var rest := Streamed(env, FeedStep(env, EMPTY, deltas[0]).0, deltas[1..]).1;
    DifferBehind(Inline(text[..p], 0, uri), Inline(text[p..][..j - p], 0, uri), rest, Inline(text[p..], 0, uri), k);
  }

  /** The first unsafe token, cut off from the text before it, and a letter `c` in its id. */
  lemma FirstUnsafe(text: string) returns (p: nat, j: nat)
    requires !Safe(text)
    ensures p < p + |MARKER| <= j < |text| && text[j] == 'c' && Clean(text, p)
    ensures j - p < TokenLen(text[p..], 0)
  {
    var some: nat :| UnsafeAt(text, some);
    p := LeastUnsafe(text, some);
    LeastUnsafeClean(text, p);
    TokenShift(text, p, 0);
    var id := text[p + |MARKER|..p + TokenLen(text, p)];
    var i :| 0 <= i < |id| && id[i] == 'c';
    j := p + |MARKER| + i;
  }

  lemma TwoParts(text: string, j: nat)
    requires j <= |text|
    ensures Concat([text[..j], text[j..]]) == text
  {
    ConcatSnoc([text[..j]], text[j..]);
  }

  lemma SteadyServes(svg: string -> string, b64: string -> string)
    requires forall id :: svg(id) != ""
    ensures Serves(Steady(svg, b64), svg)
  {
  }

  /** A fetcher with one picture for `id` and another for all others. */
  function Chooser(id: string, one: string, two: string): string -> string {
    x => if x == id then one else two
  }

  lemma ChooserTears(token: string, j: nat, b64: string -> string, one: string, two: string) returns (k: nat)
    requires |MARKER| <= j < TokenLen(token, 0) && Separates(b64, one, two)
    ensures var svg := Chooser(token[|MARKER|..TokenLen(token, 0)], one, two);
            var uri := UriOf(Steady(svg, b64), svg);
            DifferAt(Inline(token[..j], 0, uri), Inline(token, 0, uri), k)
  {
    var id, torn := token[|MARKER|..TokenLen(token, 0)], token[..j][|MARKER|..j];
    assert |torn| < |id|;
    k := TornToken(token, j, Chooser(id, one, two), b64, one, two);
  }

  /** An unsafe text has a two-part cut for which some fetcher makes streaming differ from the whole. */
  lemma {:induction false} UnsafeDiffers(b64: string -> string, one: string, two: string, text: string)
      returns (svg: string -> string, deltas: seq<string>)
    requires Separates(b64, one, two) && !Safe(text)
    ensures Serves(Steady(svg, b64), svg) && Concat(deltas) == text && |deltas| == 2
    ensures Streamed(Steady(svg, b64), EMPTY, deltas).1 != WholeStep(Steady(svg, b64), EMPTY, text).1
  {
    var p, j := FirstUnsafe(text);
    svg := Chooser(text[p..][|MARKER|..TokenLen(text[p..], 0)], one, two);
    deltas := [text[..j + 1], text[j + 1..]];
    TwoParts(text, j + 1);
    var k := ChooserTears(text[p..], j - p, b64, one, two);
    SteadyServes(svg, b64);
    TearShows(Steady(svg, b64), svg, text, p, j, k);
  }

  /** What a fetcher makes of a text when nothing fails: streamed in any way it is as at once. */
  ghost predicate StreamsAsWhole(env: Env, text: string) {
    forall deltas: seq<string> ::
      Concat(deltas) == text && WholeStep(env, EMPTY, text).0.ledger.failed == 0 ==>
        Streamed(env, EMPTY, deltas).1 == WholeStep(env, EMPTY, text).1
  }

  /** The exact condition: for all fetchers and all cuts, streaming agrees with whole-text processing whenever no fetch
      failed, precisely when no chart id in the text contains the letter `c`. */
  lemma {:induction false} StreamingMatchesWholeExactly(b64: string -> string, one: string, two: string, text: string)
    requires Separates(b64, one, two)
    ensures Safe(text) <==> forall fetch: (nat, string) -> string :: StreamsAsWhole(Env(fetch, b64), text)
  {
    if Safe(text) {
      forall fetch: (nat, string) -> string
        ensures StreamsAsWhole(Env(fetch, b64), text)
      {
        SafeStreams(Env(fetch, b64), text);
      }
    } else {
      var svg, deltas := UnsafeDiffers(b64, one, two, text);
      SubstituteServed(Steady(svg, b64), svg, EMPTY.ledger, text);
      assert !StreamsAsWhole(Env(Steady(svg, b64).fetch, b64), text);
    }
  }

  lemma SafeStreams(env: Env, text: string)
    requires Safe(text)
    ensures StreamsAsWhole(env, text)
  {
    forall deltas: seq<string> | Concat(deltas) == text && WholeStep(env, EMPTY, text).0.ledger.failed == 0
      ensures Streamed(env, EMPTY, deltas).1 == WholeStep(env, EMPTY, text).1
    {
      StreamingMatchesWhole(env, text, deltas);
    }
  }
}
