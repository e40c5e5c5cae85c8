/** Streaming replacement of `chart://<id>` markers by data URIs (shared/chart_inline.py). */
module ChartInline {
  import opened Text

  const MARKER := "chart://"
  const MIN_ID_LEN := 16
  const MAX_ID_LEN := 64
  const MAX_HELD := 71  // the marker plus an id one character short of the maximum
  const URI_PREFIX := "data:image/svg+xml;base64,"
  const FAILED_MARK := "차트 이미지를 불러오지 못했습니다"
  const NOTICE := "\n\n(차트 이미지를 불러오지 못했습니다 - chart-mcp 상태를 확인하세요.)"

  /** Length of the run of hex digits at `p`, counted up to `cap`. */
  function HexRun(s: string, p: nat, cap: nat): (n: nat)
    requires p <= |s|
    ensures n <= cap && p + n <= |s|
    decreases |s| - p
  {
    if cap == 0 || p == |s| || !IsHex(s[p]) then 0 else 1 + HexRun(s, p + 1, cap - 1)
  }

  /** The run consists of hex digits and cannot be extended below the cap. */
  lemma {:induction false} HexRunMaximal(s: string, p: nat, cap: nat)
    requires p <= |s|
    ensures var n := HexRun(s, p, cap);
            && (forall j :: p <= j < p + n ==> IsHex(s[j]))
            && (n < cap && p + n < |s| ==> !IsHex(s[p + n]))
    decreases |s| - p
  {
    if cap > 0 && p < |s| && IsHex(s[p]) {
      HexRunMaximal(s, p + 1, cap - 1);
    }
  }

  /** The pattern `chart://([0-9a-f]{16,64})` anchored at `p`: length of the match, 0 for none. */
  function TokenLen(s: string, p: nat): (n: nat)
    requires p <= |s|
    ensures p + n <= |s|
    ensures n > 0 ==> At(s, p, MARKER) && |MARKER| + MIN_ID_LEN <= n <= |MARKER| + MAX_ID_LEN
  {
    if !At(s, p, MARKER) then 0
    else
      var k := HexRun(s, p + |MARKER|, MAX_ID_LEN);
      if k < MIN_ID_LEN then 0 else |MARKER| + k
  }

  /** Whole-text replacement from `p` on: leftmost matches, none overlapping. */
  function Inline(s: string, p: nat, uri: string -> string): string
    requires p <= |s|
    decreases |s| - p
  {
    if p == |s| then ""
    else
      var n := TokenLen(s, p);
      if n > 0 then uri(s[p + |MARKER|..p + n]) + Inline(s, p + n, uri)
      else [s[p]] + Inline(s, p + 1, uri)
  }

  datatype Match = Match(start: nat, end: nat, id: string)

  /** Where the `i`-th stretch of plain text begins. */
  function Resume(ms: seq<Match>, i: nat): nat
    requires i <= |ms|
  {
    if i == 0 then 0 else ms[i - 1].end
  }

  /** The matches lie in `s`, one after the other. */
  ghost predicate Ordered(s: string, ms: seq<Match>) {
    forall i :: 0 <= i < |ms| ==> Resume(ms, i) <= ms[i].start <= ms[i].end <= |s|
  }

  /** `_TOKEN_RE.finditer(s)` from position `p` on. */
  function Matches(s: string, p: nat): (ms: seq<Match>)
    requires p <= |s|
    ensures Ordered(s, ms)
    ensures ms != [] ==> p <= ms[0].start
    decreases |s| - p
  {
    if p == |s| then []
    else
      var n := TokenLen(s, p);
      if n > 0 then [Match(p, p + n, s[p + |MARKER|..p + n])] + Matches(s, p + n)
      else Matches(s, p + 1)
  }

  /** The longest proper prefix of the marker, at most `n` long, that `buf` ends with. */
  function PartialMarker(buf: string, n: nat): (k: nat)
    requires n < |MARKER|
    ensures k <= n
    ensures k > 0 ==> EndsWith(buf, MARKER[..k])
    ensures forall m :: k < m <= n ==> !EndsWith(buf, MARKER[..m])
  {
    if n == 0 || EndsWith(buf, MARKER[..n]) then n else PartialMarker(buf, n - 1)
  }

  /** `buf.rfind("chart://")` among the positions up to `p`. */
  function LastMarker(buf: string, p: nat): (r: Option<nat>)
    ensures r.Some? ==> r.value <= p && At(buf, r.value, MARKER)
    ensures forall i: nat :: (r.None? || r.value < i) && i <= p ==> !At(buf, i, MARKER)
  {
    if At(buf, p, MARKER) then Some(p) else if p == 0 then None else LastMarker(buf, p - 1)
  }

  predicate AllHex(s: string) {
    forall j :: 0 <= j < |s| ==> IsHex(s[j])
  }

  /** How much of the buffer may be released now. */
  function Holdback(buf: string): (cut: nat)
    ensures cut <= |buf| <= cut + MAX_HELD
  {
    var n := PartialMarker(buf, |MARKER| - 1);
    if n > 0 then |buf| - n
    else
      match LastMarker(buf, |buf|)
      case None => |buf|
      case Some(idx) =>
        var tail := buf[idx + |MARKER|..];
        if |tail| < MAX_ID_LEN && AllHex(tail) then idx else |buf|
  }

  // ---- state ----

  /** The injected fetcher (given how many fetches came before it; "" stands for an empty, missing or failed
      answer) and the base64 encoder. */
  datatype Env = Env(fetch: (nat, string) -> string, b64: string -> string)

  function DataUri(env: Env, svg: string): string {
    URI_PREFIX + env.b64(svg)
  }

  /** Everything `_substitute` changes; `calls` records each fetch and whether it gave a picture. */
  datatype Ledger = Ledger(cache: map<string, string>, replaced: nat, failed: nat, calls: seq<(string, bool)>)

  datatype State = State(buf: string, ledger: Ledger)

  const EMPTY := State("", Ledger(map[], 0, 0, []))

  function LookUp(env: Env, l: Ledger, id: string): (Ledger, Option<string>) {
    if id in l.cache then (l, Some(l.cache[id]))
    else
      var svg := env.fetch(|l.calls|, id);
      if svg == "" then (l.(calls := l.calls + [(id, false)]), None)
      else
        var uri := DataUri(env, svg);
        (l.(cache := l.cache[id := uri], calls := l.calls + [(id, true)]), Some(uri))
  }

  function Count(found: (Ledger, Option<string>)): (Ledger, string) {
    match found.1
    case Some(uri) => (found.0.(replaced := found.0.replaced + 1), uri)
    case None => (found.0.(failed := found.0.failed + 1), "")
  }

  /** What `_substitute` has appended after the first `i` matches. */
  function Fill(env: Env, l: Ledger, s: string, ms: seq<Match>, i: nat): (Ledger, string)
    requires Ordered(s, ms) && i <= |ms|
  {
    if i == 0 then (l, "")
    else
      var (l1, out) := Fill(env, l, s, ms, i - 1);
      var m := ms[i - 1];
      var (l2, piece) := Count(LookUp(env, l1, m.id));
      (l2, out + s[Resume(ms, i - 1)..m.start] + piece)
  }

  function Notify(l: Ledger, text: string): string {
    if l.failed > 0 && !Contains(text, FAILED_MARK) then text + NOTICE else text
  }

  function Substitute(env: Env, l: Ledger, text: string): (Ledger, string) {
    var ms := Matches(text, 0);
    var (l1, out) := Fill(env, l, text, ms, |ms|);
    (l1, Notify(l1, out + text[Resume(ms, |ms|)..]))
  }

  /** Substitution is skipped for an empty emission. */
  function Emit(env: Env, l: Ledger, emit: string): (Ledger, string) {
    if emit == "" then (l, "") else Substitute(env, l, emit)
  }

  function FeedStep(env: Env, st: State, delta: string): (State, string) {
    if delta == "" then (st, "")
    else
      var buf := st.buf + delta;
      var cut := Holdback(buf);
      var (l, out) := Emit(env, st.ledger, buf[..cut]);
      (State(buf[cut..], l), out)
  }

  function FlushStep(env: Env, st: State): (State, string) {
    var (l, out) := Emit(env, st.ledger, st.buf);
    (State("", l), out)
  }

  function WholeStep(env: Env, st: State, text: string): (State, string) {
    var (l, out) := Substitute(env, st.ledger, text);
    (st.(ledger := l), out)
  }

  /** One answer streamed as `deltas` and then flushed. */
  function Streamed(env: Env, st: State, deltas: seq<string>): (State, string)
    decreases deltas
  {
    if deltas == [] then FlushStep(env, st)
    else
      var (st1, out) := FeedStep(env, st, deltas[0]);
      var (st2, rest) := Streamed(env, st1, deltas[1..]);
      (st2, out + rest)
  }

  class ChartInliner {
    const env: Env
    var buf: string
    var cache: map<string, string>
    var replaced: nat
    var failed: nat
    var calls: seq<(string, bool)>

    function Abs(): State
      reads this
    {
      State(buf, Ledger(cache, replaced, failed, calls))
    }

    constructor (env: Env)
      ensures this.env == env && Abs() == EMPTY
    {
      this.env := env;
      buf, cache, replaced, failed, calls := "", map[], 0, 0, [];
    }

    method FetchDataUri(id: string) returns (uri: Option<string>)
      modifies this
      ensures buf == old(buf)
      ensures (Abs().ledger, uri) == LookUp(env, old(Abs().ledger), id)
    {
      if id in cache {
        return Some(cache[id]);
      }
      var svg := env.fetch(|calls|, id);
      calls := calls + [(id, svg != "")];
      if svg == "" {
        return None;
      }
      uri := Some(DataUri(env, svg));
      cache := cache[id := uri.value];
    }

    method SubstituteText(text: string) returns (result: string)
      modifies this
      ensures buf == old(buf)
      ensures (Abs().ledger, result) == Substitute(env, old(Abs().ledger), text)
    {
      var out, last, ms := "", 0, Matches(text, 0);
      ghost var start := Abs().ledger;
      for i := 0 to |ms|
        invariant buf == old(buf) && last == Resume(ms, i)
        invariant (Abs().ledger, out) == Fill(env, start, text, ms, i)
      {
        out := out + text[last..ms[i].start];
        var uri := FetchDataUri(ms[i].id);
        if uri.Some? {
          out := out + uri.value;
          replaced := replaced + 1;
        } else {
          out := out + "";
          failed := failed + 1;
        }
        last := ms[i].end;
      }
      out := out + text[last..];
      result := out;
      if failed > 0 && !Contains(result, FAILED_MARK) {
        result := result + NOTICE;
      }
    }

    method Feed(delta: string) returns (out: string)
      modifies this
      ensures (Abs(), out) == FeedStep(env, old(Abs()), delta)
    {
      if delta == "" {
        return "";
      }
      buf := buf + delta;
      var cut := Holdback(buf);
      var emit := buf[..cut];
      buf := buf[cut..];
      out := "";
      if emit != "" {
        out := SubstituteText(emit);
      }
    }

    method Flush() returns (out: string)
      modifies this
      ensures (Abs(), out) == FlushStep(env, old(Abs()))
    {
      var emit := buf;
      buf := "";
      out := "";
      if emit != "" {
        out := SubstituteText(emit);
      }
    }

    method Whole(text: string) returns (out: string)
      modifies this
      ensures (Abs(), out) == WholeStep(env, old(Abs()), text)
    {
      out := SubstituteText(text);
    }
  }
}
