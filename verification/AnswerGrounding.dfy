/** What the answer guard guarantees: only grounded values come out, reviewing twice changes nothing, and more evidence
    never removes more (agent_server/main.py). */
module AnswerGrounding {
  import opened Text
  import opened AnswerGuard

  // ---- matching stays within the stretches between white space ----

  /** `s` is `a`, one white-space character, and `b`. */
  ghost predicate Seam(x: Chars, s: string, a: string, c: char, b: string) {
    s == a + [c] + b && x.space(c) && Proper(x)
  }

  lemma {:induction false} DigitRunBefore(x: Chars, s: string, a: string, c: char, b: string, p: nat)
    requires Seam(x, s, a, c, b) && p <= |a|
    ensures DigitRun(x, s, p) == DigitRun(x, a, p)
    decreases |a| - p
  {
    if p < |a| {
      DigitRunBefore(x, s, a, c, b, p + 1);
    }
  }

  lemma {:induction false} DigitRunAfter(x: Chars, s: string, a: string, c: char, b: string, p: nat)
    requires Seam(x, s, a, c, b) && p <= |b|
    ensures DigitRun(x, s, |a| + 1 + p) == DigitRun(x, b, p)
    decreases |b| - p
  {
    if p < |b| {
      DigitRunAfter(x, s, a, c, b, p + 1);
    }
  }

  lemma {:induction false} PathRunBefore(x: Chars, s: string, a: string, c: char, b: string, p: nat)
    requires Seam(x, s, a, c, b) && p <= |a|
    ensures PathRun(x, s, p) == PathRun(x, a, p)
    decreases |a| - p
  {
    if p < |a| {
      PathRunBefore(x, s, a, c, b, p + 1);
    } else {
      assert s[p] == c && !PathChar(x, c);
    }
  }

  lemma {:induction false} PathRunAfter(x: Chars, s: string, a: string, c: char, b: string, p: nat)
    requires Seam(x, s, a, c, b) && p <= |b|
    ensures PathRun(x, s, |a| + 1 + p) == PathRun(x, b, p)
    decreases |b| - p
  {
    if p < |b| {
      PathRunAfter(x, s, a, c, b, p + 1);
    }
  }

  lemma {:induction false} OctetsBefore(x: Chars, s: string, a: string, c: char, b: string, p: nat, dots: nat)
    requires Seam(x, s, a, c, b) && p <= |a|
    ensures Octets(x, s, p, dots) == Octets(x, a, p, dots)
    decreases |a| - p
  {
    DigitRunBefore(x, s, a, c, b, p);
    var d := DigitRun(x, a, p);
    if dots > 0 && d > 0 && p + d < |a| {
      OctetsBefore(x, s, a, c, b, p + d + 1, dots - 1);
    } else {
      assert p + d == |a| ==> s[p + d] == c && c != '.';
    }
  }

  lemma {:induction false} OctetsAfter(x: Chars, s: string, a: string, c: char, b: string, p: nat, dots: nat)
    requires Seam(x, s, a, c, b) && p <= |b|
    ensures Octets(x, s, |a| + 1 + p, dots) == Octets(x, b, p, dots)
    decreases |b| - p
  {
    DigitRunAfter(x, s, a, c, b, p);
    var d := DigitRun(x, b, p);
    if dots > 0 && d > 0 && p + d < |b| {
      OctetsAfter(x, s, a, c, b, p + d + 1, dots - 1);
    }
  }

  lemma {:induction false} SegmentsBefore(x: Chars, s: string, a: string, c: char, b: string, p: nat)
    requires Seam(x, s, a, c, b) && p <= |a|
    ensures Segments(x, s, p) == Segments(x, a, p)
    decreases |a| - p
  {
    PathRunBefore(x, s, a, c, b, p);
    var r := PathRun(x, a, p);
    if r > 0 && p + r < |a| {
      SegmentsBefore(x, s, a, c, b, p + r + 1);
    } else {
      assert p + r == |a| ==> s[p + r] == c && c != '/';
    }
  }

  lemma {:induction false} SegmentsAfter(x: Chars, s: string, a: string, c: char, b: string, p: nat)
    requires Seam(x, s, a, c, b) && p <= |b|
    ensures Segments(x, s, |a| + 1 + p) == Segments(x, b, p)
    decreases |b| - p
  {
    PathRunAfter(x, s, a, c, b, p);
    var r := PathRun(x, b, p);
    if r > 0 && p + r < |b| {
      SegmentsAfter(x, s, a, c, b, p + r + 1);
    }
  }

  lemma MatchBefore(x: Chars, kind: Kind, s: string, a: string, c: char, b: string, p: nat)
    requires Seam(x, s, a, c, b) && p <= |a|
    ensures MatchLen(x, kind, s, p) == MatchLen(x, kind, a, p)
  {
    match kind
    case Address =>
      OctetsBefore(x, s, a, c, b, p, 3);
    case Path =>
      if p < |a| {
        PathRunBefore(x, s, a, c, b, p + 1);
        SegmentsBefore(x, s, a, c, b, p + 1);
        var r := PathRun(x, a, p + 1);
        assert p + 1 + r == |a| ==> s[p + 1 + r] == c && c != '/';
      } else {
        assert s[p] == c && c != '/';
      }
  }

  lemma MatchAfter(x: Chars, kind: Kind, s: string, a: string, c: char, b: string, p: nat)
    requires Seam(x, s, a, c, b) && p <= |b|
    ensures MatchLen(x, kind, s, |a| + 1 + p) == MatchLen(x, kind, b, p)
  {
    assert s[|a|] == c && !x.word(c) && c != '.';
    match kind
    case Address =>
      OctetsAfter(x, s, a, c, b, p, 3);
    case Path =>
      if p < |b| {
        PathRunAfter(x, s, a, c, b, p + 1);
        SegmentsAfter(x, s, a, c, b, p + 1);
      }
  }

  lemma FindAllMatch(x: Chars, kind: Kind, s: string, p: nat)
    requires p < |s| && MatchLen(x, kind, s, p) > 0
    ensures var n := MatchLen(x, kind, s, p); FindAll(x, kind, s, p) == [s[p..p + n]] + FindAll(x, kind, s, p + n)
  {
  }

  lemma FindAllStep(x: Chars, kind: Kind, s: string, p: nat)
    requires p < |s| && MatchLen(x, kind, s, p) == 0
    ensures FindAll(x, kind, s, p) == FindAll(x, kind, s, p + 1)
  {
  }

  /** Equal matches with corresponding matches behind them. */
  lemma SameMatch(x: Chars, kind: Kind, s: string, p: nat, t: string, r: nat, n: nat, tail: seq<string>)
    requires p < |s| && r < |t| && MatchLen(x, kind, s, p) == MatchLen(x, kind, t, r) == n > 0
    requires s[p..p + n] == t[r..r + n] && FindAll(x, kind, s, p + n) == FindAll(x, kind, t, r + n) + tail
    ensures FindAll(x, kind, s, p) == FindAll(x, kind, t, r) + tail
  {
    FindAllMatch(x, kind, s, p);
    FindAllMatch(x, kind, t, r);
    ConsAppend(s[p..p + n], FindAll(x, kind, t, r + n), tail);
  }

  lemma ConsAppend(m: string, ms: seq<string>, tail: seq<string>)
    ensures [m] + (ms + tail) == ([m] + ms) + tail
  {
  }

  lemma SameGap(x: Chars, kind: Kind, s: string, p: nat, t: string, r: nat, tail: seq<string>)
    requires p < |s| && r < |t| && MatchLen(x, kind, s, p) == MatchLen(x, kind, t, r) == 0
    requires FindAll(x, kind, s, p + 1) == FindAll(x, kind, t, r + 1) + tail
    ensures FindAll(x, kind, s, p) == FindAll(x, kind, t, r) + tail
  {
    FindAllStep(x, kind, s, p);
    FindAllStep(x, kind, t, r);
  }

  lemma FindAllEnd(x: Chars, kind: Kind, s: string, p: nat)
    requires p == |s|
    ensures FindAll(x, kind, s, p) == []
  {
  }

  lemma SuffixSlice(s: string, a: string, c: char, b: string, p: nat, n: nat)
    requires s == a + [c] + b && p + n <= |b|
    ensures s[|a| + 1 + p..|a| + 1 + p + n] == b[p..p + n]
  {
  }

  ghost predicate SameFrom(x: Chars, kind: Kind, s: string, q: nat, b: string, p: nat)
    requires q <= |s| && p <= |b|
  {
    FindAll(x, kind, s, q) == FindAll(x, kind, b, p) + []
  }

  lemma AfterMatch(x: Chars, kind: Kind, s: string, a: string, c: char, b: string, p: nat, q: nat, n: nat)
    requires s == a + [c] + b && p < |b| && q == |a| + 1 + p && p + n <= |b|
    requires MatchLen(x, kind, s, q) == MatchLen(x, kind, b, p) == n > 0 && SameFrom(x, kind, s, q + n, b, p + n)
    ensures SameFrom(x, kind, s, q, b, p)
  {
    SuffixSlice(s, a, c, b, p, n);
    SameMatch(x, kind, s, q, b, p, n, []);
  }

  lemma {:induction false} FindAllAfter(x: Chars, kind: Kind, s: string, a: string, c: char, b: string, p: nat, q: nat)
    requires Seam(x, s, a, c, b) && p <= |b| && q == |a| + 1 + p
    ensures SameFrom(x, kind, s, q, b, p)
    decreases |b| - p
  {
    if p == |b| {
      FindAllEnd(x, kind, s, q);
      FindAllEnd(x, kind, b, p);
    } else {
      MatchAfter(x, kind, s, a, c, b, p);
      var n := MatchLen(x, kind, b, p);
      if n > 0 {
        FindAllAfter(x, kind, s, a, c, b, p + n, q + n);
        AfterMatch(x, kind, s, a, c, b, p, q, n);
      } else {
        FindAllAfter(x, kind, s, a, c, b, p + 1, q + 1);
        SameGap(x, kind, s, q, b, p, []);
      }
    }
  }

  lemma PrefixSlice(s: string, a: string, p: nat, n: nat)
    requires a <= s && p + n <= |a|
    ensures s[p..p + n] == a[p..p + n]
  {
  }

  /** At the seam itself nothing matches. */
  lemma FindAllAtSeam(x: Chars, kind: Kind, s: string, a: string, c: char, b: string)
    requires Seam(x, s, a, c, b)
    ensures FindAll(x, kind, s, |a|) == FindAll(x, kind, a, |a|) + FindAll(x, kind, b, 0)
  {
    MatchBefore(x, kind, s, a, c, b, |a|);
    NoMatchAtEnd(x, kind, a);
    FindAllStep(x, kind, s, |a|);
    FindAllEnd(x, kind, a, |a|);
    FindAllAfter(x, kind, s, a, c, b, 0, |a| + 1);
    assert SameFrom(x, kind, s, |a| + 1, b, 0);
  }

  /** The matches of the whole are the matches of the two sides. */
  lemma {:induction false} FindAllSeam(x: Chars, kind: Kind, s: string, a: string, c: char, b: string, p: nat)
    requires Seam(x, s, a, c, b) && p <= |a|
    ensures FindAll(x, kind, s, p) == FindAll(x, kind, a, p) + FindAll(x, kind, b, 0)
    decreases |a| - p
  {
    if p == |a| {
      FindAllAtSeam(x, kind, s, a, c, b);
    } else {
      MatchBefore(x, kind, s, a, c, b, p);
      var n := MatchLen(x, kind, a, p);
      if n > 0 {
        FindAllSeam(x, kind, s, a, c, b, p + n);
        PrefixSlice(s, a, p, n);
        SameMatch(x, kind, s, p, a, p, n, FindAll(x, kind, b, 0));
      } else {
        FindAllSeam(x, kind, s, a, c, b, p + 1);
        SameGap(x, kind, s, p, a, p, FindAll(x, kind, b, 0));
      }
    }
  }

  lemma NoMatchAtEnd(x: Chars, kind: Kind, s: string)
    ensures MatchLen(x, kind, s, |s|) == 0
  {
  }

  /** `m` is one of the addresses and paths the text mentions. */
  predicate Mentions(x: Chars, s: string, m: string) {
    m in Found(x, s)
  }

  lemma MentionsSeam(x: Chars, a: string, c: char, b: string, m: string)
    requires Proper(x) && x.space(c)
    ensures Mentions(x, a + [c] + b, m) <==> Mentions(x, a, m) || Mentions(x, b, m)
  {
    var s := a + [c] + b;
    FindAllSeam(x, Address, s, a, c, b, 0);
    FindAllSeam(x, Path, s, a, c, b, 0);
  }

  lemma {:induction false} FindAllContained(x: Chars, kind: Kind, s: string, p: nat, m: string)
    requires p <= |s| && m in FindAll(x, kind, s, p)
    ensures m != "" && Contains(s, m)
    decreases |s| - p
  {
    var n := MatchLen(x, kind, s, p);
    if n > 0 && m == s[p..p + n] {
      assert At(s, p, m);
    } else if n > 0 {
      FindAllContained(x, kind, s, p + n, m);
    } else {
      FindAllContained(x, kind, s, p + 1, m);
    }
  }

  lemma MentionContained(x: Chars, s: string, m: string)
    requires Mentions(x, s, m)
    ensures m != "" && Contains(s, m)
  {
    if m in FindAll(x, Address, s, 0) {
      FindAllContained(x, Address, s, 0, m);
    } else {
      FindAllContained(x, Path, s, 0, m);
    }
  }

  lemma {:induction false} FindAllNone(x: Chars, kind: Kind, s: string, p: nat)
    requires p <= |s| && forall i :: 0 <= i < |s| ==> !x.digit(s[i]) && s[i] != '/'
    ensures FindAll(x, kind, s, p) == []
    decreases |s| - p
  {
    if p < |s| {
      FindAllNone(x, kind, s, p + 1);
    }
  }

  /** A text without digits and slashes mentions nothing. */
  lemma MentionsNothing(x: Chars, s: string, m: string)
    requires '/' !in s && forall c :: c in s ==> !x.digit(c)
    ensures !Mentions(x, s, m)
  {
    forall i | 0 <= i < |s|
      ensures !x.digit(s[i]) && s[i] != '/'
    {
      assert s[i] in s;
    }
    FindAllNone(x, Address, s, 0);
    FindAllNone(x, Path, s, 0);
  }

  lemma {:induction false} MentionsJoin(x: Chars, lines: seq<string>, m: string)
    requires Proper(x)
    ensures Mentions(x, Join(lines, "\n"), m) ==> exists k :: 0 <= k < |lines| && Mentions(x, lines[k], m)
    ensures forall k :: 0 <= k < |lines| && Mentions(x, lines[k], m) ==> Mentions(x, Join(lines, "\n"), m)
  {
    if lines == [] {
      MentionsNothing(x, "", m);
    } else if |lines| > 1 {
      MentionsJoin(x, lines[1..], m);
      MentionsSeam(x, lines[0], '\n', Join(lines[1..], "\n"), m);
      assert Join(lines, "\n") == lines[0] + ['\n'] + Join(lines[1..], "\n");
      if k :| 0 <= k < |lines[1..]| && Mentions(x, lines[1..][k], m) {
        assert lines[1..][k] == lines[k + 1];
      }
      forall k | 0 <= k < |lines| && Mentions(x, lines[k], m)
        ensures Mentions(x, Join(lines, "\n"), m)
      {
        if k > 0 {
          assert lines[1..][k - 1] == lines[k];
        }
      }
    }
  }

  lemma {:induction false} MentionsStripLeft(x: Chars, s: string, m: string)
    requires Proper(x)
    ensures Mentions(x, StripLeft(x.space, s), m) <==> Mentions(x, s, m)
  {
    if s != "" && x.space(s[0]) {
      assert s == "" + [s[0]] + s[1..];
      MentionsSeam(x, "", s[0], s[1..], m);
      MentionsNothing(x, "", m);
      MentionsStripLeft(x, s[1..], m);
    }
  }

  lemma {:induction false} MentionsStripRight(x: Chars, s: string, m: string)
    requires Proper(x)
    ensures Mentions(x, StripRight(x.space, s), m) <==> Mentions(x, s, m)
  {
    if s != "" && x.space(s[|s| - 1]) {
      var rest := s[..|s| - 1];
      assert s == rest + [s[|s| - 1]] + "";
      MentionsSeam(x, rest, s[|s| - 1], "", m);
      MentionsNothing(x, "", m);
      MentionsStripRight(x, rest, m);
    }
  }

  lemma MentionsStrip(x: Chars, s: string, m: string)
    requires Proper(x)
    ensures Mentions(x, Strip(x.space, s), m) <==> Mentions(x, s, m)
  {
    MentionsStripLeft(x, s, m);
    MentionsStripRight(x, StripLeft(x.space, s), m);
  }

  // ---- the fixed texts ----

  /** A slash, or the first letter of a marker. */
  predicate Telling(c: char) {
    c == '/' || c == '자' || c == '가'
  }

  lemma NotConfirmedIsPlain(c: char)
    requires Telling(c)
    ensures c !in NOT_CONFIRMED
  {
  }

  lemma NoAnswerIsPlain(c: char)
    requires Telling(c)
    ensures c !in NO_ANSWER
  {
  }

  lemma RemovedIsPlain(c: char)
    requires Telling(c)
    ensures c !in REMOVED
  {
  }

  lemma IntakeIsPlain(c: char)
    requires Telling(c)
    ensures c !in INTAKE
  {
  }

  lemma FallbackIsPlain(c: char)
    requires Telling(c)
    ensures c !in FALLBACK
  {
    NotConfirmedIsPlain(c);
    NoAnswerIsPlain(c);
  }

  lemma FixedTextsMentionNothing(x: Chars, m: string)
    requires Proper(x)
    ensures !Mentions(x, FALLBACK, m) && !Mentions(x, REMOVED, m) && !Mentions(x, INTAKE, m) && !Mentions(x, "", m)
  {
    FallbackIsPlain('/');
    RemovedIsPlain('/');
    IntakeIsPlain('/');
    MentionsNothing(x, FALLBACK, m);
    MentionsNothing(x, REMOVED, m);
    MentionsNothing(x, INTAKE, m);
    MentionsNothing(x, "", m);
  }

  // ---- only grounded values come out ----

  lemma {:induction false} KeptLineIsClean(lines: seq<string>, bad: set<string>, k: nat)
    requires k < |KeptLines(lines, bad)|
    ensures KeptLines(lines, bad)[k] in lines && !Tainted(KeptLines(lines, bad)[k], bad)
  {
    if Tainted(lines[0], bad) {
      KeptLineIsClean(lines[1..], bad, k);
    } else if k > 0 {
      KeptLineIsClean(lines[1..], bad, k - 1);
    }
  }

  /** Exactly the lines with an unsupported value go. */
  lemma {:induction false} OnlyTaintedLinesGo(lines: seq<string>, bad: set<string>)
    ensures forall line :: line in KeptLines(lines, bad) <==> line in lines && !Tainted(line, bad)
  {
    if lines != [] {
      OnlyTaintedLinesGo(lines[1..], bad);
      assert lines == [lines[0]] + lines[1..];
    }
  }

  /** The other lines stay in their order. */
  lemma {:induction false} KeptInOrder(a: seq<string>, b: seq<string>, bad: set<string>)
    ensures KeptLines(a + b, bad) == KeptLines(a, bad) + KeptLines(b, bad)
  {
    if a == [] {
      assert a + b == b && [] + KeptLines(b, bad) == KeptLines(b, bad);
    } else {
      assert (a + b)[1..] == a[1..] + b;
      KeptInOrder(a[1..], b, bad);
      Associative(if Tainted(a[0], bad) then [] else [a[0]], KeptLines(a[1..], bad), KeptLines(b, bad));
    }
  }

  lemma {:induction false} MentionedInLine(x: Chars, answer: string, m: string, k: nat)
    requires Proper(x) && k < |Split(answer, '\n')| && Mentions(x, Split(answer, '\n')[k], m)
    ensures Mentions(x, answer, m)
  {
    MentionsJoin(x, Split(answer, '\n'), m);
    JoinSplit(answer, '\n');
  }

  /** A value in the kept body is mentioned in the answer and grounded. */
  lemma BodyIsGrounded(x: Chars, g: Guard, answer: string, m: string)
    requires Proper(x) && Mentions(x, KeptBody(x, g, answer), m)
    ensures Mentions(x, answer, m) && Contains(Haystack(g), m)
  {
    var lines, bad := Split(answer, '\n'), Ungrounded(x, g, answer);
    var kept := KeptLines(lines, bad);
    MentionsStrip(x, Join(kept, "\n"), m);
    MentionsJoin(x, kept, m);
    var k :| 0 <= k < |kept| && Mentions(x, kept[k], m);
    KeptLineIsClean(lines, bad, k);
    var i :| 0 <= i < |lines| && lines[i] == kept[k];
    MentionedInLine(x, answer, m, i);
    MentionContained(x, kept[k], m);
  }

  /** The intake text is part of the evidence. */
  ghost predicate IntakeKnown(g: Guard) {
    Contains(Haystack(g), g.intake)
  }

  /** The mentions of three stretches separated by empty lines. */
  lemma MentionsParagraph(x: Chars, a: string, b: string, m: string)
    requires Proper(x)
    ensures Mentions(x, a + ("\n" + "\n" + b), m) <==> Mentions(x, a, m) || Mentions(x, b, m)
  {
    assert a + ("\n" + "\n" + b) == a + ['\n'] + ("" + ['\n'] + b);
    MentionsSeam(x, a, '\n', "" + ['\n'] + b, m);
    MentionsSeam(x, "", '\n', b, m);
    MentionsNothing(x, "", m);
  }

  lemma IntakeLineIsGrounded(x: Chars, g: Guard, before: string, m: string)
    requires Proper(x) && IntakeKnown(g) && Mentions(x, before + IntakeLine(g), m)
    ensures Mentions(x, before, m) || Contains(Haystack(g), m)
  {
    if g.intake == "" {
      assert before + "" == before;
    } else {
      MentionsParagraph(x, before, INTAKE + " " + g.intake, m);
      MentionsSeam(x, INTAKE, ' ', g.intake, m);
      FixedTextsMentionNothing(x, m);
      if Mentions(x, g.intake, m) {
        MentionContained(x, g.intake, m);
        ContainsTrans(Haystack(g), g.intake, m);
      }
    }
  }

  lemma FallbackIsGrounded(x: Chars, g: Guard, m: string)
    requires Proper(x) && IntakeKnown(g) && Mentions(x, Fallback(g), m)
    ensures Contains(Haystack(g), m)
  {
    FixedTextsMentionNothing(x, m);
    IntakeLineIsGrounded(x, g, FALLBACK, m);
  }

  lemma CleanedIsGrounded(x: Chars, g: Guard, answer: string, m: string)
    requires Proper(x) && IntakeKnown(g)
    requires Mentions(x, Cleaned(x, g, answer), m)
    ensures Contains(Haystack(g), m)
  {
    var body := KeptBody(x, g, answer);
    Associative(body, "\n" + "\n" + REMOVED, IntakeLine(g));
    IntakeLineIsGrounded(x, g, body + ("\n" + "\n" + REMOVED), m);
    MentionsParagraph(x, body, REMOVED, m);
    FixedTextsMentionNothing(x, m);
    if Mentions(x, body, m) {
      BodyIsGrounded(x, g, answer, m);
    }
  }

  /** Whatever the answer was, the reviewed answer mentions no address or path without support. */
  lemma ReviewedIsGrounded(x: Chars, g: Guard, answer: string)
    requires Proper(x) && IntakeKnown(g) && g.enabled && !Blank(x, answer)
    ensures Ungrounded(x, g, Review(x, g, answer)) == {}
  {
    forall m | Mentions(x, Review(x, g, answer), m)
      ensures Contains(Haystack(g), m)
    {
      if Review(x, g, answer) == Fallback(g) {
        FallbackIsGrounded(x, g, m);
      } else if Ungrounded(x, g, answer) == {} {
        assert m in Found(x, answer);
        assert m !in Ungrounded(x, g, answer);
      } else {
        CleanedIsGrounded(x, g, answer, m);
      }
    }
  }

  // ---- reviewing twice ----

  lemma AtPrefix(a: string, b: string, i: nat, m: string)
    requires At(a + b, i, m) && i + |m| <= |a|
    ensures Contains(a, m)
  {
    assert a[i..i + |m|] == (a + b)[i..i + |m|];
    assert At(a, i, m);
  }

  lemma AtSuffix(a: string, b: string, i: nat, m: string)
    requires At(a + b, i, m) && |a| <= i
    ensures Contains(b, m)
  {
    assert b[i - |a|..i - |a| + |m|] == (a + b)[i..i + |m|];
    assert At(b, i - |a|, m);
  }

  lemma AtAround(s: string, i: nat, m: string, k: nat)
    requires At(s, i, m) && i <= k < i + |m|
    ensures s[k] in m
  {
    assert s[k] == s[i..i + |m|][k - i] == m[k - i];
  }

  lemma ContainsSeam(a: string, c: char, b: string, m: string)
    requires c !in m && Contains(a + [c] + b, m)
    ensures Contains(a, m) || Contains(b, m)
  {
    var s := a + [c] + b;
    var i: nat :| i <= |s| && At(s, i, m);
    if i + |m| <= |a| {
      Associative(a, [c], b);
      AtPrefix(a, [c] + b, i, m);
    } else {
      if i <= |a| {
        AtAround(s, i, m, |a|);
      }
      AtSuffix(a + [c], b, i, m);
    }
  }

  lemma ContainsBehind(a: string, b: string, m: string)
    requires m != "" && m[0] !in a && Contains(a + b, m)
    ensures Contains(b, m)
  {
    var i: nat :| i <= |a + b| && At(a + b, i, m);
    assert (a + b)[i] == m[0];
    AtSuffix(a, b, i, m);
  }

  lemma MarkerShape(k: nat)
    requires k < |MARKERS|
    ensures MARKERS[k] != "" && '\n' !in MARKERS[k]
    ensures Telling(MARKERS[k][0])
    ensures MARKERS[k][0] !in FALLBACK && MARKERS[k][0] !in REMOVED && MARKERS[k][0] !in INTAKE && MARKERS[k][0] != ' '
  {
    FallbackIsPlain(MARKERS[k][0]);
    RemovedIsPlain(MARKERS[k][0]);
    IntakeIsPlain(MARKERS[k][0]);
  }

  lemma NoMarkerInIntakeLine(g: Guard, before: string, k: nat)
    requires k < |MARKERS| && !HasMarker(g.intake)
    requires Contains(before + IntakeLine(g), MARKERS[k])
    ensures Contains(before, MARKERS[k])
  {
    MarkerShape(k);
    if g.intake == "" {
      assert before + "" == before;
    } else if !Contains(before, MARKERS[k]) {
      var last := INTAKE + " " + g.intake;
      assert before + IntakeLine(g) == before + ['\n'] + (['\n'] + last);
      ContainsSeam(before, '\n', ['\n'] + last, MARKERS[k]);
      ContainsBehind(['\n'], last, MARKERS[k]);
      ContainsBehind(INTAKE + " ", g.intake, MARKERS[k]);
    }
  }

  lemma ContainsFirst(s: string, m: string)
    requires m != "" && Contains(s, m)
    ensures m[0] in s
  {
    var i: nat :| i <= |s| && At(s, i, m);
    assert s[i] == m[0];
  }

  lemma NotContainsWithoutFirst(s: string, m: string)
    requires m != "" && m[0] !in s
    ensures !Contains(s, m)
  {
    if Contains(s, m) {
      ContainsFirst(s, m);
    }
  }

  lemma {:induction false} StripContained(x: Chars, s: string)
    ensures Contains(s, StripLeft(x.space, s)) && Contains(s, StripRight(x.space, s))
    decreases |s|
  {
    if s == "" || !x.space(s[0]) {
      assert At(s, 0, s);
    } else {
      StripContained(x, s[1..]);
      assert At(s, 1, s[1..]);
      ContainsTrans(s, s[1..], StripLeft(x.space, s[1..]));
    }
    if s == "" || !x.space(s[|s| - 1]) {
      assert At(s, 0, s);
    } else {
      StripContained(x, s[..|s| - 1]);
      assert At(s, 0, s[..|s| - 1]);
      ContainsTrans(s, s[..|s| - 1], StripRight(x.space, s[..|s| - 1]));
    }
  }

  lemma {:induction false} ContainsJoin(lines: seq<string>, m: string)
    requires '\n' !in m && m != "" && Contains(Join(lines, "\n"), m)
    ensures exists k :: 0 <= k < |lines| && Contains(lines[k], m)
  {
    if lines == [] {
      NotContainsWithoutFirst("", m);
    } else if |lines| > 1 {
      assert Join(lines, "\n") == lines[0] + ['\n'] + Join(lines[1..], "\n");
      ContainsSeam(lines[0], '\n', Join(lines[1..], "\n"), m);
      if !Contains(lines[0], m) {
        ContainsJoin(lines[1..], m);
        var k :| 0 <= k < |lines[1..]| && Contains(lines[1..][k], m);
        assert lines[1..][k] == lines[k + 1];
      }
    }
  }

  /** A marker in the kept body stood in the answer. */
  lemma MarkerInBody(x: Chars, g: Guard, answer: string, k: nat)
    requires k < |MARKERS| && Contains(KeptBody(x, g, answer), MARKERS[k])
    ensures Contains(answer, MARKERS[k])
  {
    var lines, bad, m := Split(answer, '\n'), Ungrounded(x, g, answer), MARKERS[k];
    var kept := KeptLines(lines, bad);
    var joined := Join(kept, "\n");
    MarkerShape(k);
    StripContained(x, joined);
    StripContained(x, StripLeft(x.space, joined));
    ContainsTrans(StripLeft(x.space, joined), KeptBody(x, g, answer), m);
    ContainsTrans(joined, StripLeft(x.space, joined), m);
    ContainsJoin(kept, m);
    var i :| 0 <= i < |kept| && Contains(kept[i], m);
    KeptLineIsClean(lines, bad, i);
    var j :| 0 <= j < |lines| && lines[j] == kept[i];
    JoinContains(lines, "\n", j);
    JoinSplit(answer, '\n');
    ContainsTrans(answer, kept[i], m);
  }

  lemma NoMarkerInFallback(g: Guard)
    requires !HasMarker(g.intake)
    ensures !HasMarker(Fallback(g))
  {
    forall k | 0 <= k < |MARKERS|
      ensures !Contains(Fallback(g), MARKERS[k])
    {
      MarkerShape(k);
      NotContainsWithoutFirst(FALLBACK, MARKERS[k]);
      if Contains(Fallback(g), MARKERS[k]) {
        NoMarkerInIntakeLine(g, FALLBACK, k);
      }
    }
  }

  lemma NoMarkerInCleaned(x: Chars, g: Guard, answer: string)
    requires !HasMarker(g.intake) && !HasMarker(answer)
    ensures !HasMarker(Cleaned(x, g, answer))
  {
    var body := KeptBody(x, g, answer);
    var before := body + ("\n" + "\n" + REMOVED);
    Associative(body, "\n" + "\n" + REMOVED, IntakeLine(g));
    forall k | 0 <= k < |MARKERS|
      ensures !Contains(Cleaned(x, g, answer), MARKERS[k])
    {
      if Contains(Cleaned(x, g, answer), MARKERS[k]) {
        MarkerShape(k);
        NoMarkerInIntakeLine(g, before, k);
        assert before == body + ['\n'] + (['\n'] + REMOVED);
        ContainsSeam(body, '\n', ['\n'] + REMOVED, MARKERS[k]);
        if Contains(body, MARKERS[k]) {
          MarkerInBody(x, g, answer, k);
        } else {
          NotContainsWithoutFirst(['\n'] + REMOVED, MARKERS[k]);
        }
      }
    }
  }

  /** Reviewing a reviewed answer changes nothing. */
  lemma ReviewIsIdempotent(x: Chars, g: Guard, answer: string)
    requires Proper(x) && IntakeKnown(g) && !HasMarker(g.intake)
    ensures Review(x, g, Review(x, g, answer)) == Review(x, g, answer)
  {
    if g.enabled && !Blank(x, answer) {
      ReviewedIsGrounded(x, g, answer);
      if !g.searchedManual && HasMarker(answer) {
        NoMarkerInFallback(g);
      } else if Ungrounded(x, g, answer) != {} {
        NoMarkerInFallback(g);
        if !g.searchedManual {
          NoMarkerInCleaned(x, g, answer);
        }
      }
    }
  }

  /** A guard made with an environment text that holds the intake text knows it at every later moment. */
  lemma IntakeStaysKnown(x: Chars, g: Guard, question: string, envText: string, intake: string, more: seq<string>)
    requires g.corpus == [question, envText] + more && g.intake == Strip(x.space, intake) && Contains(envText, intake)
    ensures IntakeKnown(g)
  {
    StripContained(x, intake);
    StripContained(x, StripLeft(x.space, intake));
    ContainsTrans(intake, StripLeft(x.space, intake), g.intake);
    ContainsTrans(envText, intake, g.intake);
    JoinContains(g.corpus, "\n", 1);
    ContainsTrans(Haystack(g), envText, g.intake);
  }

  // ---- more evidence never removes more ----

  /** The same guard later in the run: more evidence, and the manual may have been searched meanwhile. */
  ghost predicate Later(g: Guard, g': Guard) {
    && g'.enabled == g.enabled && g'.intake == g.intake
    && (g.searchedManual ==> g'.searchedManual)
    && g.corpus != [] && g.corpus <= g'.corpus
  }

  lemma HaystackGrows(g: Guard, g': Guard, m: string)
    requires Later(g, g') && Contains(Haystack(g), m)
    ensures Contains(Haystack(g'), m)
  {
    var more := g'.corpus[|g.corpus|..];
    assert g'.corpus == g.corpus + more;
    if more == [] {
      assert g'.corpus == g.corpus;
    } else {
      JoinAppend(g.corpus, more, "\n");
      assert At(Haystack(g'), 0, Haystack(g));
      ContainsTrans(Haystack(g'), Haystack(g), m);
    }
  }

  lemma {:induction false} SubstanceAppend(x: Chars, a: string, b: string)
    ensures Substance(x, a + b) == Substance(x, a) + Substance(x, b)
    decreases |b|
  {
    if b == "" {
      assert a + b == a;
    } else {
      assert (a + b)[..|a + b| - 1] == a + b[..|b| - 1];
      SubstanceAppend(x, a, b[..|b| - 1]);
    }
  }

  lemma SubstanceOne(x: Chars, c: char)
    requires x.space(c)
    ensures Substance(x, [c]) == 0
  {
    assert [c][..0] == "";
  }

  lemma {:induction false} SubstanceStrip(x: Chars, s: string)
    ensures Substance(x, StripLeft(x.space, s)) == Substance(x, s) == Substance(x, StripRight(x.space, s))
    decreases |s|
  {
    if s != "" && x.space(s[0]) {
      assert s == [s[0]] + s[1..];
      SubstanceAppend(x, [s[0]], s[1..]);
      SubstanceOne(x, s[0]);
      SubstanceStrip(x, s[1..]);
    }
    if s != "" && x.space(s[|s| - 1]) {
      SubstanceStrip(x, s[..|s| - 1]);
    }
  }

  /** Substance of a line list. */
  function TotalSubstance(x: Chars, lines: seq<string>): nat {
    if lines == [] then 0 else Substance(x, lines[0]) + TotalSubstance(x, lines[1..])
  }

  lemma {:induction false} SubstanceJoin(x: Chars, lines: seq<string>)
    requires x.space('\n')
    ensures Substance(x, Join(lines, "\n")) == TotalSubstance(x, lines)
  {
    if |lines| > 1 {
      SubstanceJoin(x, lines[1..]);
      SubstanceAppend(x, lines[0] + "\n", Join(lines[1..], "\n"));
      SubstanceAppend(x, lines[0], "\n");
      SubstanceOne(x, '\n');
    } else if |lines| == 1 {
      assert lines[1..] == [];
    }
  }

  lemma {:induction false} FewerBadKeepsMore(x: Chars, lines: seq<string>, bad: set<string>, bad': set<string>)
    requires bad' <= bad
    ensures forall k :: 0 <= k < |lines| && !Tainted(lines[k], bad) ==> !Tainted(lines[k], bad')
    ensures TotalSubstance(x, KeptLines(lines, bad)) <= TotalSubstance(x, KeptLines(lines, bad'))
  {
    if lines != [] {
      FewerBadKeepsMore(x, lines[1..], bad, bad');
      forall k | 0 <= k < |lines| && !Tainted(lines[k], bad)
        ensures !Tainted(lines[k], bad')
      {
      }
      var rest, rest' := KeptLines(lines[1..], bad), KeptLines(lines[1..], bad');
      assert ([lines[0]] + rest)[1..] == rest && ([lines[0]] + rest')[1..] == rest';
      assert [] + rest == rest && [] + rest' == rest';
    }
  }

  lemma BodySubstance(x: Chars, g: Guard, answer: string)
    requires x.space('\n')
    ensures Substance(x, KeptBody(x, g, answer)) ==
            TotalSubstance(x, KeptLines(Split(answer, '\n'), Ungrounded(x, g, answer)))
  {
    var joined := Join(KeptLines(Split(answer, '\n'), Ungrounded(x, g, answer)), "\n");
    SubstanceStrip(x, joined);
    SubstanceStrip(x, StripLeft(x.space, joined));
    SubstanceJoin(x, KeptLines(Split(answer, '\n'), Ungrounded(x, g, answer)));
  }

  /** With more evidence no further value is ungrounded, no further line is removed, and an answer that was not
      blocked as a whole is not blocked. */
  lemma {:induction false} MoreEvidenceRemovesNoMore(x: Chars, g: Guard, g': Guard, answer: string)
    requires Proper(x) && Later(g, g')
    ensures Ungrounded(x, g', answer) <= Ungrounded(x, g, answer)
    ensures var lines := Split(answer, '\n');
            forall k :: 0 <= k < |lines| && !Tainted(lines[k], Ungrounded(x, g, answer)) ==>
              !Tainted(lines[k], Ungrounded(x, g', answer))
    ensures Blocked(x, g', answer) ==> Blocked(x, g, answer)
    ensures Review(x, g, answer) == answer && !Blocked(x, g, answer) && Ungrounded(x, g, answer) == {} ==>
              Review(x, g', answer) == answer
  {
    forall m | m in Ungrounded(x, g', answer)
      ensures m in Ungrounded(x, g, answer)
    {
      if Contains(Haystack(g), m) {
        HaystackGrows(g, g', m);
      }
    }
    FewerBadKeepsMore(x, Split(answer, '\n'), Ungrounded(x, g, answer), Ungrounded(x, g', answer));
    BodySubstance(x, g, answer);
    BodySubstance(x, g', answer);
  }
}
