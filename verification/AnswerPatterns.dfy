/** Which stretches of a text the answer guard takes for addresses and paths, said without the matching functions
    (agent_server/main.py:553-554). */
module AnswerPatterns {
  import opened Text
  import opened AnswerGuard

  // ---- the stretches ----

  /** One to three digits. */
  predicate Group(x: Chars, s: string, i: nat, j: nat) {
    i < j <= |s| && j - i <= 3 && forall k :: i <= k < j ==> x.digit(s[k])
  }

  /** Four groups with dots at `a`, `b` and `c`. */
  predicate FourGroups(x: Chars, s: string, p: nat, a: nat, b: nat, c: nat, e: nat) {
    && p < a < b < c < e <= |s| && s[a] == '.' && s[b] == '.' && s[c] == '.'
    && Group(x, s, p, a) && Group(x, s, a + 1, b) && Group(x, s, b + 1, c) && Group(x, s, c + 1, e)
  }

  /** Four groups with no word character on either side. */
  ghost predicate IsAddress(x: Chars, s: string, p: nat, e: nat) {
    && (exists a: nat, b: nat, c: nat :: FourGroups(x, s, p, a, b, c, e))
    && (p > 0 ==> !x.word(s[p - 1])) && (e < |s| ==> !x.word(s[e]))
  }

  /** A slash not behind a word character or a dot, then path characters and single slashes, at least one slash. */
  predicate PathStretch(x: Chars, s: string, p: nat, e: nat) {
    && p < e <= |s| && s[p] == '/' && (p > 0 ==> !x.word(s[p - 1]) && s[p - 1] != '.')
    && (forall i :: p < i < e ==>
          s[i] == '/' || x.word(s[i]) || s[i] == '.' || s[i] == '@' || s[i] == '+' || s[i] == '-')
    && (forall i :: p < i < e && s[i] == '/' ==> s[i - 1] != '/')
    && exists i :: p < i < e && s[i] == '/'
  }

  /** As long as possible. */
  ghost predicate IsPath(x: Chars, s: string, p: nat, e: nat) {
    PathStretch(x, s, p, e) && forall f: nat :: f > e ==> !PathStretch(x, s, p, f)
  }

  ghost predicate IsStretch(x: Chars, kind: Kind, s: string, p: nat, e: nat) {
    match kind case Address => IsAddress(x, s, p, e) case Path => IsPath(x, s, p, e)
  }

  // ---- addresses ----

  lemma {:induction false} DigitRunMaximal(x: Chars, s: string, p: nat)
    requires p <= |s|
    ensures var d := DigitRun(x, s, p);
            && (forall k :: p <= k < p + d ==> x.digit(s[k]))
            && (p + d < |s| ==> !x.digit(s[p + d]))
    decreases |s| - p
  {
    if p < |s| && x.digit(s[p]) {
      DigitRunMaximal(x, s, p + 1);
    }
  }

  lemma GroupIsRun(x: Chars, s: string, i: nat, j: nat)
    requires Group(x, s, i, j) && (j < |s| ==> !x.digit(s[j]))
    ensures DigitRun(x, s, i) == j - i
  {
    DigitRunMaximal(x, s, i);
  }

  lemma RunIsGroup(x: Chars, s: string, p: nat)
    requires p <= |s| && 1 <= DigitRun(x, s, p) <= 3
    ensures Group(x, s, p, p + DigitRun(x, s, p))
  {
    DigitRunMaximal(x, s, p);
  }

  lemma LastOctet(x: Chars, s: string, c: nat, e: nat)
    requires Proper(x) && Group(x, s, c, e) && (e < |s| ==> !x.word(s[e]))
    ensures Octets(x, s, c, 0) == e - c
  {
    GroupIsRun(x, s, c, e);
  }

  lemma NextOctet(x: Chars, s: string, p: nat, a: nat, dots: nat)
    requires Proper(x) && Group(x, s, p, a) && a < |s| && s[a] == '.' && dots > 0 && Octets(x, s, a + 1, dots - 1) > 0
    ensures Octets(x, s, p, dots) == a + 1 - p + Octets(x, s, a + 1, dots - 1)
  {
    GroupIsRun(x, s, p, a);
  }

  lemma AddressMatches(x: Chars, s: string, p: nat, e: nat)
    requires Proper(x) && IsAddress(x, s, p, e)
    ensures MatchLen(x, Address, s, p) == e - p
  {
    var a: nat, b: nat, c: nat :| FourGroups(x, s, p, a, b, c, e);
    GroupsAreOctets(x, s, p, a, b, c, e);
  }

  lemma GroupsAreOctets(x: Chars, s: string, p: nat, a: nat, b: nat, c: nat, e: nat)
    requires Proper(x) && FourGroups(x, s, p, a, b, c, e) && (e < |s| ==> !x.word(s[e]))
    ensures Octets(x, s, p, 3) == e - p
  {
    ThreeOctets(x, s, a + 1, b, c, e);
    NextOctet(x, s, p, a, 3);
  }

  lemma ThreeOctets(x: Chars, s: string, p: nat, b: nat, c: nat, e: nat)
    requires Proper(x) && p < b < c < e <= |s| && s[b] == '.' && s[c] == '.' && (e < |s| ==> !x.word(s[e]))
    requires Group(x, s, p, b) && Group(x, s, b + 1, c) && Group(x, s, c + 1, e)
    ensures Octets(x, s, p, 2) == e - p
  {
    TwoOctets(x, s, b + 1, c, e);
    NextOctet(x, s, p, b, 2);
  }

  lemma TwoOctets(x: Chars, s: string, p: nat, c: nat, e: nat)
    requires Proper(x) && p < c < e <= |s| && s[c] == '.' && Group(x, s, p, c) && Group(x, s, c + 1, e)
    requires e < |s| ==> !x.word(s[e])
    ensures Octets(x, s, p, 1) == e - p
  {
    LastOctet(x, s, c + 1, e);
    NextOctet(x, s, p, c, 1);
  }

  /** The first group of a match, and the match of the rest. */
  lemma SplitsOctet(x: Chars, s: string, p: nat, dots: nat) returns (a: nat)
    requires p <= |s| && dots > 0 && Octets(x, s, p, dots) > 0
    ensures p < a < |s| && Group(x, s, p, a) && s[a] == '.' && Octets(x, s, a + 1, dots - 1) > 0
    ensures a + 1 + Octets(x, s, a + 1, dots - 1) == p + Octets(x, s, p, dots)
  {
    RunIsGroup(x, s, p);
    a := p + DigitRun(x, s, p);
  }

  lemma MatchIsAddress(x: Chars, s: string, p: nat)
    requires p <= |s| && MatchLen(x, Address, s, p) > 0
    ensures IsAddress(x, s, p, p + MatchLen(x, Address, s, p))
  {
    var e := p + MatchLen(x, Address, s, p);
    var a := SplitsOctet(x, s, p, 3);
    var b := SplitsOctet(x, s, a + 1, 2);
    var c := SplitsOctet(x, s, b + 1, 1);
    RunIsGroup(x, s, c + 1);
    assert FourGroups(x, s, p, a, b, c, e);
  }

  // ---- paths ----

  /** Path characters and slashes from `p` on, none of them an empty segment. */
  predicate Segmented(x: Chars, s: string, p: nat, e: nat) {
    && p <= e <= |s|
    && (forall i :: p <= i < e ==> s[i] == '/' || PathChar(x, s[i]))
    && (forall i :: p <= i < e && s[i] == '/' ==> i > p && s[i - 1] != '/')
  }

  lemma {:induction false} PathRunMaximal(x: Chars, s: string, p: nat)
    requires p <= |s|
    ensures var r := PathRun(x, s, p);
            && (forall k :: p <= k < p + r ==> PathChar(x, s[k]))
            && (p + r < |s| ==> !PathChar(x, s[p + r]))
    decreases |s| - p
  {
    if p < |s| && PathChar(x, s[p]) {
      PathRunMaximal(x, s, p + 1);
    }
  }

  /** Segments are as long as possible. */
  lemma {:induction false} SegmentsMaximal(x: Chars, s: string, p: nat)
    requires p <= |s| && Proper(x)
    ensures var n := Segments(x, s, p); Segmented(x, s, p, p + n) && !Segmented(x, s, p, p + n + 1)
    decreases |s| - p
  {
    var r := PathRun(x, s, p);
    PathRunMaximal(x, s, p);
    if r > 0 && p + r < |s| && s[p + r] == '/' {
      var q := p + r + 1;
      SegmentsMaximal(x, s, q);
      JoinsSegments(x, s, p, q, q + Segments(x, s, q));
      if Segmented(x, s, p, q + Segments(x, s, q) + 1) {
        TailSegmented(x, s, p, q, q + Segments(x, s, q) + 1);
      }
    }
  }

  lemma JoinsSegments(x: Chars, s: string, p: nat, q: nat, e: nat)
    requires Proper(x) && p + 1 < q <= e && Segmented(x, s, q, e) && s[q - 1] == '/'
    requires forall k :: p <= k < q - 1 ==> PathChar(x, s[k])
    ensures Segmented(x, s, p, e)
  {
    assert PathChar(x, s[q - 2]);
  }

  lemma TailSegmented(x: Chars, s: string, p: nat, q: nat, e: nat)
    requires p < q < e && Segmented(x, s, p, e) && s[q - 1] == '/'
    ensures Segmented(x, s, q, e)
  {
    assert forall i :: q <= i < e && s[i] == '/' ==> i > q;
  }

  lemma ShorterSegmented(x: Chars, s: string, p: nat, e: nat, f: nat)
    requires Segmented(x, s, p, f) && p <= e <= f
    ensures Segmented(x, s, p, e)
  {
  }

  /** A path stretch is a slash and segments with a slash among them. */
  lemma StretchIsSegments(x: Chars, s: string, p: nat, e: nat)
    requires Proper(x) && p < e <= |s| && s[p] == '/' && (p > 0 ==> !x.word(s[p - 1]) && s[p - 1] != '.')
    ensures PathStretch(x, s, p, e) <==> Segmented(x, s, p + 1, e) && exists i :: p < i < e && s[i] == '/'
  {
  }

  lemma FirstSlash(x: Chars, s: string, p: nat, e: nat, i: nat)
    requires Proper(x) && Segmented(x, s, p, e) && p <= i < e && s[i] == '/'
    ensures var r := PathRun(x, s, p); r > 0 && p + r < |s| && s[p + r] == '/'
  {
    var r := PathRun(x, s, p);
    PathRunMaximal(x, s, p);
    assert p + r <= i;
    assert s[p + r] == '/';
  }

  /** The pattern matches the longest stretch, and only there. */
  lemma PathMatches(x: Chars, s: string, p: nat, e: nat)
    requires Proper(x) && IsPath(x, s, p, e)
    ensures MatchLen(x, Path, s, p) == e - p
  {
    StretchIsSegments(x, s, p, e);
    var i :| p < i < e && s[i] == '/';
    FirstSlash(x, s, p + 1, e, i);
    SegmentsMaximal(x, s, p + 1);
    var f := p + 1 + Segments(x, s, p + 1);
    if e > f {
      ShorterSegmented(x, s, p + 1, f + 1, e);
    } else if e < f {
      StretchIsSegments(x, s, p, f);
    }
  }

  lemma MatchIsPath(x: Chars, s: string, p: nat)
    requires p <= |s| && Proper(x) && MatchLen(x, Path, s, p) > 0
    ensures IsPath(x, s, p, p + MatchLen(x, Path, s, p))
  {
    var e := p + MatchLen(x, Path, s, p);
    var r := PathRun(x, s, p + 1);
    SegmentsMaximal(x, s, p + 1);
    assert s[p + 1 + r] == '/' && p + 1 + r < e;
    StretchIsSegments(x, s, p, e);
    forall f: nat | f > e
      ensures !PathStretch(x, s, p, f)
    {
      if PathStretch(x, s, p, f) {
        StretchIsSegments(x, s, p, f);
        ShorterSegmented(x, s, p + 1, e + 1, f);
      }
    }
  }

  /** The matching functions say exactly where the stretches are. */
  lemma MatchIff(x: Chars, kind: Kind, s: string, p: nat, e: nat)
    requires Proper(x) && p < e <= |s|
    ensures MatchLen(x, kind, s, p) == e - p <==> IsStretch(x, kind, s, p, e)
  {
    match kind
    case Address =>
      if IsAddress(x, s, p, e) {
        AddressMatches(x, s, p, e);
      } else if MatchLen(x, kind, s, p) > 0 {
        MatchIsAddress(x, s, p);
      }
    case Path =>
      if IsPath(x, s, p, e) {
        PathMatches(x, s, p, e);
      } else if MatchLen(x, kind, s, p) > 0 {
        MatchIsPath(x, s, p);
      }
  }

  // ---- what is found ----

  /** Position `p` lies inside a stretch that is found. */
  ghost predicate FoundOver(x: Chars, kind: Kind, s: string, from: nat, p: nat, q: nat, f: nat)
    requires from <= |s|
  {
    from <= q < p < f <= |s| && IsStretch(x, kind, s, q, f) && s[q..f] in FindAll(x, kind, s, from)
  }

  /** Where the search goes on. */
  function Next(x: Chars, kind: Kind, s: string, from: nat): (q: nat)
    requires from < |s|
    ensures from < q <= |s|
  {
    var n := MatchLen(x, kind, s, from);
    if n > 0 then from + n else from + 1
  }

  lemma SearchStep(x: Chars, kind: Kind, s: string, from: nat)
    requires from < |s|
    ensures var n, rest := MatchLen(x, kind, s, from), FindAll(x, kind, s, Next(x, kind, s, from));
            FindAll(x, kind, s, from) == (if n > 0 then [s[from..from + n]] else []) + rest
  {
  }

  /** Every stretch is found, unless it begins inside one that is found. */
  lemma {:induction false} FoundOrInside(x: Chars, kind: Kind, s: string, from: nat, p: nat, e: nat)
      returns (inside: bool, q: nat, f: nat)
    requires Proper(x) && from <= p < e <= |s| && IsStretch(x, kind, s, p, e)
    ensures if inside then FoundOver(x, kind, s, from, p, q, f) else s[p..e] in FindAll(x, kind, s, from)
    decreases |s| - from
  {
    var next := Next(x, kind, s, from);
    SearchStep(x, kind, s, from);
    if next <= p {
      inside, q, f := FoundOrInside(x, kind, s, next, p, e);
    } else if from == p {
      MatchIff(x, kind, s, p, e);
      inside, q, f := false, 0, 0;
    } else {
      MatchIff(x, kind, s, from, next);
      inside, q, f := true, from, next;
    }
  }

  /** And nothing else is found. */
  lemma {:induction false} FoundIsStretch(x: Chars, kind: Kind, s: string, from: nat, m: string)
      returns (p: nat, e: nat)
    requires Proper(x) && from <= |s| && m in FindAll(x, kind, s, from)
    ensures from <= p < e <= |s| && IsStretch(x, kind, s, p, e) && m == s[p..e]
    decreases |s| - from
  {
    var n, next := MatchLen(x, kind, s, from), Next(x, kind, s, from);
    SearchStep(x, kind, s, from);
    if n > 0 && m == s[from..next] {
      MatchIff(x, kind, s, from, next);
      p, e := from, next;
    } else {
      p, e := FoundIsStretch(x, kind, s, next, m);
    }
  }

  // ---- the search as a whole ----

  ghost predicate NoneBetween(x: Chars, kind: Kind, s: string, lo: nat, hi: nat) {
    forall p: nat, e: nat :: lo <= p < hi && p < e <= |s| ==> !IsStretch(x, kind, s, p, e)
  }

  /** The first stretch from `from` on. */
  ghost predicate FirstStretch(x: Chars, kind: Kind, s: string, from: nat, p: nat, e: nat) {
    from <= p < e <= |s| && IsStretch(x, kind, s, p, e) && NoneBetween(x, kind, s, from, p)
  }

  /** The texts are the first stretch, the first one behind it and so on, until there is none. */
  ghost predicate Search(x: Chars, kind: Kind, s: string, from: nat, found: seq<string>)
    decreases |found|
  {
    if found == [] then NoneBetween(x, kind, s, from, |s|)
    else
      exists p: nat, e: nat ::
        FirstStretch(x, kind, s, from, p, e) && found[0] == s[p..e] && Search(x, kind, s, e, found[1..])
  }

  lemma NoStretchHere(x: Chars, kind: Kind, s: string, from: nat)
    requires Proper(x) && from < |s| && MatchLen(x, kind, s, from) == 0
    ensures NoneBetween(x, kind, s, from, from + 1)
  {
    forall e: nat | from < e <= |s|
      ensures !IsStretch(x, kind, s, from, e)
    {
      MatchIff(x, kind, s, from, e);
    }
  }

  lemma SearchFromNext(x: Chars, kind: Kind, s: string, from: nat, found: seq<string>)
    requires from < |s| && NoneBetween(x, kind, s, from, from + 1)
    ensures Search(x, kind, s, from, found) <==> Search(x, kind, s, from + 1, found)
  {
    forall p: nat, e: nat
      ensures FirstStretch(x, kind, s, from, p, e) <==> FirstStretch(x, kind, s, from + 1, p, e)
    {
    }
  }

  lemma SearchFromMatch(x: Chars, kind: Kind, s: string, from: nat, found: seq<string>)
    requires Proper(x) && from < |s| && MatchLen(x, kind, s, from) > 0
    ensures var next := from + MatchLen(x, kind, s, from);
            Search(x, kind, s, from, found)
            <==> found != [] && found[0] == s[from..next] && Search(x, kind, s, next, found[1..])
  {
    var next := from + MatchLen(x, kind, s, from);
    MatchIff(x, kind, s, from, next);
    assert FirstStretch(x, kind, s, from, from, next);
    forall p: nat, e: nat | FirstStretch(x, kind, s, from, p, e)
      ensures p == from && e == next
    {
      MatchIff(x, kind, s, p, e);
    }
  }

  /** What is found, without the matching functions. */
  lemma {:induction false} FoundIsSearch(x: Chars, kind: Kind, s: string, from: nat, found: seq<string>)
    requires Proper(x) && from <= |s|
    ensures Search(x, kind, s, from, found) <==> found == FindAll(x, kind, s, from)
    decreases |s| - from
  {
    if from < |s| {
      var next := Next(x, kind, s, from);
      SearchStep(x, kind, s, from);
      if MatchLen(x, kind, s, from) > 0 {
        SearchFromMatch(x, kind, s, from, found);
        if found != [] {
          FoundIsSearch(x, kind, s, next, found[1..]);
          assert found == [found[0]] + found[1..];
        }
      } else {
        NoStretchHere(x, kind, s, from);
        SearchFromNext(x, kind, s, from, found);
        FoundIsSearch(x, kind, s, next, found);
      }
    }
  }

  /** One of the texts the search for addresses or the search for paths comes to. */
  ghost predicate Named(x: Chars, s: string, m: string) {
    exists kind: Kind, found: seq<string> :: Search(x, kind, s, 0, found) && m in found
  }

  lemma FoundIff(x: Chars, s: string, m: string)
    requires Proper(x)
    ensures m in Found(x, s) <==> Named(x, s, m)
  {
    if Named(x, s, m) {
      var kind: Kind, found: seq<string> :| Search(x, kind, s, 0, found) && m in found;
      FoundIsSearch(x, kind, s, 0, found);
    } else {
      FoundIsSearch(x, Address, s, 0, FindAll(x, Address, s, 0));
      FoundIsSearch(x, Path, s, 0, FindAll(x, Path, s, 0));
    }
  }

  /** An address that begins inside another one has a dot in front. */
  lemma AddressInside(x: Chars, s: string, q: nat, f: nat, p: nat, e: nat)
    requires Proper(x) && IsAddress(x, s, q, f) && IsAddress(x, s, p, e) && q < p < f
    ensures s[p - 1] == '.'
  {
    var a: nat, b: nat, c: nat :| FourGroups(x, s, q, a, b, c, f);
    assert forall k :: q <= k < f ==> x.digit(s[k]) || s[k] == '.';
  }

  /** A path that begins inside another one ends there. */
  lemma PathInside(x: Chars, s: string, q: nat, f: nat, p: nat, e: nat)
    requires IsPath(x, s, q, f) && IsPath(x, s, p, e) && q < p < f
    ensures e <= f
  {
    if e > f {
      forall i | q < i < e
        ensures s[i] == '/' || x.word(s[i]) || s[i] == '.' || s[i] == '@' || s[i] == '+' || s[i] == '-'
        ensures s[i] == '/' ==> s[i - 1] != '/'
      {
        if i <= p {
          assert i < f;
        }
      }
      assert PathStretch(x, s, q, e);
    }
  }

  lemma PartOfPart(s: string, q: nat, p: nat, e: nat, f: nat)
    requires q <= p <= e <= f <= |s|
    ensures Contains(s[q..f], s[p..e])
  {
    var part, whole := s[p..e], s[q..f];
    forall k | 0 <= k < |part|
      ensures whole[p - q..e - q][k] == part[k]
    {
      assert whole[p - q + k] == s[p + k];
    }
    assert whole[p - q..e - q] == part;
    assert At(whole, p - q, part);
  }

  /** A stretch of the text that the evidence must hold: an address without a dot in front, or a path. */
  ghost predicate MustBeKnown(x: Chars, s: string, p: nat, e: nat) {
    p < e <= |s| && ((IsAddress(x, s, p, e) && (p > 0 ==> s[p - 1] != '.')) || IsPath(x, s, p, e))
  }

  /** Each of them is found, or part of a path that is found. */
  lemma StretchIsFound(x: Chars, s: string, p: nat, e: nat) returns (m: string)
    requires Proper(x) && MustBeKnown(x, s, p, e)
    ensures m in Found(x, s) && Contains(m, s[p..e])
    ensures IsAddress(x, s, p, e) && (p > 0 ==> s[p - 1] != '.') ==> s[p..e] in Found(x, s)
  {
    m := s[p..e];
    assert At(m, 0, m);
    if IsAddress(x, s, p, e) && (p > 0 ==> s[p - 1] != '.') {
      var inside, q, f := FoundOrInside(x, Address, s, 0, p, e);
      if inside {
        AddressInside(x, s, q, f, p, e);
      }
    } else {
      var inside, q, f := FoundOrInside(x, Path, s, 0, p, e);
      if inside {
        PathInside(x, s, q, f, p, e);
        m := s[q..f];
        PartOfPart(s, q, p, e, f);
      }
    }
  }

  /** The evidence is read as one text, one piece per line. */
  predicate InEvidence(g: Guard, m: string) {
    Contains(Join(g.corpus, "\n"), m)
  }

  /** Nothing in the text is without support. */
  ghost predicate AllKnown(x: Chars, g: Guard, s: string) {
    forall p: nat, e: nat :: MustBeKnown(x, s, p, e) ==> InEvidence(g, s[p..e])
  }

  /** The same for all stretches, those with a dot in front included. */
  ghost predicate EveryStretchKnown(x: Chars, g: Guard, s: string) {
    forall kind: Kind, p: nat, e: nat :: p < e <= |s| && IsStretch(x, kind, s, p, e) ==> InEvidence(g, s[p..e])
  }

  lemma NoneUnsupported(x: Chars, g: Guard, s: string)
    requires Proper(x)
    ensures Ungrounded(x, g, s) == {} ==> AllKnown(x, g, s)
    ensures EveryStretchKnown(x, g, s) ==> Ungrounded(x, g, s) == {}
  {
    if Ungrounded(x, g, s) == {} {
      forall p: nat, e: nat | MustBeKnown(x, s, p, e)
        ensures InEvidence(g, s[p..e])
      {
        var m := StretchIsFound(x, s, p, e);
        assert m !in Ungrounded(x, g, s);
        ContainsTrans(Haystack(g), m, s[p..e]);
      }
    } else {
      var m :| m in Ungrounded(x, g, s);
      var kind := if m in FindAll(x, Address, s, 0) then Address else Path;
      var p, e := FoundIsStretch(x, kind, s, 0, m);
      assert IsStretch(x, kind, s, p, e) && !InEvidence(g, s[p..e]);
    }
  }
}
