/** What the chunks of a text have to be, said without the cutting functions (admin_console/backend/parser.py). */
module ChunkRules {
  import opened Text
  import opened Chunking

  // ---- paragraphs ----

  /** The text between its blank lines, each found as early as possible: only the last part may end with a newline. */
  predicate SplitAtBlanks(s: string, ps: seq<string>) {
    && ps != [] && Join(ps, "\n\n") == s
    && (forall i :: 0 <= i < |ps| ==> !Contains(ps[i], "\n\n"))
    && (forall i :: 0 <= i < |ps| - 1 ==> !EndsWith(ps[i], "\n"))
  }

  lemma NoBlankInTail(a: string)
    requires a != "" && !Contains(a, BLANK)
    ensures !At(a, 0, BLANK) && !Contains(a[1..], BLANK)
  {
    if Contains(a[1..], BLANK) {
      ContainsTail(a, BLANK);
    }
  }

  lemma {:induction false} ParagraphsPlain(a: string)
    requires !Contains(a, BLANK)
    ensures Paragraphs(a) == [a]
  {
    if a != "" {
      NoBlankInTail(a);
      ParagraphsPlain(a[1..]);
      assert [a[0]] + a[1..] == a;
    }
  }

  lemma BlankInFront(b: string)
    ensures At("" + BLANK + b, 0, BLANK) && ("" + BLANK + b)[2..] == b
  {
  }

  lemma NotAtBlank(a: string, b: string)
    requires a != "" && !At(a, 0, BLANK) && !EndsWith(a, "\n")
    ensures !At(a + BLANK + b, 0, BLANK) && (a + BLANK + b)[1..] == a[1..] + BLANK + b
  {
    var s := a + BLANK + b;
    assert s[..2] == [s[0], s[1]] && BLANK == [BLANK[0], BLANK[1]];
    if |a| > 1 {
      assert a[..2] == [a[0], a[1]] && s[0] == a[0] && s[1] == a[1];
    } else {
      assert a[|a| - 1..] == [a[0]];
    }
  }

  lemma EndOfTailStays(a: string, end: string)
    requires a != "" && EndsWith(a[1..], end)
    ensures EndsWith(a, end)
  {
    assert a[|a| - |end|..] == a[1..][|a| - 1 - |end|..];
  }

  lemma {:induction false} ParagraphsFirst(a: string, b: string)
    requires !Contains(a, BLANK) && !EndsWith(a, "\n")
    ensures Paragraphs(a + BLANK + b) == [a] + Paragraphs(b)
  {
    if a == "" {
      BlankInFront(b);
    } else {
      NoBlankInTail(a);
      NotAtBlank(a, b);
      if EndsWith(a[1..], "\n") {
        EndOfTailStays(a, "\n");
      }
      ParagraphsFirst(a[1..], b);
      assert [a[0]] + a[1..] == a;
    }
  }

  lemma {:induction false} SplitIsParagraphs(s: string, ps: seq<string>)
    requires SplitAtBlanks(s, ps)
    ensures ps == Paragraphs(s)
    decreases |ps|
  {
    if |ps| == 1 {
      ParagraphsPlain(ps[0]);
    } else {
      var rest := Join(ps[1..], BLANK);
      assert SplitAtBlanks(rest, ps[1..]);
      SplitIsParagraphs(rest, ps[1..]);
      ParagraphsFirst(ps[0], rest);
      assert [ps[0]] + ps[1..] == ps;
    }
  }

  lemma NoBlankAdded(c: char, a: string)
    requires !Contains(a, BLANK) && !At([c] + a, 0, BLANK)
    ensures !Contains([c] + a, BLANK)
  {
    var s := [c] + a;
    forall i: nat | i <= |s|
      ensures !At(s, i, BLANK)
    {
      if i > 0 && At(s, i, BLANK) {
        assert a[i - 1..i + 1] == s[i..i + 2];
        assert At(a, i - 1, BLANK);
      }
    }
  }

  lemma FirstParagraph(s: string)
    ensures var ps := Paragraphs(s);
            if |ps| == 1 then s == ps[0] else s == ps[0] + BLANK + Join(ps[1..], BLANK)
  {
    ParagraphsJoin(s);
  }

  lemma AtStays(s: string, more: string)
    requires At(s, 0, BLANK)
    ensures At(s + more, 0, BLANK)
  {
    assert (s + more)[..2] == s[..2];
  }

  /** One more character in front of the first part. */
  lemma FirstGrows(c: char, part: string, more: string, last: bool)
    requires !Contains(part, BLANK) && !At([c] + part + more, 0, BLANK) && (if last then more == "" else BLANK <= more)
    requires !last ==> !EndsWith(part, "\n")
    ensures !Contains([c] + part, BLANK) && (!last ==> !EndsWith([c] + part, "\n"))
  {
    var s := [c] + part + more;
    if At([c] + part, 0, BLANK) {
      AtStays([c] + part, more);
    }
    NoBlankAdded(c, part);
    if !last && part == "" {
      assert s == [c] + more && s[..2] == [c] + [more[0]];
    } else if !last {
      assert ([c] + part)[|part|..] == part[|part| - 1..];
    }
  }

  lemma {:induction false} ParagraphsSplit(s: string)
    ensures SplitAtBlanks(s, Paragraphs(s))
    decreases |s|
  {
    ParagraphsJoin(s);
    if s != "" {
      if At(s, 0, BLANK) {
        ParagraphsSplit(s[2..]);
        NothingInside();
      } else {
        var rest := Paragraphs(s[1..]);
        ParagraphsSplit(s[1..]);
        FirstParagraph(s[1..]);
        var more := if |rest| == 1 then "" else BLANK + Join(rest[1..], BLANK);
        assert s == [s[0]] + s[1..];
        assert s == [s[0]] + rest[0] + more;
        FirstGrows(s[0], rest[0], more, |rest| == 1);
      }
    } else {
      NothingInside();
    }
  }

  lemma NothingInside()
    ensures !Contains("", BLANK) && !EndsWith("", "\n")
  {
  }

  /** The parts at the blank lines are the only such list. */
  lemma ParagraphsIff(s: string, ps: seq<string>)
    ensures SplitAtBlanks(s, ps) <==> ps == Paragraphs(s)
  {
    ParagraphsSplit(s);
    if SplitAtBlanks(s, ps) {
      SplitIsParagraphs(s, ps);
    }
  }

  // ---- pieces ----

  /** `ps[j]` still fits behind the piece of `ps[a..j]`. */
  predicate FitsBehind(ps: seq<string>, max: nat, a: nat, j: nat)
    requires a <= j < |ps|
  {
    |Join(ps[a..j], "\n\n")| + 2 + |ps[j]| <= max
  }

  /** The first piece: behind empty paragraphs the first one with text, and further ones as long as they fit. */
  predicate FirstPiece(ps: seq<string>, max: nat, a: nat, b: nat, piece: string) {
    && a < b <= |ps| && (forall i :: 0 <= i < a ==> ps[i] == "") && ps[a] != "" && piece == Join(ps[a..b], "\n\n")
    && (forall j :: a < j < b ==> FitsBehind(ps, max, a, j)) && (b < |ps| ==> !FitsBehind(ps, max, a, b))
  }

  /** Pieces as long as possible, one after the other. */
  ghost predicate Merged(ps: seq<string>, max: nat, pieces: seq<string>)
    decreases |pieces|
  {
    if pieces == [] then forall i :: 0 <= i < |ps| ==> ps[i] == ""
    else exists a: nat, b: nat :: FirstPiece(ps, max, a, b, pieces[0]) && Merged(ps[b..], max, pieces[1..])
  }

  const START := Merging([], "")

  function MergeFrom(m: Merging, ps: seq<string>, max: nat): Merging
    decreases |ps|
  {
    if ps == [] then m else MergeFrom(MergeNext(m, ps[0], max), ps[1..], max)
  }

  lemma {:induction false} MergeRest(ps: seq<string>, n: nat, max: nat)
    requires n <= |ps|
    ensures MergeFrom(Merge(ps, n, max), ps[n..], max) == Merge(ps, |ps|, max)
    decreases |ps| - n
  {
    if n < |ps| {
      MergeRest(ps, n + 1, max);
      assert ps[n..][0] == ps[n] && ps[n..][1..] == ps[n + 1..];
    }
  }

  /** Finished pieces stay in front. */
  lemma {:induction false} FinishedStay(done: seq<string>, buf: string, ps: seq<string>, max: nat)
    ensures Finished(MergeFrom(Merging(done, buf), ps, max)) == done + Finished(MergeFrom(Merging([], buf), ps, max))
    decreases |ps|
  {
    if ps == [] {
      assert done + [] == done && [] + [buf] == [buf];
    } else {
      var next := MergeNext(Merging([], buf), ps[0], max);
      FinishedStay(done + next.pieces, next.buf, ps[1..], max);
      FinishedStay(next.pieces, next.buf, ps[1..], max);
      Associative(done, next.pieces, Finished(MergeFrom(Merging([], next.buf), ps[1..], max)));
      NextInFront(done, buf, ps[0], max);
    }
  }

  lemma NextInFront(done: seq<string>, buf: string, p: string, max: nat)
    ensures var next := MergeNext(Merging([], buf), p, max);
            MergeNext(Merging(done, buf), p, max) == Merging(done + next.pieces, next.buf)
  {
    assert done + [] == done && [] + [buf] == [buf];
  }

  lemma MergeStep(m: Merging, ps: seq<string>, k: nat, max: nat)
    requires k < |ps|
    ensures MergeFrom(m, ps[k..], max) == MergeFrom(MergeNext(m, ps[k], max), ps[k + 1..], max)
  {
    assert ps[k..][0] == ps[k] && ps[k..][1..] == ps[k + 1..];
  }

  lemma {:induction false} SkipsEmpty(ps: seq<string>, a: nat, max: nat)
    requires a <= |ps| && forall i :: 0 <= i < a ==> ps[i] == ""
    ensures MergeFrom(START, ps, max) == MergeFrom(START, ps[a..], max)
    decreases a
  {
    if a == 0 {
      assert ps[0..] == ps;
    } else {
      SkipsEmpty(ps, a - 1, max);
      MergeStep(START, ps, a - 1, max);
    }
  }

  /** The piece of `ps[a..k]` goes on to its end. */
  lemma {:induction false} FillsPiece(ps: seq<string>, a: nat, k: nat, max: nat) returns (b: nat)
    requires a < k <= |ps| && ps[a] != "" && forall j :: a < j < k ==> FitsBehind(ps, max, a, j)
    ensures k <= b <= |ps| && (forall j :: a < j < b ==> FitsBehind(ps, max, a, j))
    ensures b < |ps| ==> !FitsBehind(ps, max, a, b)
    ensures Finished(MergeFrom(Merging([], Join(ps[a..k], BLANK)), ps[k..], max))
         == [Join(ps[a..b], BLANK)] + Finished(MergeFrom(START, ps[b..], max))
    decreases |ps| - k
  {
    var buf := Join(ps[a..k], BLANK);
    JoinWithText(ps, a, k);
    b := k;
    if k == |ps| {
      assert [] + [buf] == [buf] + [];
    } else {
      MergeStep(Merging([], buf), ps, k, max);
      if FitsBehind(ps, max, a, k) {
        JoinMore(ps, a, k);
        b := FillsPiece(ps, a, k + 1, max);
      } else {
        MergeStep(START, ps, k, max);
        assert [] + [buf] == [buf];
        FinishedStay([buf], ps[k], ps[k + 1..], max);
      }
    }
  }

  lemma JoinWithText(ps: seq<string>, a: nat, k: nat)
    requires a < k <= |ps| && ps[a] != ""
    ensures Join(ps[a..k], BLANK) != ""
  {
    assert ps[a..k][0] == ps[a];
  }

  lemma JoinMore(ps: seq<string>, a: nat, k: nat)
    requires a < k < |ps|
    ensures Join(ps[a..k + 1], BLANK) == Join(ps[a..k], BLANK) + BLANK + ps[k]
  {
    assert ps[a..k + 1] == ps[a..k] + [ps[k]];
    JoinSnoc(ps[a..k], ps[k]);
  }

  lemma FirstWithText(ps: seq<string>) returns (a: nat)
    ensures a <= |ps| && (forall i :: 0 <= i < a ==> ps[i] == "") && (a < |ps| ==> ps[a] != "")
  {
    a := 0;
    while a < |ps| && ps[a] == ""
      invariant a <= |ps| && forall i :: 0 <= i < a ==> ps[i] == ""
    {
      a := a + 1;
    }
  }

  lemma {:induction false} MergesAll(ps: seq<string>, max: nat)
    ensures Merged(ps, max, Finished(MergeFrom(START, ps, max)))
    decreases |ps|
  {
    var a := FirstWithText(ps);
    SkipsEmpty(ps, a, max);
    if a < |ps| {
      MergeStep(START, ps, a, max);
      assert ps[a..a + 1] == [ps[a]];
      var b := FillsPiece(ps, a, a + 1, max);
      MergesAll(ps[b..], max);
      MergedCons(ps, max, a, b, Join(ps[a..b], BLANK), Finished(MergeFrom(START, ps[b..], max)));
    }
  }

  lemma MergedCons(ps: seq<string>, max: nat, a: nat, b: nat, piece: string, pieces: seq<string>)
    requires FirstPiece(ps, max, a, b, piece) && Merged(ps[b..], max, pieces)
    ensures Merged(ps, max, [piece] + pieces)
  {
    var all := [piece] + pieces;
    assert all[0] == piece && all[1..] == pieces;
  }

  lemma PiecesAreMerged(text: string, max: nat)
    ensures Merged(Paragraphs(text), max, Pieces(text, max))
  {
    var ps := Paragraphs(text);
    MergeRest(ps, 0, max);
    assert ps[0..] == ps;
    MergesAll(ps, max);
  }

  // ---- slices ----

  /** A piece in stretches of the maximal length, the last one shorter if need be. */
  predicate CutEvenly(piece: string, max: nat, cut: seq<string>) {
    && Concat(cut) == piece && (forall k :: 0 <= k < |cut| - 1 ==> |cut[k]| == max)
    && (cut != [] ==> 0 < |cut[|cut| - 1]| <= max)
  }

  lemma {:induction false} CutsEvenly(piece: string, max: nat)
    requires max > 0
    ensures CutEvenly(piece, max, HardCut(piece, max))
    decreases |piece|
  {
    HardCutConcat(piece, max);
    if |piece| > max {
      CutsEvenly(piece[max..], max);
    }
  }

  /** The pieces cut, one after the other. */
  predicate AllCut(pieces: seq<string>, max: nat, slices: seq<string>)
    decreases |pieces|
  {
    if pieces == [] then slices == []
    else
      exists k: nat :: k <= |slices| && CutEvenly(pieces[0], max, slices[..k]) && AllCut(pieces[1..], max, slices[k..])
  }

  lemma {:induction false} CutAllFirst(pieces: seq<string>, n: nat, max: nat)
    requires max > 0 && 1 <= n <= |pieces|
    ensures HardCutAll(pieces, n, max) == HardCut(pieces[0], max) + HardCutAll(pieces[1..], n - 1, max)
  {
    if n == 1 {
      assert [] + HardCut(pieces[0], max) == HardCut(pieces[0], max) + [];
    } else {
      CutAllFirst(pieces, n - 1, max);
      Associative(HardCut(pieces[0], max), HardCutAll(pieces[1..], n - 2, max), HardCut(pieces[n - 1], max));
    }
  }

  lemma {:induction false} CutsAll(pieces: seq<string>, max: nat)
    requires max > 0
    ensures AllCut(pieces, max, HardCutAll(pieces, |pieces|, max))
    decreases |pieces|
  {
    if pieces != [] {
      var first, rest := HardCut(pieces[0], max), HardCutAll(pieces[1..], |pieces| - 1, max);
      CutAllFirst(pieces, |pieces|, max);
      CutsEvenly(pieces[0], max);
      CutsAll(pieces[1..], max);
      AllCutCons(pieces, max, first, rest);
    }
  }

  lemma AllCutCons(pieces: seq<string>, max: nat, first: seq<string>, rest: seq<string>)
    requires pieces != [] && CutEvenly(pieces[0], max, first) && AllCut(pieces[1..], max, rest)
    ensures AllCut(pieces, max, first + rest)
  {
    var all, k := first + rest, |first|;
    assert all[..k] == first && all[k..] == rest;
  }

  // ---- overlap ----

  /** The last characters of a text, at most `overlap`. */
  predicate LastPart(s: string, overlap: nat, t: string) {
    EndsWith(s, t) && |t| == if |s| <= overlap then |s| else overlap
  }

  /** Repeated is the last part, from behind its first blank if there is text behind that. */
  ghost predicate Repeated(previous: string, overlap: nat, t: string) {
    exists part :: LastPart(previous, overlap, part) && (FromBlank(part, t) || (t == part && NoBlankBefore(part)))
  }

  predicate FromBlank(part: string, t: string) {
    t != "" && |t| < |part| && part == part[..|part| - |t| - 1] + " " + t && ' ' !in part[..|part| - |t| - 1]
  }

  predicate NoBlankBefore(part: string) {
    forall i :: 0 <= i < |part| - 1 ==> part[i] != ' '
  }

  lemma EndIsLastPart(previous: string, overlap: nat)
    ensures LastPart(previous, overlap, if |previous| <= overlap then previous else previous[|previous| - overlap..])
  {
  }

  function BehindFirstBlank(part: string): string {
    match FirstBlank(part)
    case Some(sp) => if sp + 1 < |part| then part[sp + 1..] else part
    case None => part
  }

  lemma BehindFirstBlankIs(part: string)
    ensures var t := BehindFirstBlank(part); FromBlank(part, t) || (t == part && NoBlankBefore(part))
  {
    var r := FirstBlank(part);
    if r.Some? && r.value + 1 < |part| {
      BehindBlank(part, r.value);
    } else {
      NoneBefore(part);
    }
  }

  lemma TailIsRepeated(previous: string, overlap: nat)
    ensures Repeated(previous, overlap, Tail(previous, overlap))
  {
    var part := if |previous| <= overlap then previous else previous[|previous| - overlap..];
    EndIsLastPart(previous, overlap);
    BehindFirstBlankIs(part);
    assert Tail(previous, overlap) == BehindFirstBlank(part);
  }

  lemma BehindBlank(part: string, sp: nat)
    requires sp + 1 < |part| && part[sp] == ' ' && ' ' !in part[..sp]
    ensures FromBlank(part, part[sp + 1..])
  {
    var t := part[sp + 1..];
    assert |part| - |t| - 1 == sp;
    assert part == part[..sp] + " " + t;
  }

  lemma NoneBefore(part: string)
    requires ' ' !in part || (part != "" && ' ' !in part[..|part| - 1])
    ensures NoBlankBefore(part)
  {
    forall i | 0 <= i < |part| - 1
      ensures part[i] != ' '
    {
      assert part[i] in part && part[..|part| - 1][i] == part[i];
    }
  }

  // ---- the chunks ----

  ghost predicate Sliced(text: string, max: nat, ps: seq<string>, pieces: seq<string>, slices: seq<string>) {
    SplitAtBlanks(text, ps) && Merged(ps, max, pieces) && AllCut(pieces, max, slices)
  }

  /** A chunk is what is repeated of the slice before, a newline, and its own slice. */
  ghost predicate Overlaps(slices: seq<string>, overlap: nat, i: nat, chunk: string)
    requires 0 < i < |slices|
  {
    exists t :: Repeated(slices[i - 1], overlap, t) && chunk == t + "\n" + slices[i]
  }

  ghost predicate RightChunks(slices: seq<string>, overlap: int, chunks: seq<string>) {
    if overlap <= 0 || |slices| < 2 then chunks == slices
    else
      && |chunks| == |slices| && chunks[0] == slices[0]
      && forall i :: 1 <= i < |slices| ==> Overlaps(slices, overlap, i, chunks[i])
  }

  /** A text that is short enough is its own chunk; a longer one is cut at its blank lines into pieces as long as
      possible, these into slices, and each slice repeats the end of the one before. */
  ghost predicate Chunked(text: string, max: nat, overlap: int, chunks: seq<string>) {
    if |text| <= max then chunks == [text]
    else exists ps, pieces, slices :: Sliced(text, max, ps, pieces, slices) && RightChunks(slices, overlap, chunks)
  }

  lemma ChunksAreRight(text: string, max: nat, overlap: int)
    requires max > 0
    ensures Chunked(text, max, overlap, Chunks(text, max, overlap))
  {
    if |text| > max {
      var pieces, slices := Pieces(text, max), Slices(text, max);
      ParagraphsSplit(text);
      PiecesAreMerged(text, max);
      CutsAll(pieces, max);
      assert Sliced(text, max, Paragraphs(text), pieces, slices);
      OverlapIsRight(slices, overlap);
    }
  }

  lemma OverlapIsRight(slices: seq<string>, overlap: int)
    ensures RightChunks(slices, overlap,
                        if overlap <= 0 || |slices| < 2 then slices else Overlapped(slices, overlap, |slices|))
  {
    if overlap > 0 && |slices| >= 2 {
      OverlappedAt(slices, overlap, |slices|, 0);
      forall i | 1 <= i < |slices|
        ensures Overlaps(slices, overlap, i, Overlapped(slices, overlap, |slices|)[i])
      {
        OverlappedAt(slices, overlap, |slices|, i);
        TailIsRepeated(slices[i - 1], overlap);
      }
    }
  }
}
