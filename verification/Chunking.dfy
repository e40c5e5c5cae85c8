/** Cutting a long text into overlapping chunks at paragraph borders (admin_console/backend/parser.py). */
module Chunking {
  import opened Text

  const BLANK := "\n\n"

  /** `text.split("\n\n")` */
  function Paragraphs(s: string): (ps: seq<string>)
    ensures |ps| >= 1
    decreases |s|
  {
    if s == "" then [""]
    else if At(s, 0, BLANK) then [""] + Paragraphs(s[2..])
    else var rest := Paragraphs(s[1..]); [[s[0]] + rest[0]] + rest[1..]
  }

  /** Finished pieces and the piece being filled. */
  datatype Merging = Merging(pieces: seq<string>, buf: string)

  function MergeNext(m: Merging, p: string, max: nat): Merging {
    if |m.buf| + |p| + 2 > max && m.buf != "" then Merging(m.pieces + [m.buf], p)
    else Merging(m.pieces, if m.buf != "" then m.buf + BLANK + p else p)
  }

  function Merge(ps: seq<string>, n: nat, max: nat): Merging
    requires n <= |ps|
  {
    if n == 0 then Merging([], "") else MergeNext(Merge(ps, n - 1, max), ps[n - 1], max)
  }

  function Finished(m: Merging): seq<string> {
    if m.buf != "" then m.pieces + [m.buf] else m.pieces
  }

  function Pieces(text: string, max: nat): seq<string> {
    var ps := Paragraphs(text);
    Finished(Merge(ps, |ps|, max))
  }

  /** A piece in slices of the maximal length. */
  function HardCut(piece: string, max: nat): (slices: seq<string>)
    requires max > 0
    ensures forall s :: s in slices ==> 0 < |s| <= max
    decreases |piece|
  {
    if |piece| > max then [piece[..max]] + HardCut(piece[max..], max)
    else if piece != "" then [piece]
    else []
  }

  function HardCutAll(pieces: seq<string>, n: nat, max: nat): (slices: seq<string>)
    requires max > 0 && n <= |pieces|
    ensures forall s :: s in slices ==> 0 < |s| <= max
  {
    if n == 0 then [] else HardCutAll(pieces, n - 1, max) + HardCut(pieces[n - 1], max)
  }

  /** The chunks before overlapping. */
  function Slices(text: string, max: nat): (slices: seq<string>)
    requires max > 0
    ensures forall s :: s in slices ==> |s| <= max
  {
    if |text| <= max then [text]
    else var pieces := Pieces(text, max); HardCutAll(pieces, |pieces|, max)
  }

  /** `s.find(" ")` */
  function FirstBlank(s: string): (r: Option<nat>)
    ensures r.Some? ==> r.value < |s| && s[r.value] == ' ' && ' ' !in s[..r.value]
    ensures r.None? ==> ' ' !in s
  {
    if s == "" then None
    else if s[0] == ' ' then Some(0)
    else
      match FirstBlank(s[1..])
      case None => None
      case Some(n) =>
        assert s[..n + 1] == [s[0]] + s[1..][..n];
        Some(n + 1)
  }

  /** The end of the previous slice that is repeated: at most `overlap` characters, from a word border if there is
      one before the last character. */
  function Tail(previous: string, overlap: nat): (t: string)
    ensures |t| <= overlap && EndsWith(previous, t)
  {
    var t := if |previous| <= overlap then previous else previous[|previous| - overlap..];
    match FirstBlank(t)
    case Some(sp) => if sp + 1 < |t| then t[sp + 1..] else t
    case None => t
  }

  function Overlapped(slices: seq<string>, overlap: nat, n: nat): (chunks: seq<string>)
    requires 1 <= n <= |slices|
    ensures |chunks| == n
  {
    if n == 1 then [slices[0]]
    else Overlapped(slices, overlap, n - 1) + [Tail(slices[n - 2], overlap) + "\n" + slices[n - 1]]
  }

  function Chunks(text: string, max: nat, overlap: int): seq<string>
    requires max > 0
  {
    var slices := Slices(text, max);
    if overlap <= 0 || |slices| < 2 then slices else Overlapped(slices, overlap, |slices|)
  }

  method CutPieces(pieces: seq<string>, max: nat) returns (cut: seq<string>)
    requires max > 0
    ensures cut == HardCutAll(pieces, |pieces|, max)
  {
    cut := [];
    for i := 0 to |pieces|
      invariant cut == HardCutAll(pieces, i, max)
    {
      var piece := pieces[i];
      ghost var goal := cut + HardCut(piece, max);
      while |piece| > max
        invariant cut + HardCut(piece, max) == goal
        decreases |piece|
      {
        assert cut + HardCut(piece, max) == cut + [piece[..max]] + HardCut(piece[max..], max);
        cut := cut + [piece[..max]];
        piece := piece[max..];
      }
      if piece != "" {
        cut := cut + [piece];
      }
    }
  }

  method MergeParagraphs(ps: seq<string>, max: nat) returns (pieces: seq<string>)
    ensures pieces == Finished(Merge(ps, |ps|, max))
  {
    var buf := "";
    pieces := [];
    for i := 0 to |ps|
      invariant Merging(pieces, buf) == Merge(ps, i, max)
    {
      if |buf| + |ps[i]| + 2 > max && buf != "" {
        pieces := pieces + [buf];
        buf := ps[i];
      } else {
        buf := if buf != "" then buf + BLANK + ps[i] else ps[i];
      }
    }
    if buf != "" {
      pieces := pieces + [buf];
    }
  }

  method Overlap(cut: seq<string>, overlap: nat) returns (chunks: seq<string>)
    requires |cut| >= 1
    ensures chunks == Overlapped(cut, overlap, |cut|)
  {
    chunks := [cut[0]];
    for i := 1 to |cut|
      invariant chunks == Overlapped(cut, overlap, i)
    {
      chunks := chunks + [Tail(cut[i - 1], overlap) + "\n" + cut[i]];
    }
  }

  method SplitLongText(text: string, max: nat, overlap: int) returns (chunks: seq<string>)
    requires max > 0
    ensures chunks == Chunks(text, max, overlap)
  {
    if |text| <= max {
      return [text];
    }
    var pieces := MergeParagraphs(Paragraphs(text), max);
    var cut := CutPieces(pieces, max);
    if overlap <= 0 || |cut| < 2 {
      return cut;
    }
    chunks := Overlap(cut, overlap);
  }

  // ---- nothing but newlines is lost ----

  /** The text without its newlines. */
  function Visible(s: string): string {
    if s == "" then ""
    else Visible(s[..|s| - 1]) + (if s[|s| - 1] == '\n' then "" else [s[|s| - 1]])
  }

  lemma {:induction false} VisibleAppend(a: string, b: string)
    ensures Visible(a + b) == Visible(a) + Visible(b)
    decreases |b|
  {
    if b == "" {
      assert a + b == a;
    } else {
      assert (a + b)[..|a + b| - 1] == a + b[..|b| - 1];
      VisibleAppend(a, b[..|b| - 1]);
    }
  }

  lemma VisibleBlank()
    ensures Visible(BLANK) == ""
  {
    assert BLANK[..1] == "\n" && "\n"[..0] == "";
  }

  /** Lengthening the first of several joined parts lengthens the whole. */
  lemma JoinFirst(c: char, parts: seq<string>)
    requires parts != []
    ensures Join([[c] + parts[0]] + parts[1..], BLANK) == [c] + Join(parts, BLANK)
  {
    var longer := [[c] + parts[0]] + parts[1..];
    assert longer[1..] == parts[1..];
    if |parts| > 1 {
      Associative([c], parts[0], BLANK);
      Associative([c], parts[0] + BLANK, Join(parts[1..], BLANK));
    }
  }

  lemma {:induction false} ParagraphsJoin(s: string)
    ensures Join(Paragraphs(s), BLANK) == s
    decreases |s|
  {
    if s != "" {
      if At(s, 0, BLANK) {
        ParagraphsJoin(s[2..]);
        assert ([""] + Paragraphs(s[2..]))[1..] == Paragraphs(s[2..]);
        assert s == BLANK + s[2..];
      } else {
        ParagraphsJoin(s[1..]);
        JoinFirst(s[0], Paragraphs(s[1..]));
        assert s == [s[0]] + s[1..];
      }
    }
  }

  lemma {:induction false} VisibleJoin(ps: seq<string>)
    ensures Visible(Join(ps, BLANK)) == Visible(Concat(ps))
  {
    if |ps| == 1 {
      assert ps[0] + Concat(ps[1..]) == ps[0];
    } else if |ps| > 1 {
      VisibleJoin(ps[1..]);
      VisibleAppend(ps[0] + BLANK, Join(ps[1..], BLANK));
      VisibleAppend(ps[0], BLANK);
      VisibleAppend(ps[0], Concat(ps[1..]));
      VisibleBlank();
    }
  }

  /** The visible text of a merging state. */
  function VisibleOf(m: Merging): string {
    Visible(Concat(m.pieces)) + Visible(m.buf)
  }

  lemma MergeNextVisible(m: Merging, p: string, max: nat)
    ensures VisibleOf(MergeNext(m, p, max)) == VisibleOf(m) + Visible(p)
  {
    if |m.buf| + |p| + 2 > max && m.buf != "" {
      ConcatSnoc(m.pieces, m.buf);
      VisibleAppend(Concat(m.pieces), m.buf);
    } else if m.buf != "" {
      VisibleBlank();
      VisibleAppend(m.buf + BLANK, p);
      VisibleAppend(m.buf, BLANK);
      Associative(Visible(Concat(m.pieces)), Visible(m.buf), Visible(p));
    }
  }

  lemma ConcatTake(ps: seq<string>, n: nat)
    requires 1 <= n <= |ps|
    ensures Concat(ps[..n]) == Concat(ps[..n - 1]) + ps[n - 1]
  {
    assert ps[..n] == ps[..n - 1] + [ps[n - 1]];
    ConcatSnoc(ps[..n - 1], ps[n - 1]);
  }

  lemma {:induction false} MergeVisible(ps: seq<string>, n: nat, max: nat)
    requires n <= |ps|
    ensures VisibleOf(Merge(ps, n, max)) == Visible(Concat(ps[..n]))
  {
    if n > 0 {
      MergeVisible(ps, n - 1, max);
      MergeNextVisible(Merge(ps, n - 1, max), ps[n - 1], max);
      ConcatTake(ps, n);
      VisibleAppend(Concat(ps[..n - 1]), ps[n - 1]);
    }
  }

  lemma {:induction false} HardCutConcat(piece: string, max: nat)
    requires max > 0
    ensures Concat(HardCut(piece, max)) == piece
    decreases |piece|
  {
    if |piece| > max {
      HardCutConcat(piece[max..], max);
      ConcatCons(piece[..max], HardCut(piece[max..], max));
      assert piece == piece[..max] + piece[max..];
    } else if piece != "" {
      ConcatCons(piece, []);
      assert [piece] + [] == [piece] && piece + "" == piece;
    }
  }

  /** Slicing pieces keeps their text. */
  lemma {:induction false} HardCutAllConcat(pieces: seq<string>, n: nat, max: nat)
    requires max > 0 && n <= |pieces|
    ensures Concat(HardCutAll(pieces, n, max)) == Concat(pieces[..n])
  {
    if n > 0 {
      HardCutAllConcat(pieces, n - 1, max);
      HardCutConcat(pieces[n - 1], max);
      ConcatAppend(HardCutAll(pieces, n - 1, max), HardCut(pieces[n - 1], max));
      ConcatTake(pieces, n);
    }
  }

  /** For every text, the slices hold all its characters except newlines, in order. */
  lemma {:induction false} OnlyNewlinesLost(text: string, max: nat)
    requires max > 0
    ensures Visible(Concat(Slices(text, max))) == Visible(text)
  {
    if |text| <= max {
      assert Concat([text]) == text + "" == text;
    } else {
      var ps, pieces := Paragraphs(text), Pieces(text, max);
      HardCutAllConcat(pieces, |pieces|, max);
      assert pieces[..|pieces|] == pieces && ps[..|ps|] == ps;
      MergeVisible(ps, |ps|, max);
      VisibleJoin(ps);
      ParagraphsJoin(text);
      var m := Merge(ps, |ps|, max);
      if m.buf != "" {
        ConcatSnoc(m.pieces, m.buf);
        VisibleAppend(Concat(m.pieces), m.buf);
      }
    }
  }

  // ---- when the pieces rebuild the text exactly ----

  /** No paragraph leaves the buffer empty. */
  predicate NeverEmpty(ps: seq<string>, max: nat) {
    NeverEmptyBefore(ps, |ps| + 1, max)
  }

  predicate NeverEmptyBefore(ps: seq<string>, n: nat, max: nat)
    requires n <= |ps| + 1
  {
    forall k :: 1 <= k < n ==> Merge(ps, k, max).buf != ""
  }

  /** The pieces together with the buffer, joined again. */
  function Rejoined(m: Merging): string {
    Join(m.pieces + [m.buf], BLANK)
  }

  lemma JoinSnoc(ps: seq<string>, last: string)
    requires ps != []
    ensures Join(ps + [last], BLANK) == Join(ps, BLANK) + BLANK + last
  {
    JoinAppend(ps, [last], BLANK);
  }

  lemma ExtendLast(pieces: seq<string>, buf: string, p: string)
    ensures Join(pieces + [buf + BLANK + p], BLANK) == Join(pieces + [buf], BLANK) + BLANK + p
  {
    if pieces == [] {
      assert pieces + [buf + BLANK + p] == [buf + BLANK + p] && pieces + [buf] == [buf];
    } else {
      JoinSnoc(pieces, buf + BLANK + p);
      JoinSnoc(pieces, buf);
      assert Join(pieces, BLANK) + BLANK + (buf + BLANK + p) == Join(pieces, BLANK) + BLANK + buf + BLANK + p;
    }
  }

  /** A paragraph added to a non-empty buffer keeps its separator; added to an empty one it loses it. */
  lemma RejoinNext(m: Merging, p: string, max: nat)
    ensures var m' := MergeNext(m, p, max);
            if m.buf != "" then Rejoined(m') == Rejoined(m) + BLANK + p
            else |Rejoined(m')| == |Rejoined(m)| + |p|
  {
    if m.buf == "" {
      if m.pieces == [] {
        assert m.pieces + [m.buf] == [""] && m.pieces + [p] == [p];
      } else {
        JoinSnoc(m.pieces, p);
        JoinSnoc(m.pieces, "");
      }
    } else if |m.buf| + |p| + 2 > max {
      JoinSnoc(m.pieces + [m.buf], p);
    } else {
      ExtendLast(m.pieces, m.buf, p);
    }
  }

  lemma JoinTake(ps: seq<string>, n: nat)
    requires 2 <= n <= |ps|
    ensures Join(ps[..n], BLANK) == Join(ps[..n - 1], BLANK) + BLANK + ps[n - 1]
  {
    assert ps[..n] == ps[..n - 1] + [ps[n - 1]];
    JoinSnoc(ps[..n - 1], ps[n - 1]);
  }

  lemma {:induction false} RejoinPrefix(ps: seq<string>, n: nat, max: nat)
    requires 1 <= n <= |ps|
    ensures if NeverEmptyBefore(ps, n, max) then Rejoined(Merge(ps, n, max)) == Join(ps[..n], BLANK)
            else |Rejoined(Merge(ps, n, max))| < |Join(ps[..n], BLANK)|
    decreases n
  {
    assert NeverEmptyBefore(ps, n, max) <==>
           (n == 1 || (NeverEmptyBefore(ps, n - 1, max) && Merge(ps, n - 1, max).buf != ""));
    var m := Merge(ps, n - 1, max);
    RejoinNext(m, ps[n - 1], max);
    if n == 1 {
      assert Merge(ps, 0, max) == Merging([], "");
      assert MergeNext(Merging([], ""), ps[0], max) == Merging([], ps[0]);
      assert [] + [ps[0]] == [ps[0]] && ps[..1] == [ps[0]];
    } else {
      RejoinPrefix(ps, n - 1, max);
      JoinTake(ps, n);
    }
  }

  /** What finishing does to the rejoined text: an empty buffer is dropped. */
  lemma FinishedJoin(m: Merging)
    ensures m.buf != "" ==> Join(Finished(m), BLANK) == Rejoined(m)
    ensures m.buf == "" && m.pieces != [] ==> |Join(Finished(m), BLANK)| < |Rejoined(m)|
    ensures m.buf == "" && m.pieces == [] ==> Join(Finished(m), BLANK) == ""
  {
    if m.buf == "" && m.pieces != [] {
      JoinSnoc(m.pieces, "");
    }
  }

  /** The length of the piece in the making before paragraph `k`, from the lengths of the paragraphs alone. */
  function Running(ps: seq<string>, k: nat, max: nat): nat
    requires k <= |ps|
  {
    if k == 0 then 0
    else
      var before, here := Running(ps, k - 1, max), |ps[k - 1]|;
      if before == 0 || before + here + 2 > max then here else before + 2 + here
  }

  /** An empty paragraph stands behind text, and its separator still fits into the piece. */
  predicate HasRoom(ps: seq<string>, k: nat, max: nat)
    requires k < |ps|
  {
    0 < Running(ps, k, max) && Running(ps, k, max) + 2 <= max
  }

  lemma {:induction false} RunningIsBuffer(ps: seq<string>, k: nat, max: nat)
    requires k <= |ps|
    ensures Running(ps, k, max) == |Merge(ps, k, max).buf|
  {
    if k > 0 {
      RunningIsBuffer(ps, k - 1, max);
    }
  }

  /** Every empty paragraph does. */
  predicate AllHaveRoom(ps: seq<string>, max: nat) {
    forall k :: 0 <= k < |ps| && ps[k] == "" ==> HasRoom(ps, k, max)
  }

  lemma BufferEmptyIff(ps: seq<string>, k: nat, max: nat)
    requires k < |ps|
    ensures Merge(ps, k + 1, max).buf == "" <==> ps[k] == "" && !HasRoom(ps, k, max)
  {
    RunningIsBuffer(ps, k, max);
  }

  lemma NeverEmptyIff(ps: seq<string>, max: nat)
    ensures NeverEmpty(ps, max) <==> AllHaveRoom(ps, max)
  {
    if AllHaveRoom(ps, max) {
      forall k | 1 <= k <= |ps|
        ensures Merge(ps, k, max).buf != ""
      {
        BufferEmptyIff(ps, k - 1, max);
      }
    } else {
      var k :| 0 <= k < |ps| && ps[k] == "" && !HasRoom(ps, k, max);
      BufferEmptyIff(ps, k, max);
    }
  }

  /** A long text is rebuilt by joining its pieces with blank lines precisely when every empty paragraph stands behind
      text and its separator still fits into the piece. */
  lemma PiecesRebuildTextIff(text: string, max: nat)
    requires |text| > max
    ensures Join(Pieces(text, max), BLANK) == text <==> AllHaveRoom(Paragraphs(text), max)
  {
    ParagraphsJoin(text);
    RejoinAll(Paragraphs(text), max, text);
    NeverEmptyIff(Paragraphs(text), max);
  }

  /** For a text of at least two characters: all maximal lengths below its own give it back if and only if it has no
      empty paragraph. */
  lemma RebuiltForAllLengthsIff(text: string)
    requires |text| >= 2
    ensures (forall max :: 0 < max < |text| ==> Join(Pieces(text, max), BLANK) == text) <==> "" !in Paragraphs(text)
  {
    var ps := Paragraphs(text);
    if "" in ps {
      var k :| 0 <= k < |ps| && ps[k] == "";
      PiecesRebuildTextIff(text, 1);
      assert !HasRoom(ps, k, 1);
    } else {
      forall max | 0 < max < |text|
        ensures Join(Pieces(text, max), BLANK) == text
      {
        PiecesRebuildText(text, max);
      }
    }
  }

  /** A text that is not given back: its first paragraph is empty. */
  lemma LeadingBlankIsLost(rest: string, max: nat)
    requires max < |BLANK + rest|
    ensures Join(Pieces(BLANK + rest, max), BLANK) != BLANK + rest
  {
    var text := BLANK + rest;
    assert At(text, 0, BLANK) && Paragraphs(text)[0] == "";
    PiecesRebuildTextIff(text, max);
    assert !HasRoom(Paragraphs(text), 0, max);
  }

  lemma RejoinAll(ps: seq<string>, max: nat, text: string)
    requires ps != [] && Join(ps, BLANK) == text != ""
    ensures Join(Finished(Merge(ps, |ps|, max)), BLANK) == text <==> NeverEmpty(ps, max)
  {
    RejoinPrefix(ps, |ps|, max);
    assert ps[..|ps|] == ps;
    var m := Merge(ps, |ps|, max);
    FinishedJoin(m);
    assert NeverEmpty(ps, max) <==> NeverEmptyBefore(ps, |ps|, max) && m.buf != "";
  }

  /** In particular a text without empty paragraphs is rebuilt exactly. */
  lemma {:induction false} PiecesRebuildText(text: string, max: nat)
    requires |text| > max && "" !in Paragraphs(text)
    ensures Join(Pieces(text, max), BLANK) == text
  {
    PiecesRebuildTextIff(text, max);
  }

  // ---- overlap ----

  /** The `i`-th chunk is a newline-terminated end of the previous slice followed by its own slice. */
  ghost predicate Follows(slices: seq<string>, overlap: nat, i: nat, chunk: string)
    requires i < |slices|
  {
    && EndsWith(chunk, slices[i])
    && (i == 0 ==> chunk == slices[0])
    && (i > 0 ==> exists t: string :: chunk == t + "\n" + slices[i] && EndsWith(slices[i - 1], t) && |t| <= overlap)
  }

  lemma TailFollows(slices: seq<string>, overlap: nat, i: nat)
    requires 1 <= i < |slices|
    ensures Follows(slices, overlap, i, Tail(slices[i - 1], overlap) + "\n" + slices[i])
  {
    var t := Tail(slices[i - 1], overlap);
    var chunk := t + "\n" + slices[i];
    assert chunk[|chunk| - |slices[i]|..] == slices[i];
  }

  lemma OverlappedSnoc(slices: seq<string>, overlap: nat, n: nat, i: nat)
    requires 1 < n <= |slices| && i < n
    ensures Overlapped(slices, overlap, n)[i] ==
            if i < n - 1 then Overlapped(slices, overlap, n - 1)[i] else Tail(slices[i - 1], overlap) + "\n" + slices[i]
  {
  }

  lemma {:induction false} OverlappedAt(slices: seq<string>, overlap: nat, n: nat, i: nat)
    requires i < n <= |slices|
    ensures Overlapped(slices, overlap, n)[i] ==
            if i == 0 then slices[0] else Tail(slices[i - 1], overlap) + "\n" + slices[i]
  {
    if n > 1 {
      OverlappedSnoc(slices, overlap, n, i);
      if i < n - 1 {
        OverlappedAt(slices, overlap, n - 1, i);
      }
    }
  }

  lemma OverlapShape(slices: seq<string>, overlap: nat, i: nat)
    requires i < |slices|
    ensures Follows(slices, overlap, i, Overlapped(slices, overlap, |slices|)[i])
  {
    OverlappedAt(slices, overlap, |slices|, i);
    if i > 0 {
      TailFollows(slices, overlap, i);
    } else {
      assert slices[0][0..] == slices[0];
    }
  }

  lemma FollowsIsShort(slices: seq<string>, overlap: nat, i: nat, chunk: string, max: nat)
    requires i < |slices| && Follows(slices, overlap, i, chunk) && |slices[i]| <= max
    ensures |chunk| <= max + overlap + 1
  {
  }

  /** What every caller gets: one chunk for each slice, in order; each ends with its slice, begins with nothing but an
      end of the previous slice, and is no longer than a slice, the overlap and a newline together. */
  lemma ChunksFollowSlices(text: string, max: nat, overlap: int)
    requires max > 0
    ensures var slices, chunks := Slices(text, max), Chunks(text, max, overlap);
            && |chunks| == |slices|
            && (overlap <= 0 ==> chunks == slices)
            && (overlap > 0 ==> forall i :: 0 <= i < |chunks| ==>
                 Follows(slices, overlap, i, chunks[i]) && |chunks[i]| <= max + overlap + 1)
            && (forall i :: 0 <= i < |slices| ==> |slices[i]| <= max)
  {
    var slices, chunks := Slices(text, max), Chunks(text, max, overlap);
    forall i | 0 <= i < |slices|
      ensures |slices[i]| <= max
    {
      assert slices[i] in slices;
    }
    if overlap > 0 {
      forall i | 0 <= i < |slices|
        ensures Follows(slices, overlap, i, chunks[i]) && |chunks[i]| <= max + overlap + 1
      {
        if |slices| >= 2 {
          OverlapShape(slices, overlap, i);
        } else {
          assert slices[0][0..] == slices[0];
        }
        FollowsIsShort(slices, overlap, i, chunks[i], max);
      }
    }
  }
}
