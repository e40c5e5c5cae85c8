/** Reading a published document page by page (mcp_servers/manual_mcp/server.py). */
module DocumentPaging {

  /** A chunk as it is returned: whole, or a prefix that is marked as cut. */
  datatype Shown = Whole(text: string) | Cut(prefix: string)

  datatype Page = Page(offset: nat, chunks: seq<Shown>, total: nat, hasMore: bool, nextOffset: nat, truncated: bool)

  const CUT_MARK := " …(잘림)"
  const MIN_PREFIX := 200

  /** The text of a chunk in the response. */
  function Text(s: Shown): string {
    match s case Whole(text) => text case Cut(prefix) => prefix + CUT_MARK
  }

  function Clamp(low: int, x: int, high: int): (r: int)
    requires low <= high
    ensures low <= r <= high && (low <= x <= high ==> r == x)
  {
    if x < low then low else if x > high then high else x
  }

  /** The chunks that fit into `room` characters, and whether the page ran out of room. */
  function Fill(rows: seq<string>, room: nat): (seq<Shown>, bool) {
    if rows == [] then ([], false)
    else if |rows[0]| > room then (if room > MIN_PREFIX then [Cut(rows[0][..room])] else [], true)
    else
      var (rest, truncated) := Fill(rows[1..], room - |rows[0]|);
      ([Whole(rows[0])] + rest, truncated)
  }

  /** `OFFSET … LIMIT …` on the ordered chunks of the document. */
  function Rows(doc: seq<string>, offset: nat, limit: nat): seq<string> {
    if offset >= |doc| then []
    else if offset + limit <= |doc| then doc[offset..offset + limit]
    else doc[offset..]
  }

  /** With `chunks` on the page, the rows from `i` on and `room` left, the page will be `page`. */
  ghost predicate Filling(page: (seq<Shown>, bool), rows: seq<string>, i: nat, room: nat, chunks: seq<Shown>)
    requires i <= |rows|
  {
    page == (chunks + Fill(rows[i..], room).0, Fill(rows[i..], room).1)
  }

  lemma FillWhole(page: (seq<Shown>, bool), rows: seq<string>, i: nat, room: nat, chunks: seq<Shown>)
    requires i < |rows| && |rows[i]| <= room && Filling(page, rows, i, room, chunks)
    ensures Filling(page, rows, i + 1, room - |rows[i]|, chunks + [Whole(rows[i])])
  {
    assert rows[i..][1..] == rows[i + 1..];
    var rest := Fill(rows[i + 1..], room - |rows[i]|).0;
    assert chunks + ([Whole(rows[i])] + rest) == chunks + [Whole(rows[i])] + rest;
  }

  lemma FillCut(page: (seq<Shown>, bool), rows: seq<string>, i: nat, room: nat, chunks: seq<Shown>)
    requires i < |rows| && |rows[i]| > room && Filling(page, rows, i, room, chunks)
    ensures page == (if room > MIN_PREFIX then chunks + [Cut(rows[i][..room])] else chunks, true)
  {
    assert chunks + [] == chunks;
  }

  lemma FillDone(page: (seq<Shown>, bool), rows: seq<string>, i: nat, room: nat, chunks: seq<Shown>)
    requires i == |rows| && Filling(page, rows, i, room, chunks)
    ensures page == (chunks, false)
  {
    assert rows[i..] == [] && chunks + [] == chunks;
  }

  /** The `n`-th row from `offset` on is on this page if the limits let it. */
  predicate IsRow(doc: seq<string>, offset: nat, limit: nat, n: nat) {
    n < limit && offset + n < |doc|
  }

  function Length(s: Shown): nat {
    match s case Whole(text) => |text| case Cut(prefix) => |prefix|
  }

  /** Rows in order and whole, as many as fit; the one that does not is cut if more than 200 characters are left. */
  ghost predicate Holds(doc: seq<string>, offset: nat, limit: nat, room: nat, chunks: seq<Shown>, truncated: bool) {
    && (forall i :: 0 <= i < |chunks| ==>
          && IsRow(doc, offset, limit, i) && (chunks[i].Whole? ==> chunks[i].text == doc[offset + i])
          && (chunks[i].Cut? ==> i == |chunks| - 1 && truncated))
    && (!truncated ==> Used(chunks) <= room && !IsRow(doc, offset, limit, |chunks|))
    && (truncated ==> Breaks(doc, offset, limit, room, chunks))
  }

  ghost predicate Breaks(doc: seq<string>, offset: nat, limit: nat, room: nat, chunks: seq<Shown>) {
    if chunks != [] && chunks[|chunks| - 1].Cut? then
      var n := |chunks| - 1;
      var left := room - Used(chunks[..n]);
      && left > 200 && IsRow(doc, offset, limit, n) && left < |doc[offset + n]|
      && chunks[n] == Cut(doc[offset + n][..left])
    else
      && Used(chunks) <= room <= Used(chunks) + 200 && IsRow(doc, offset, limit, |chunks|)
      && Used(chunks) + |doc[offset + |chunks|]| > room
  }

  method GetDocument(doc: seq<string>, offset: int, limit: int, maxChars: int) returns (page: Page)
    ensures page.offset == if offset > 0 then offset else 0
    ensures var rows := Rows(doc, page.offset, Clamp(1, limit, 50));
            (page.chunks, page.truncated) == Fill(rows, Clamp(500, maxChars, 20000))
    ensures page.total == |doc| && page.nextOffset == page.offset + |page.chunks|
    ensures page.hasMore <==> page.nextOffset < page.total || page.truncated
    ensures Holds(doc, page.offset, if limit < 1 then 1 else if limit > 50 then 50 else limit,
                  if maxChars < 500 then 500 else if maxChars > 20000 then 20000 else maxChars, page.chunks,
                  page.truncated)
  {
    var start := if offset > 0 then offset else 0;
    var chunks, truncated := FillPage(Rows(doc, start, Clamp(1, limit, 50)), Clamp(500, maxChars, 20000));
    FillHolds(doc, start, Clamp(1, limit, 50), Clamp(500, maxChars, 20000));
    var end := start + |chunks|;
    page := Page(start, chunks, |doc|, end < |doc| || truncated, end, truncated);
  }

  method FillPage(rows: seq<string>, max: nat) returns (chunks: seq<Shown>, truncated: bool)
    ensures (chunks, truncated) == Fill(rows, max)
  {
    var used := 0;
    chunks, truncated := [], false;
    ghost var page := Fill(rows, max);
    assert rows[0..] == rows && [] + page.0 == page.0;
    for i := 0 to |rows|
      invariant 0 <= used <= max && !truncated && Filling(page, rows, i, max - used, chunks)
    {
      var text := rows[i];
      if used + |text| > max {
        FillCut(page, rows, i, max - used, chunks);
        var remain := max - used;
        if remain > MIN_PREFIX {
          chunks := chunks + [Cut(text[..remain])];
          used := max;
        }
        truncated := true;
        return;
      }
      FillWhole(page, rows, i, max - used, chunks);
      chunks := chunks + [Whole(text)];
      used := used + |text|;
    }
    FillDone(page, rows, |rows|, max - used, chunks);
  }

  // ---- what a page holds ----

  /** `s` shows the chunk `text`: whole, or cut to a proper prefix of more than 200 characters. */
  ghost predicate Shows(s: Shown, text: string) {
    match s
    case Whole(t) => t == text
    case Cut(prefix) => prefix < text && |prefix| > MIN_PREFIX
  }

  function Used(chunks: seq<Shown>): nat {
    if chunks == [] then 0 else Length(chunks[0]) + Used(chunks[1..])
  }

  lemma {:induction false} FillHolds(doc: seq<string>, offset: nat, limit: nat, room: nat)
    ensures var (chunks, truncated) := Fill(Rows(doc, offset, limit), room);
            Holds(doc, offset, limit, room, chunks, truncated)
    decreases limit
  {
    var rows := Rows(doc, offset, limit);
    RowsFrom(doc, offset, limit);
    if rows != [] && |rows[0]| <= room {
      var left := room - |rows[0]|;
      FillHolds(doc, offset + 1, limit - 1, left);
      var (rest, truncated) := Fill(rows[1..], left);
      HoldsCons(doc, offset, limit, room, rest, truncated);
    } else if rows != [] {
      HoldsBroken(doc, offset, limit, room);
    }
  }

  lemma HoldsBroken(doc: seq<string>, offset: nat, limit: nat, room: nat)
    requires IsRow(doc, offset, limit, 0) && |doc[offset]| > room
    ensures Holds(doc, offset, limit, room, if room > 200 then [Cut(doc[offset][..room])] else [], true)
  {
    if room > 200 {
      var cut := [Cut(doc[offset][..room])];
      assert cut[..0] == [];
    }
  }

  lemma RowsFrom(doc: seq<string>, offset: nat, limit: nat)
    ensures if IsRow(doc, offset, limit, 0) then
              Rows(doc, offset, limit) == [doc[offset]] + Rows(doc, offset + 1, limit - 1)
            else Rows(doc, offset, limit) == []
  {
  }

  lemma UsedCons(s: Shown, chunks: seq<Shown>)
    ensures Used([s] + chunks) == Length(s) + Used(chunks)
  {
    assert ([s] + chunks)[1..] == chunks;
  }

  lemma HoldsCons(doc: seq<string>, offset: nat, limit: nat, room: nat, rest: seq<Shown>, truncated: bool)
    requires IsRow(doc, offset, limit, 0) && |doc[offset]| <= room
    requires Holds(doc, offset + 1, limit - 1, room - |doc[offset]|, rest, truncated)
    ensures Holds(doc, offset, limit, room, [Whole(doc[offset])] + rest, truncated)
  {
    var all := [Whole(doc[offset])] + rest;
    forall i | 1 <= i < |all|
      ensures all[i] == rest[i - 1] && IsRow(doc, offset, limit, i)
    {
      assert IsRow(doc, offset + 1, limit - 1, i - 1);
    }
    UsedCons(Whole(doc[offset]), rest);
    if truncated && rest != [] {
      assert all[..|all| - 1] == [Whole(doc[offset])] + rest[..|rest| - 1];
      UsedCons(Whole(doc[offset]), rest[..|rest| - 1]);
    }
  }

  ghost predicate ShowsInOrder(chunks: seq<Shown>, rows: seq<string>) {
    && |chunks| <= |rows|
    && (forall i :: 0 <= i < |chunks| ==> Shows(chunks[i], rows[i]))
    && (forall i :: 0 <= i < |chunks| - 1 ==> chunks[i].Whole?)
  }

  lemma ShowsOneMore(chunks: seq<Shown>, rows: seq<string>)
    requires rows != [] && ShowsInOrder(chunks, rows[1..])
    ensures ShowsInOrder([Whole(rows[0])] + chunks, rows)
  {
    var all := [Whole(rows[0])] + chunks;
    forall i | 0 <= i < |all|
      ensures Shows(all[i], rows[i]) && (i < |all| - 1 ==> all[i].Whole?)
    {
      if i > 0 {
        assert all[i] == chunks[i - 1] && rows[1..][i - 1] == rows[i];
      }
    }
  }

  /** A page shows its rows in order from the first on, and only the last may be cut. */
  lemma {:induction false} FillShows(rows: seq<string>, room: nat)
    ensures ShowsInOrder(Fill(rows, room).0, rows)
  {
    if rows != [] && |rows[0]| <= room {
      FillShows(rows[1..], room - |rows[0]|);
      ShowsOneMore(Fill(rows[1..], room - |rows[0]|).0, rows);
    }
  }

  /** A page stays within its room, and it is cut or stops early only because the next row does not fit whole. */
  lemma {:induction false} FillBudget(rows: seq<string>, room: nat)
    ensures var (chunks, truncated) := Fill(rows, room);
            && |chunks| <= |rows| && Used(chunks) <= room
            && (!truncated ==> |chunks| == |rows| && forall i :: 0 <= i < |chunks| ==> chunks[i].Whole?)
            && (truncated ==> if chunks != [] && chunks[|chunks| - 1].Cut? then Used(chunks) == room
                              else |chunks| < |rows| && Used(chunks) + |rows[|chunks|]| > room)
  {
    if rows != [] && |rows[0]| <= room {
      var left := room - |rows[0]|;
      FillBudget(rows[1..], left);
      var rest := Fill(rows[1..], left).0;
      assert ([Whole(rows[0])] + rest)[1..] == rest;
    }
  }

  /** With room for more than 200 characters the first row is always shown. */
  lemma FillProgresses(rows: seq<string>, room: nat)
    requires rows != [] && room > MIN_PREFIX
    ensures Fill(rows, room).0 != []
  {
  }

  // ---- a client that follows next_offset ----

  /** The reader has seen the first `n` chunks, each exactly once and in order. */
  ghost predicate SeenInOrder(doc: seq<string>, seen: seq<Shown>, n: nat) {
    && |seen| == n <= |doc|
    && forall i :: 0 <= i < n ==> Shows(seen[i], doc[i])
  }

  /** Limits may differ from call to call. */
  method ReadAll(doc: seq<string>, limit: nat -> int, maxChars: nat -> int) returns (seen: seq<Shown>, calls: nat)
    ensures SeenInOrder(doc, seen, |doc|)
    ensures 1 <= calls <= |doc| + 1
  {
    seen, calls := [], 0;
    var offset, more := 0, true;
    while more
      invariant 0 <= offset <= |doc| && SeenInOrder(doc, seen, offset)
      invariant calls <= |doc| + 1
      invariant more ==> calls <= offset
      invariant !more ==> offset == |doc| && calls >= 1
      decreases more, |doc| - offset
    {
      var page := GetDocument(doc, offset, limit(calls), maxChars(calls));
      PageContinues(doc, offset, limit(calls), maxChars(calls), seen);
      calls := calls + 1;
      seen := seen + page.chunks;
      offset := page.nextOffset;
      more := page.hasMore;
    }
  }

  lemma PageContinues(doc: seq<string>, offset: nat, limit: int, maxChars: int, seen: seq<Shown>)
    requires SeenInOrder(doc, seen, offset)
    ensures var (chunks, truncated) := Fill(Rows(doc, offset, Clamp(1, limit, 50)), Clamp(500, maxChars, 20000));
            && SeenInOrder(doc, seen + chunks, offset + |chunks|)
            && (offset < |doc| ==> chunks != [])
            && (offset == |doc| ==> chunks == [] && !truncated)
  {
    var rows, room := Rows(doc, offset, Clamp(1, limit, 50)), Clamp(500, maxChars, 20000);
    FillShows(rows, room);
    FillBudget(rows, room);
    RowsAreChunks(doc, offset, Clamp(1, limit, 50));
    if offset < |doc| {
      FillProgresses(rows, room);
    }
    var chunks := Fill(rows, room).0;
    ShownAppend(doc, offset, seen, chunks, rows);
  }

  lemma RowsAreChunks(doc: seq<string>, offset: nat, limit: nat)
    requires offset <= |doc|
    ensures var rows := Rows(doc, offset, limit);
            |rows| <= |doc| - offset && forall i :: 0 <= i < |rows| ==> rows[i] == doc[offset + i]
    ensures offset < |doc| && limit > 0 ==> Rows(doc, offset, limit) != []
  {
  }

  lemma ShownAppend(doc: seq<string>, offset: nat, seen: seq<Shown>, chunks: seq<Shown>, rows: seq<string>)
    requires SeenInOrder(doc, seen, offset) && |chunks| <= |rows| <= |doc| - offset
    requires forall i :: 0 <= i < |rows| ==> rows[i] == doc[offset + i]
    requires forall i :: 0 <= i < |chunks| ==> Shows(chunks[i], rows[i])
    ensures SeenInOrder(doc, seen + chunks, offset + |chunks|)
  {
    forall i | 0 <= i < offset + |chunks|
      ensures Shows((seen + chunks)[i], doc[i])
    {
      if i >= offset {
        assert (seen + chunks)[i] == chunks[i - offset] && rows[i - offset] == doc[i];
      }
    }
  }
}
