/** The handlers of admin_console/backend/routers/manuals.py as methods over the two tables, each proved to take the
    store where `ManualStore.Performs` says, with the status the client sees. */
module ManualTables {
  import opened Text
  import opened ManualStore

  const WINDOW := 200

  /** The most chunks one call of `Reembed` takes; they go to the server in a single request. */
  const MOST_ROWS := 1000

  function RowLimit(limit: int): nat {
    if limit < 1 then 1 else if limit > MOST_ROWS then MOST_ROWS else limit
  }

  datatype Answer =
    | Inserted(id: nat, version: nat)
    | Done
    | PublishDone(embedded: nat, failed: nat)
    | ReembedDone(embedded: nat, remaining: nat, failed: nat)
    | Refused(code: nat)

  /** The embedding server: which requests raise, which texts get no vector, and the vector of a text otherwise. */
  datatype Server = Server(raises: nat -> bool, missing: (nat, nat) -> bool, embed: (string, string) -> Vector)

  // ---- what a list of rows and their vectors does to the store ----

  predicate Present(s: Store, rows: seq<nat>) {
    forall i :: 0 <= i < |rows| ==> rows[i] in s.chunks && s.chunks[rows[i]].file in s.files
  }

  predicate Distinct(rows: seq<nat>) {
    forall i, j :: 0 <= i < j < |rows| ==> rows[i] != rows[j]
  }

  /** Texts are sent `width` at a time; the answer to row `i` is entry `i % width` of request `i / width`. */
  function VectorOf(s: Store, rows: seq<nat>, server: Server, model: string, width: nat, i: nat): Option<Vector>
    requires Present(s, rows) && i < |rows| && width > 0
  {
    if server.missing(i / width, i % width) then None else Some(server.embed(model, InputOf(s, rows[i])))
  }

  /** Row `i` ends the work: its request raises, or its vector has the wrong length. */
  predicate StopsAt(s: Store, rows: seq<nat>, server: Server, model: string, dim: int, width: nat, i: nat)
    requires Present(s, rows) && i < |rows| && width > 0
  {
    var v := VectorOf(s, rows, server, model, width, i);
    (i % width == 0 && server.raises(i / width)) || (v.Some? && |v.value| != dim)
  }

  /** The store after the first `n` rows. */
  function Embeds(s: Store, rows: seq<nat>, server: Server, model: string, dim: int, width: nat, n: nat): (s': Store)
    requires Present(s, rows) && n <= |rows| && width > 0
    ensures s'.files == s.files
  {
    if n == 0 then s
    else
      var before := Embeds(s, rows, server, model, dim, width, n - 1);
      match VectorOf(s, rows, server, model, width, n - 1)
      case None => before
      case Some(v) => SetEmbedding(before, rows[n - 1], Embedding(v, model, dim))
  }

  /** How many of the first `n` rows got no vector. */
  function Missing(server: Server, width: nat, n: nat): (k: nat)
    requires width > 0
    ensures k <= n
  {
    if n == 0 then 0
    else Missing(server, width, n - 1) + if server.missing((n - 1) / width, (n - 1) % width) then 1 else 0
  }

  /** The work ended after `n` rows: at the first row that stops it, or after all of them. */
  ghost predicate EndsAt(s: Store, rows: seq<nat>, server: Server, model: string, dim: int, width: nat, n: nat)
    requires Present(s, rows) && width > 0
  {
    && n <= |rows|
    && (forall i :: 0 <= i < n ==> !StopsAt(s, rows, server, model, dim, width, i))
    && (n < |rows| ==> StopsAt(s, rows, server, model, dim, width, n))
  }

  lemma {:induction false} EmbedsShape(s: Store, rows: seq<nat>, server: Server, model: string, dim: int, width: nat,
                                       n: nat)
    requires Present(s, rows) && n <= |rows| && width > 0
    ensures var s' := Embeds(s, rows, server, model, dim, width, n);
            s'.chunks.Keys == s.chunks.Keys && s' == s.(chunks := s'.chunks)
  {
    if n > 0 {
      EmbedsShape(s, rows, server, model, dim, width, n - 1);
    }
  }

  lemma {:induction false} EmbedsOthers(s: Store, rows: seq<nat>, server: Server, model: string, dim: int, width: nat,
                                        n: nat, c: nat)
    requires Present(s, rows) && n <= |rows| && width > 0 && c in s.chunks
    requires forall i :: 0 <= i < n ==> rows[i] != c
    ensures var s' := Embeds(s, rows, server, model, dim, width, n);
            c in s'.chunks && s'.chunks[c] == s.chunks[c]
  {
    if n > 0 {
      EmbedsOthers(s, rows, server, model, dim, width, n - 1, c);
    }
  }

  /** A row that was reached has the vector of its text, if there was one. */
  lemma {:induction false} EmbedsRow(s: Store, rows: seq<nat>, server: Server, model: string, dim: int, width: nat,
                                     n: nat, i: nat)
    requires Present(s, rows) && Distinct(rows) && i < n <= |rows| && width > 0
    ensures var s', v := Embeds(s, rows, server, model, dim, width, n), VectorOf(s, rows, server, model, width, i);
            && rows[i] in s'.chunks
            && s'.chunks[rows[i]] == s.chunks[rows[i]].(embedding :=
                 if v.Some? then Some(Embedding(v.value, model, dim)) else s.chunks[rows[i]].embedding)
  {
    if i == n - 1 {
      EmbedsOthers(s, rows, server, model, dim, width, n - 1, rows[i]);
    } else {
      EmbedsRow(s, rows, server, model, dim, width, n - 1, i);
      assert rows[i] != rows[n - 1];
    }
  }

  /** Work that did not stop before row `n` stores right vectors and changes nothing else. */
  lemma {:induction false} EmbedsIsEmbedded(s: Store, rows: seq<nat>, server: Server, model: string, dim: int,
                                           width: nat, n: nat)
    requires Present(s, rows) && Distinct(rows) && n <= |rows| && width > 0
    requires forall i :: 0 <= i < n ==> !StopsAt(s, rows, server, model, dim, width, i)
    ensures Embedded(s, Embeds(s, rows, server, model, dim, width, n), model, dim, server.embed)
  {
    var s' := Embeds(s, rows, server, model, dim, width, n);
    EmbedsShape(s, rows, server, model, dim, width, n);
    forall c | c in s.chunks
      ensures s'.chunks[c].file == s.chunks[c].file && s'.chunks[c].part == s.chunks[c].part
      ensures s'.chunks[c].embedding == s.chunks[c].embedding || NewlyEmbedded(s', c, model, dim, server.embed)
    {
      if c in rows[..n] {
        var i :| 0 <= i < n && rows[i] == c;
        EmbedsRow(s, rows, server, model, dim, width, n, i);
        assert !StopsAt(s, rows, server, model, dim, width, i);
      } else {
        EmbedsOthers(s, rows, server, model, dim, width, n, c);
      }
    }
  }

  lemma WindowRow(start: nat, j: nat, width: nat)
    requires width > 0 && start % width == 0 && j < width
    ensures (start + j) / width == start / width && (start + j) % width == j
  {
    var q := start / width;
    assert start + j == q * width + j;
    DivUnique(start + j, width, q, j);
  }

  lemma DivUnique(x: nat, width: nat, q: nat, r: nat)
    requires width > 0 && x == q * width + r && r < width
    ensures x / width == q && x % width == r
  {
    var d: int := x / width - q;
    assert d * width == r - x % width;
    assert d > 0 ==> d * width >= width;
    assert d < 0 ==> d * width + width <= 0;
  }

  /** What the server answers to one request. */
  function Answers(s: Store, window: seq<nat>, server: Server, model: string, call: nat): (vs: seq<Option<Vector>>)
    requires Present(s, window)
    ensures |vs| == |window|
  {
    seq(|window|, j requires 0 <= j < |window| =>
      if server.missing(call, j) then None else Some(server.embed(model, InputOf(s, window[j]))))
  }

  /** The window that starts at `start` and the answers to it. */
  ghost predicate IsWindow(s: Store, rows: seq<nat>, server: Server, model: string, width: nat, start: nat,
                           window: seq<nat>, vectors: seq<Option<Vector>>)
    requires Present(s, rows) && width > 0
  {
    && |window| == |vectors| <= width && start + |window| <= |rows|
    && forall j: nat :: j < |window| ==>
         && window[j] == rows[start + j]
         && vectors[j] == VectorOf(s, rows, server, model, width, start + j)
  }

  lemma WindowAnswers(s: Store, rows: seq<nat>, server: Server, model: string, width: nat, start: nat, end: nat)
    requires Present(s, rows) && width > 0 && start % width == 0 && start <= end <= |rows| && end - start <= width
    ensures Present(s, rows[start..end])
    ensures IsWindow(s, rows, server, model, width, start, rows[start..end],
                     Answers(s, rows[start..end], server, model, start / width))
  {
    forall j: nat | j < end - start
      ensures Answers(s, rows[start..end], server, model, start / width)[j]
           == VectorOf(s, rows, server, model, width, start + j)
    {
      WindowRow(start, j, width);
    }
  }

  /** One request for all rows. */
  lemma AllAnswers(s: Store, rows: seq<nat>, server: Server, model: string)
    requires Present(s, rows) && |rows| <= MOST_ROWS
    ensures IsWindow(s, rows, server, model, MOST_ROWS, 0, rows, Answers(s, rows, server, model, 0))
  {
    WindowAnswers(s, rows, server, model, MOST_ROWS, 0, |rows|);
    assert rows[0..|rows|] == rows;
  }

  /** The chunks of a document that have no vector yet. */
  predicate Unembedded(s: Store, id: nat, c: nat) {
    c in s.chunks && s.chunks[c].file == id && s.chunks[c].embedding.None?
  }

  function StaleSet(s: Store, model: string, dim: int): set<nat> {
    set c | c in s.chunks && Stale(s, model, dim, c)
  }

  /** The rows without a vector, each once; without ORDER BY they come in any order. */
  ghost predicate SelectsUnembedded(s: Store, id: nat, rows: seq<nat>) {
    Distinct(rows) && forall c: nat :: c in rows <==> Unembedded(s, id, c)
  }

  /** The `limit` stale rows with the smallest ids, in order. */
  ghost predicate SelectsStale(s: Store, model: string, dim: int, limit: nat, rows: seq<nat>) {
    && |rows| <= limit && Increasing(rows)
    && (forall c: nat :: c in rows ==> Stale(s, model, dim, c))
    && (forall c: nat :: Stale(s, model, dim, c) && c !in rows ==> |rows| == limit && AllBelow(rows, c))
  }

  predicate AllBelow(rows: seq<nat>, c: nat) {
    forall i :: 0 <= i < |rows| ==> rows[i] < c
  }

  lemma SelectedRows(s: Store, rows: seq<nat>)
    requires Consistent(s) && forall c: nat :: c in rows ==> c in s.chunks
    ensures Present(s, rows)
  {
    forall i | 0 <= i < |rows|
      ensures rows[i] in s.chunks && s.chunks[rows[i]].file in s.files
    {
      assert rows[i] in rows;
    }
  }

  /** Storing a vector under the current model and dimension takes one chunk off the stale ones. */
  lemma {:induction false} EveryVectorCounts(s: Store, rows: seq<nat>, server: Server, model: string, dim: int,
                                             width: nat, n: nat)
    requires Present(s, rows) && Distinct(rows) && n <= |rows| && width > 0
    requires forall i :: 0 <= i < n ==> Stale(s, model, dim, rows[i])
    ensures |StaleSet(Embeds(s, rows, server, model, dim, width, n), model, dim)| + n - Missing(server, width, n)
         == |StaleSet(s, model, dim)|
  {
    if n > 0 {
      EveryVectorCounts(s, rows, server, model, dim, width, n - 1);
      EmbedsOthers(s, rows, server, model, dim, width, n - 1, rows[n - 1]);
      var before := Embeds(s, rows, server, model, dim, width, n - 1);
      var after := Embeds(s, rows, server, model, dim, width, n);
      if after != before {
        assert StaleSet(after, model, dim) == StaleSet(before, model, dim) - {rows[n - 1]};
      }
    }
  }

  /** The server gave no vector for the row of this chunk. */
  ghost predicate FailedRow(server: Server, rows: seq<nat>, c: nat) {
    exists i :: 0 <= i < |rows| && rows[i] == c && server.missing(i / WINDOW, i % WINDOW)
  }

  /** Broken off at row `n`: 503 when its request raised, 500 when its vector has the wrong length. */
  ghost predicate RefusedAt(s: Store, rows: seq<nat>, server: Server, model: string, dim: int, n: nat,
                            refusal: Option<nat>)
    requires Present(s, rows)
  {
    && n < |rows| && StopsAt(s, rows, server, model, dim, WINDOW, n)
    && refusal == Some(if n % WINDOW == 0 && server.raises(n / WINDOW) then 503 else 500)
  }

  /** What publishing makes of the rows without a vector: all done and the status changed, or broken off. */
  ghost predicate Publishes(s: Store, id: nat, rows: seq<nat>, server: Server, model: string, dim: int, n: nat,
                            s': Store, answer: Answer)
    requires id in s.files
  {
    && Present(s, rows) && EndsAt(s, rows, server, model, dim, WINDOW, n)
    && var embedded := Embeds(s, rows, server, model, dim, WINDOW, n);
    if n == |rows| then
      && s' == PublishRow(embedded, id)
      && answer == PublishDone(n - Missing(server, WINDOW, n), Missing(server, WINDOW, n))
    else
      && s' == embedded
      && answer == Refused(if n % WINDOW == 0 && server.raises(n / WINDOW) then 503 else 500)
  }

  ghost predicate Reembeds(s: Store, rows: seq<nat>, server: Server, model: string, dim: int, n: nat, s': Store,
                           answer: Answer)
  {
    && Present(s, rows) && EndsAt(s, rows, server, model, dim, MOST_ROWS, n)
    && s' == Embeds(s, rows, server, model, dim, MOST_ROWS, n)
    && answer == if n < |rows| then Refused(if n % MOST_ROWS == 0 && server.raises(n / MOST_ROWS) then 503 else 500)
                 else ReembedDone(n - Missing(server, MOST_ROWS, n), |StaleSet(s', model, dim)|,
                                  Missing(server, MOST_ROWS, n))
  }

  /** `now` is the store after the first `n` rows, and the counters belong to them. */
  ghost predicate ReachedWith(s: Store, rows: seq<nat>, server: Server, model: string, dim: int, width: nat, n: nat,
                              embedded: nat, failed: nat, now: Store)
  {
    && width > 0 && Present(s, rows) && n <= |rows|
    && now == Embeds(s, rows, server, model, dim, width, n)
    && (forall i :: 0 <= i < n ==> !StopsAt(s, rows, server, model, dim, width, i))
    && failed == Missing(server, width, n) && embedded == n - failed
  }

  lemma NoRowYet(s: Store, rows: seq<nat>, server: Server, model: string, dim: int, width: nat)
    requires Present(s, rows) && width > 0
    ensures ReachedWith(s, rows, server, model, dim, width, 0, 0, 0, s)
  {
  }

  lemma NextWindow(start: nat)
    requires start % WINDOW == 0
    ensures (start + WINDOW) % WINDOW == 0
  {
  }

  lemma RowMissing(s: Store, rows: seq<nat>, server: Server, model: string, dim: int, width: nat, n: nat,
                   embedded: nat, failed: nat, now: Store)
    requires ReachedWith(s, rows, server, model, dim, width, n, embedded, failed, now) && n < |rows|
    requires !StopsAt(s, rows, server, model, dim, width, n) && VectorOf(s, rows, server, model, width, n) == None
    ensures ReachedWith(s, rows, server, model, dim, width, n + 1, embedded, failed + 1, now)
  {
  }

  lemma RowStored(s: Store, rows: seq<nat>, server: Server, model: string, dim: int, width: nat, n: nat,
                  embedded: nat, failed: nat, now: Store, v: Vector)
    requires ReachedWith(s, rows, server, model, dim, width, n, embedded, failed, now) && n < |rows|
    requires !StopsAt(s, rows, server, model, dim, width, n) && VectorOf(s, rows, server, model, width, n) == Some(v)
    ensures rows[n] in now.chunks
    ensures ReachedWith(s, rows, server, model, dim, width, n + 1, embedded + 1, failed,
                        SetEmbedding(now, rows[n], Embedding(v, model, dim)))
  {
    EmbedsShape(s, rows, server, model, dim, width, n);
  }

  class Manuals {
    var files: map<nat, File>
    var chunks: map<nat, Chunk>
    var nextFile: nat
    var nextChunk: nat

    function Abs(): Store
      reads this
    {
      Store(files, chunks, nextFile, nextChunk)
    }

    constructor ()
      ensures Abs() == EMPTY
    {
      files, chunks, nextFile, nextChunk := map[], map[], 1, 1;
    }

    method MaxVersion(title: string) returns (v: nat)
      ensures IsMaxVersion(files, title, v)
    {
      v := 0;
      var rest := files.Keys;
      while rest != {}
        invariant rest <= files.Keys
        invariant forall f :: f in files && f !in rest && files[f].title == title ==> files[f].version <= v
        invariant v == 0 || v in Versions(files, title)
        decreases |rest|
      {
        var f :| f in rest;
        rest := rest - {f};
        if files[f].title == title && files[f].version > v {
          v := files[f].version;
        }
      }
    }

    method InsertDraft(title: string, parts: seq<Part>) returns (answer: Answer)
      modifies this
      ensures answer.Inserted? && answer.id == old(nextFile)
      ensures answer.version > 0 && IsMaxVersion(old(files), title, answer.version - 1)
      ensures Abs() == ManualStore.InsertDraft(old(Abs()), title, answer.version, parts)
    {
      var v := MaxVersion(title);
      answer := Inserted(nextFile, v + 1);
      files := files[nextFile := File(title, v + 1, Draft)];
      nextFile := nextFile + 1;
      for i := 0 to |parts|
        invariant files == old(files)[old(nextFile) := File(title, v + 1, Draft)]
        invariant nextFile == old(nextFile) + 1 && nextChunk == old(nextChunk) + i
        invariant chunks == AddChunks(old(chunks), old(nextChunk), old(nextFile), parts[..i])
      {
        chunks := chunks[nextChunk := Chunk(answer.id, parts[i], None)];
        nextChunk := nextChunk + 1;
        assert parts[..i + 1][..i] == parts[..i];
      }
      assert parts[..|parts|] == parts;
    }

    /** None, or the status of the refusal. */
    method AssertChunkEditable(chunk: nat) returns (code: Option<nat>)
      requires Consistent(Abs())
      ensures code.None? <==> Editable(Abs(), chunk)
      ensures code.Some? ==> code.value == if chunk in chunks then 409 else 404
    {
      if chunk !in chunks { return Some(404); }
      if files[chunks[chunk].file].status != Draft { return Some(409); }
      return None;
    }

    method UpdateChunk(chunk: nat, text: string) returns (answer: Answer)
      requires Consistent(Abs())
      modifies this
      ensures Abs() == if Editable(old(Abs()), chunk) then SetText(old(Abs()), chunk, text) else old(Abs())
      ensures answer == if Editable(old(Abs()), chunk) then Done else Refused(if chunk in old(chunks) then 409 else 404)
    {
      var code := AssertChunkEditable(chunk);
      if code.Some? { return Refused(code.value); }
      var c := chunks[chunk];
      chunks := chunks[chunk := c.(part := c.part.(text := text), embedding := None)];
      return Done;
    }

    method DeleteChunk(chunk: nat) returns (answer: Answer)
      requires Consistent(Abs())
      modifies this
      ensures Abs() == if Editable(old(Abs()), chunk) then RemoveChunk(old(Abs()), chunk) else old(Abs())
      ensures answer == if Editable(old(Abs()), chunk) then Done else Refused(if chunk in old(chunks) then 409 else 404)
    {
      var code := AssertChunkEditable(chunk);
      if code.Some? { return Refused(code.value); }
      chunks := chunks - {chunk};
      return Done;
    }

    method UnpublishManual(id: nat) returns (answer: Answer)
      modifies this
      ensures id in old(files) && old(files)[id].status == Published ==>
                answer == Done && Abs() == SetStatus(old(Abs()), id, Draft)
      ensures !(id in old(files) && old(files)[id].status == Published) ==>
                answer == Refused(if id in old(files) then 400 else 404) && Abs() == old(Abs())
    {
      if id !in files { return Refused(404); }
      if files[id].status != Published { return Refused(400); }
      files := files[id := files[id].(status := Draft)];
      return Done;
    }

    method DeleteManual(id: nat) returns (answer: Answer)
      modifies this
      ensures id in old(files) && old(files)[id].status != Published ==>
                answer == Done && Abs() == RemoveFile(old(Abs()), id)
      ensures !(id in old(files) && old(files)[id].status != Published) ==>
                answer == Refused(if id in old(files) then 400 else 404) && Abs() == old(Abs())
    {
      if id !in files { return Refused(404); }
      if files[id].status == Published { return Refused(400); }
      chunks := map c | c in chunks && chunks[c].file != id :: chunks[c];
      files := files - {id};
      return Done;
    }

    method SelectUnembedded(id: nat) returns (rows: seq<nat>)
      ensures SelectsUnembedded(Abs(), id, rows)
    {
      rows := [];
      var rest := chunks.Keys;
      while rest != {}
        invariant rest <= chunks.Keys && Distinct(rows)
        invariant forall c :: c in rows <==> Unembedded(Abs(), id, c) && c !in rest
        decreases |rest|
      {
        var c :| c in rest;
        rest := rest - {c};
        if chunks[c].file == id && chunks[c].embedding.None? {
          rows := rows + [c];
        }
      }
    }

    method SelectStale(model: string, dim: int, limit: nat) returns (rows: seq<nat>)
      requires Consistent(Abs())
      ensures SelectsStale(Abs(), model, dim, limit, rows)
    {
      rows := [];
      for c := 0 to nextChunk
        invariant |rows| <= limit && Increasing(rows) && AllBelow(rows, c)
        invariant forall r: nat :: r in rows ==> Stale(Abs(), model, dim, r)
        invariant forall r: nat :: r < c && Stale(Abs(), model, dim, r) && r !in rows ==>
                    |rows| == limit && AllBelow(rows, r)
      {
        if Stale(Abs(), model, dim, c) && |rows| < limit {
          rows := rows + [c];
        }
      }
    }

    /** The first `n` rows are done. */
    ghost predicate Reached(s: Store, rows: seq<nat>, server: Server, model: string, dim: int, width: nat, n: nat,
                            embedded: nat, failed: nat)
      reads this
    {
      ReachedWith(s, rows, server, model, dim, width, n, embedded, failed, Abs())
    }

    /** One window: the vectors of its rows are written one by one, until one has the wrong length. */
    method StoreVectors(ghost s: Store, ghost rows: seq<nat>, ghost server: Server, ghost width: nat, start: nat,
                        window: seq<nat>, vectors: seq<Option<Vector>>, model: string, dim: int,
                        embedded0: nat, failed0: nat)
      returns (n: nat, embedded: nat, failed: nat)
      requires Reached(s, rows, server, model, dim, width, start, embedded0, failed0)
      requires start % width == 0 && !server.raises(start / width)
      requires IsWindow(s, rows, server, model, width, start, window, vectors)
      modifies this
      ensures start <= n <= start + |window|
      ensures Reached(s, rows, server, model, dim, width, n, embedded, failed)
      ensures n < start + |window| ==>
                && StopsAt(s, rows, server, model, dim, width, n)
                && (n % width != 0 || !server.raises(n / width))
    {
      embedded, failed := embedded0, failed0;
      var j := 0;
      while j < |window|
        invariant j <= |window|
        invariant Reached(s, rows, server, model, dim, width, start + j, embedded, failed)
      {
        n := start + j;
        WindowRow(start, j, width);
        if vectors[j].Some? && |vectors[j].value| != dim { return; }
        match vectors[j] {
          case None =>
            RowMissing(s, rows, server, model, dim, width, n, embedded, failed, Abs());
            failed := failed + 1;
          case Some(v) =>
            RowStored(s, rows, server, model, dim, width, n, embedded, failed, Abs(), v);
            chunks := chunks[window[j] := chunks[window[j]].(embedding := Some(Embedding(v, model, dim)))];
            embedded := embedded + 1;
        }
        j := j + 1;
      }
      n := start + |window|;
    }

    /** The transaction at the end of a publication: the other published versions first, then this one. */
    method ChangeStatus(id: nat)
      requires id in files
      modifies this
      ensures Abs() == PublishRow(old(Abs()), id)
    {
      var title := files[id].title;
      files := map f | f in files ::
        if files[f].title == title && files[f].status == Published && f != id then files[f].(status := Archived)
        else files[f];
      files := files[id := files[id].(status := Published)];
    }

    /** One request for the rows from `start` to `end`, and what it brought in. */
    method EmbedWindow(s: Store, rows: seq<nat>, start: nat, end: nat, model: string, dim: int, server: Server,
                       embedded0: nat, failed0: nat)
      returns (n: nat, embedded: nat, failed: nat, refusal: Option<nat>)
      requires start % WINDOW == 0 && start < end <= |rows| && end - start <= WINDOW
      requires Reached(s, rows, server, model, dim, WINDOW, start, embedded0, failed0)
      modifies this
      ensures n <= end && Reached(s, rows, server, model, dim, WINDOW, n, embedded, failed)
      ensures if n == end then refusal.None? else RefusedAt(s, rows, server, model, dim, n, refusal)
    {
      if server.raises(start / WINDOW) {
        return start, embedded0, failed0, Some(503);
      }
      WindowAnswers(s, rows, server, model, WINDOW, start, end);
      var window := rows[start..end];
      var vectors := Answers(s, window, server, model, start / WINDOW);
      n, embedded, failed := StoreVectors(s, rows, server, WINDOW, start, window, vectors, model, dim,
                                          embedded0, failed0);
      refusal := if n < end then Some(500) else None;
    }

    /** The embedding phase: window after window, until one raises, a vector has the wrong length, or all are done. */
    method EmbedWindows(rows: seq<nat>, model: string, dim: int, server: Server)
      returns (n: nat, embedded: nat, failed: nat, refusal: Option<nat>)
      requires Present(Abs(), rows)
      modifies this
      ensures Reached(old(Abs()), rows, server, model, dim, WINDOW, n, embedded, failed)
      ensures if n == |rows| then refusal.None? else RefusedAt(old(Abs()), rows, server, model, dim, n, refusal)
    {
      var s := Abs();
      var start := 0;
      n, embedded, failed, refusal := 0, 0, 0, None;
      NoRowYet(s, rows, server, model, dim, WINDOW);
      while start < |rows|
        invariant start % WINDOW == 0 && n == if start < |rows| then start else |rows|
        invariant Reached(s, rows, server, model, dim, WINDOW, n, embedded, failed) && refusal.None?
        decreases |rows| - start
      {
        var end := if start + WINDOW < |rows| then start + WINDOW else |rows|;
        n, embedded, failed, refusal := EmbedWindow(s, rows, start, end, model, dim, server, embedded, failed);
        if refusal.Some? { return; }
        NextWindow(start);
        start := start + WINDOW;
      }
    }

    /** Vectors first, and only when all are written the change of status: a publication that is broken off leaves
        every status as it was, and keeps the vectors it has. */
    method PublishManual(id: nat, model: string, dim: int, server: Server)
      returns (answer: Answer, ghost rows: seq<nat>, ghost n: nat)
      requires Consistent(Abs())
      modifies this
      ensures id !in old(files) ==> answer == Refused(404) && Abs() == old(Abs())
      ensures id in old(files) && old(files)[id].status == Published ==>
                answer == PublishDone(0, 0) && Abs() == old(Abs())
      ensures id in old(files) && old(files)[id].status != Published ==>
                && SelectsUnembedded(old(Abs()), id, rows)
                && Publishes(old(Abs()), id, rows, server, model, dim, n, Abs(), answer)
    {
      rows, n := [], 0;
      if id !in files { return Refused(404), rows, n; }
      if files[id].status == Published { return PublishDone(0, 0), rows, n; }
      var unembedded := SelectUnembedded(id);
      rows := unembedded;
      SelectedRows(Abs(), rows);
      var done, embedded, failed, refusal := EmbedWindows(unembedded, model, dim, server);
      n := done;
      if refusal.Some? { return Refused(refusal.value), rows, n; }
      ChangeStatus(id);
      answer := PublishDone(embedded, failed);
    }

    /** Brings up to `limit` stale chunks to the current model; every vector written is one stale chunk less. */
    method Reembed(limit: int, model: string, dim: int, server: Server)
      returns (answer: Answer, ghost rows: seq<nat>, ghost n: nat)
      requires Consistent(Abs())
      modifies this
      ensures SelectsStale(old(Abs()), model, dim, RowLimit(limit), rows)
      ensures Reembeds(old(Abs()), rows, server, model, dim, n, Abs(), answer)
    {
      var stale := SelectStale(model, dim, RowLimit(limit));
      rows, n := stale, 0;
      var s := Abs();
      SelectedRows(s, rows);
      if stale != [] && server.raises(0) { return Refused(503), rows, n; }
      var embedded, failed, done := 0, 0, 0;
      if stale != [] {
        AllAnswers(s, stale, server, model);
        var vectors := Answers(s, stale, server, model, 0);
        done, embedded, failed := StoreVectors(s, stale, server, MOST_ROWS, 0, stale, vectors, model, dim, 0, 0);
      }
      n := done;
      if done < |stale| { return Refused(500), rows, n; }
      var remaining := |StaleSet(Abs(), model, dim)|;
      return ReembedDone(embedded, remaining, failed), rows, n;
    }
  }

  /** What the operator learns from `Reembed`: stored and remaining add up to what was stale before. */
  lemma ReembedCounts(s: Store, limit: int, rows: seq<nat>, server: Server, model: string, dim: int, n: nat, s': Store,
                      answer: Answer)
    requires SelectsStale(s, model, dim, RowLimit(limit), rows) && Reembeds(s, rows, server, model, dim, n, s', answer)
    ensures Performs(s, ManualStore.Reembed(model, dim, s'), s', server.embed)
    ensures answer.ReembedDone? ==> answer.embedded + answer.remaining == |StaleSet(s, model, dim)|
  {
    forall i | 0 <= i < |rows|
      ensures Stale(s, model, dim, rows[i])
    {
      assert rows[i] in rows;
    }
    EmbedsIsEmbedded(s, rows, server, model, dim, MOST_ROWS, n);
    EveryVectorCounts(s, rows, server, model, dim, MOST_ROWS, n);
  }

  /** A chunk without a vector afterwards was selected. */
  lemma UnembeddedBefore(s: Store, id: nat, rows: seq<nat>, server: Server, model: string, dim: int, n: nat, c: nat)
    requires Present(s, rows) && SelectsUnembedded(s, id, rows) && n <= |rows|
    requires Unembedded(Embeds(s, rows, server, model, dim, WINDOW, n), id, c)
    ensures c in rows && c in s.chunks
  {
    EmbedsShape(s, rows, server, model, dim, WINDOW, n);
    assert c !in rows ==> !Unembedded(s, id, c);
    if forall i :: 0 <= i < n ==> rows[i] != c {
      EmbedsOthers(s, rows, server, model, dim, WINDOW, n, c);
      assert Unembedded(s, id, c);
    }
  }

  /** A publication is a step of the life cycle, committed exactly when it reached its end. */
  lemma PublishPerforms(s: Store, id: nat, rows: seq<nat>, server: Server, model: string, dim: int, n: nat, s': Store,
                        answer: Answer)
    requires id in s.files && s.files[id].status != Published && SelectsUnembedded(s, id, rows)
    requires Publishes(s, id, rows, server, model, dim, n, s', answer)
    ensures Performs(s, Publish(id, model, dim, Embeds(s, rows, server, model, dim, WINDOW, n), n == |rows|), s',
                     server.embed)
    ensures answer.PublishDone? <==> n == |rows|
    ensures !answer.PublishDone? ==> s'.files == s.files
    ensures answer.PublishDone? ==>
              forall c: nat :: Unembedded(s', id, c) ==> c in s.chunks && FailedRow(server, rows, c)
  {
    EmbedsIsEmbedded(s, rows, server, model, dim, WINDOW, n);
    EmbedsShape(s, rows, server, model, dim, WINDOW, n);
    if answer.PublishDone? {
      forall c: nat | Unembedded(s', id, c)
        ensures c in s.chunks && FailedRow(server, rows, c)
      {
        UnembeddedBefore(s, id, rows, server, model, dim, n, c);
        var i :| 0 <= i < |rows| && rows[i] == c;
        EmbedsRow(s, rows, server, model, dim, WINDOW, n, i);
      }
    }
  }
}
