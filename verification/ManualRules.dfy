/** What the operations on manuals do to the rows of the two tables, said without the functions that do it
    (admin_console/backend/routers/manuals.py). */
module ManualRules {
  import opened Text
  import opened Selections
  import opened ManualStore
  import opened ManualTables

  // ---- one row at a time ----

  /** The files are the same but for row `id`. */
  predicate OtherFilesStay(s: Store, s': Store, id: nat) {
    && (forall f :: f in s.files && f != id ==> f in s'.files && s'.files[f] == s.files[f])
    && (forall f :: f in s'.files && f != id ==> f in s.files)
  }

  predicate OtherChunksStay(s: Store, s': Store, chunk: nat) {
    && (forall c :: c in s.chunks && c != chunk ==> c in s'.chunks && s'.chunks[c] == s.chunks[c])
    && (forall c :: c in s'.chunks && c != chunk ==> c in s.chunks)
  }

  predicate SequencesStay(s: Store, s': Store) {
    s'.nextFile == s.nextFile && s'.nextChunk == s.nextChunk
  }

  /** One more than the highest version of the title so far. */
  predicate IsNextVersion(s: Store, title: string, version: nat) {
    && version >= 1 && (forall f :: f in s.files && s.files[f].title == title ==> s.files[f].version < version)
    && (version == 1 || exists f :: f in s.files && s.files[f].title == title && s.files[f].version + 1 == version)
  }

  /** A draft with its chunks, without vectors, behind everything there is. */
  predicate Uploaded(s: Store, s': Store, title: string, version: nat, parts: seq<Part>) {
    && OtherFilesStay(s, s', s.nextFile) && s.nextFile in s'.files
    && s'.files[s.nextFile] == File(title, version, Draft)
    && s'.nextFile == s.nextFile + 1 && s'.nextChunk == s.nextChunk + |parts|
    && (forall c :: c in s.chunks ==> c in s'.chunks && s'.chunks[c] == s.chunks[c])
    && (forall c :: c in s'.chunks ==> c in s.chunks || s.nextChunk <= c < s.nextChunk + |parts|)
    && (forall i :: 0 <= i < |parts| ==>
          s.nextChunk + i in s'.chunks && s'.chunks[s.nextChunk + i] == Chunk(s.nextFile, parts[i], None))
  }

  lemma InsertIsUploaded(s: Store, title: string, version: nat, parts: seq<Part>)
    requires Consistent(s) && version > 0 && IsMaxVersion(s.files, title, version - 1)
    ensures IsNextVersion(s, title, version)
    ensures Uploaded(s, ManualStore.InsertDraft(s, title, version, parts), title, version, parts)
  {
    AddedChunks(s.chunks, s.nextChunk, s.nextFile, parts);
  }

  /** The text of the chunk, and no vector. */
  predicate Edited(s: Store, s': Store, chunk: nat, text: string) {
    && s'.files == s.files && SequencesStay(s, s') && OtherChunksStay(s, s', chunk)
    && chunk in s.chunks && chunk in s'.chunks
    && var part := s.chunks[chunk].part;
       s'.chunks[chunk] == Chunk(s.chunks[chunk].file, Part(part.docTitle, part.sectionTitle, text), None)
  }

  predicate Dropped(s: Store, s': Store, chunk: nat) {
    s'.files == s.files && SequencesStay(s, s') && OtherChunksStay(s, s', chunk) && chunk !in s'.chunks
  }

  predicate InDraft(s: Store, chunk: nat) {
    && chunk in s.chunks && s.chunks[chunk].file in s.files
    && s.files[s.chunks[chunk].file].status == Draft
  }

  lemma EditIsEdited(s: Store, chunk: nat, text: string)
    ensures Editable(s, chunk) <==> InDraft(s, chunk)
    ensures Editable(s, chunk) ==> Edited(s, SetText(s, chunk, text), chunk, text)
    ensures Dropped(s, RemoveChunk(s, chunk), chunk)
  {
  }

  /** Only the status of this row. */
  predicate Unpublished(s: Store, s': Store, id: nat) {
    && s'.chunks == s.chunks && SequencesStay(s, s') && OtherFilesStay(s, s', id) && id in s.files && id in s'.files
    && s'.files[id] == File(s.files[id].title, s.files[id].version, Draft)
  }

  /** The row and its chunks. */
  predicate Deleted(s: Store, s': Store, id: nat) {
    && SequencesStay(s, s') && OtherFilesStay(s, s', id) && id !in s'.files
    && (forall c :: c in s.chunks && s.chunks[c].file != id ==> c in s'.chunks && s'.chunks[c] == s.chunks[c])
    && (forall c :: c in s'.chunks ==> c in s.chunks && s.chunks[c].file != id)
  }

  /** The row is published, every other published row of its title is archived, and nothing else changes. */
  ghost predicate Committed(s: Store, s': Store, id: nat) {
    && s'.chunks == s.chunks && SequencesStay(s, s') && id in s.files
    && (forall f :: f in s'.files <==> f in s.files)
    && (forall f :: f in s.files ==>
          s'.files[f].title == s.files[f].title && s'.files[f].version == s.files[f].version)
    && (forall f :: f in s.files ==>
          s'.files[f].status ==
          if f == id then Published
          else if s.files[f].title == s.files[id].title && s.files[f].status == Published then Archived
          else s.files[f].status)
  }

  lemma StatusIs(s: Store, id: nat)
    requires id in s.files
    ensures Unpublished(s, SetStatus(s, id, Draft), id)
    ensures Deleted(s, RemoveFile(s, id), id)
    ensures Committed(s, PublishRow(s, id), id)
  {
  }

  // ---- vectors ----

  /** The titles there are, from the outside in, and the text below. */
  ghost predicate IsInput(title: string, part: Part, input: string) {
    exists heads ::
      && Selects([title, part.docTitle, part.sectionTitle], (t: string) => t != "", (t: string) => t, heads)
      && input == if heads == [] then part.text else Join(heads, " > ") + "\n" + part.text
  }

  lemma {:induction false} NonEmptySelects(ss: seq<string>)
    ensures Selects(ss, (t: string) => t != "", (t: string) => t, NonEmpty(ss))
  {
    var keep, same := (t: string) => t != "", (t: string) => t;
    if ss == [] {
      SelectsNothing(keep, same);
    } else {
      NonEmptySelects(ss[1..]);
      assert [] + NonEmpty(ss[1..]) == NonEmpty(ss[1..]);
      SelectsFirst(ss, keep, same, NonEmpty(ss[1..]), NonEmpty(ss));
    }
  }

  lemma {:induction false} NonEmptyFirst(ss: seq<string>)
    ensures NonEmpty(ss) != [] ==> NonEmpty(ss)[0] != ""
  {
    if ss != [] {
      NonEmptyFirst(ss[1..]);
    }
  }

  lemma JoinOfFirst(ss: seq<string>, sep: string)
    requires ss != [] && ss[0] != ""
    ensures Join(ss, sep) != ""
  {
  }

  lemma InputIs(title: string, part: Part)
    ensures IsInput(title, part, EmbedInput(title, part))
  {
    var titles := [title, part.docTitle, part.sectionTitle];
    NonEmptySelects(titles);
    NonEmptyFirst(titles);
    if NonEmpty(titles) != [] {
      JoinOfFirst(NonEmpty(titles), " > ");
    }
  }

  /** The vector of row `i` was written. */
  predicate GotVector(rows: seq<nat>, server: Server, width: nat, n: nat, c: nat)
    requires width > 0 && n <= |rows|
  {
    exists i :: 0 <= i < n && rows[i] == c && !server.missing(i / width, i % width)
  }

  ghost predicate HasVector(s: Store, s': Store, server: Server, model: string, dim: int, c: nat)
    requires c in s.chunks && s.chunks[c].file in s.files && c in s'.chunks
  {
    exists input ::
      && IsInput(s.files[s.chunks[c].file].title, s.chunks[c].part, input)
      && |server.embed(model, input)| == dim
      && s'.chunks[c] ==
         Chunk(s.chunks[c].file, s.chunks[c].part, Some(Embedding(server.embed(model, input), model, dim)))
  }

  /** The first `n` rows got the vectors of their own texts, except where the server had none; texts are sent `width` at
      a time. Nothing else changed. */
  ghost predicate VectorsWritten(s: Store, rows: seq<nat>, server: Server, model: string, dim: int, width: nat, n: nat,
                                 s': Store)
    requires Present(s, rows) && width > 0 && n <= |rows|
  {
    && s'.files == s.files && SequencesStay(s, s') && s'.chunks.Keys == s.chunks.Keys
    && (forall i :: 0 <= i < n && i % width == 0 ==> !server.raises(i / width))
    && forall c :: c in s.chunks ==> ChunkRight(s, rows, server, model, dim, width, n, s', c)
  }

  ghost predicate ChunkRight(s: Store, rows: seq<nat>, server: Server, model: string, dim: int, width: nat, n: nat,
                             s': Store, c: nat)
    requires c in s.chunks && width > 0 && n <= |rows|
  {
    && c in s'.chunks
    && if GotVector(rows, server, width, n, c)
       then s.chunks[c].file in s.files && HasVector(s, s', server, model, dim, c)
       else s'.chunks[c] == s.chunks[c]
  }

  lemma EmbedsIsWritten(s: Store, rows: seq<nat>, server: Server, model: string, dim: int, width: nat, n: nat)
    requires Present(s, rows) && Distinct(rows) && width > 0 && n <= |rows|
    requires forall i :: 0 <= i < n ==> !StopsAt(s, rows, server, model, dim, width, i)
    ensures VectorsWritten(s, rows, server, model, dim, width, n, Embeds(s, rows, server, model, dim, width, n))
  {
    var s' := Embeds(s, rows, server, model, dim, width, n);
    EmbedsShape(s, rows, server, model, dim, width, n);
    forall c | c in s.chunks
      ensures ChunkRight(s, rows, server, model, dim, width, n, s', c)
    {
      ChunkWritten(s, rows, server, model, dim, width, n, c);
    }
    forall i | 0 <= i < n && i % width == 0
      ensures !server.raises(i / width)
    {
      assert !StopsAt(s, rows, server, model, dim, width, i);
    }
  }

  lemma ChunkWritten(s: Store, rows: seq<nat>, server: Server, model: string, dim: int, width: nat, n: nat, c: nat)
    requires Present(s, rows) && Distinct(rows) && width > 0 && n <= |rows| && c in s.chunks
    requires forall i :: 0 <= i < n ==> !StopsAt(s, rows, server, model, dim, width, i)
    ensures ChunkRight(s, rows, server, model, dim, width, n, Embeds(s, rows, server, model, dim, width, n), c)
  {
    if i :| 0 <= i < n && rows[i] == c {
      EmbedsRow(s, rows, server, model, dim, width, n, i);
      assert !StopsAt(s, rows, server, model, dim, width, i);
      InputIs(s.files[s.chunks[c].file].title, s.chunks[c].part);
      assert Distinct(rows) && forall j :: 0 <= j < n && rows[j] == c ==> j == i;
    } else {
      EmbedsOthers(s, rows, server, model, dim, width, n, c);
    }
  }

  // ---- counting ----

  /** The rows among the first `n` for which the server had no vector. */
  function WithoutVector(server: Server, width: nat, n: nat): set<nat>
    requires width > 0
  {
    set i: nat | i < n && server.missing(i / width, i % width)
  }

  lemma {:induction false} MissingIs(server: Server, width: nat, n: nat)
    requires width > 0
    ensures Missing(server, width, n) == |WithoutVector(server, width, n)|
  {
    if n == 0 {
      assert WithoutVector(server, width, n) == {};
    } else {
      MissingIs(server, width, n - 1);
      var last: set<nat> := if server.missing((n - 1) / width, (n - 1) % width) then {n - 1} else {};
      assert WithoutVector(server, width, n) == WithoutVector(server, width, n - 1) + last;
    }
  }

  /** The vector of row `n` has the wrong length. */
  ghost predicate WrongLength(s: Store, rows: seq<nat>, server: Server, model: string, dim: int, width: nat, n: nat)
    requires Present(s, rows) && width > 0 && n < |rows|
  {
    && !server.missing(n / width, n % width)
    && exists input ::
         && IsInput(s.files[s.chunks[rows[n]].file].title, s.chunks[rows[n]].part, input)
         && |server.embed(model, input)| != dim
  }

  /** Row `n` is where the work breaks off: its request fails with 503, or its vector with 500. */
  ghost predicate BreaksOff(s: Store, rows: seq<nat>, server: Server, model: string, dim: int, width: nat, n: nat,
                            code: nat)
    requires Present(s, rows) && width > 0 && n < |rows|
  {
    if n % width == 0 && server.raises(n / width) then code == 503
    else WrongLength(s, rows, server, model, dim, width, n) && code == 500
  }

  lemma StopIsBreak(s: Store, rows: seq<nat>, server: Server, model: string, dim: int, width: nat, n: nat)
    requires Present(s, rows) && width > 0 && n < |rows| && StopsAt(s, rows, server, model, dim, width, n)
    ensures BreaksOff(s, rows, server, model, dim, width, n,
                      if n % width == 0 && server.raises(n / width) then 503 else 500)
  {
    InputIs(s.files[s.chunks[rows[n]].file].title, s.chunks[rows[n]].part);
  }

  /** The document has these chunks without a vector, each once. */
  ghost predicate LacksVectors(s: Store, id: nat, rows: seq<nat>) {
    && (forall i, j :: 0 <= i < j < |rows| ==> rows[i] != rows[j])
    && forall c: nat :: c in rows <==> c in s.chunks && s.chunks[c].file == id && s.chunks[c].embedding == None
  }

  /** The vectors of a publication, 200 a request, and then the change of status; or broken off before it. */
  ghost predicate PublishedOf(s: Store, id: nat, rows: seq<nat>, server: Server, model: string, dim: int, n: nat,
                              mid: Store, s': Store, answer: Answer) {
    && LacksVectors(s, id, rows) && Present(s, rows) && n <= |rows|
    && VectorsWritten(s, rows, server, model, dim, 200, n, mid)
    && var failed := |WithoutVector(server, 200, n)|;
       if n == |rows| then Committed(mid, s', id) && failed <= n && answer == PublishDone(n - failed, failed)
       else s' == mid && answer.Refused? && BreaksOff(s, rows, server, model, dim, 200, n, answer.code)
  }

  lemma PublishIs(s: Store, id: nat, rows: seq<nat>, server: Server, model: string, dim: int, n: nat, s': Store,
                  answer: Answer)
    requires id in s.files && SelectsUnembedded(s, id, rows)
    requires Publishes(s, id, rows, server, model, dim, n, s', answer)
    ensures PublishedOf(s, id, rows, server, model, dim, n, Embeds(s, rows, server, model, dim, 200, n), s', answer)
  {
    EmbedsIsWritten(s, rows, server, model, dim, 200, n);
    MissingIs(server, 200, n);
    if n == |rows| {
      StatusIs(Embeds(s, rows, server, model, dim, 200, n), id);
    } else {
      StopIsBreak(s, rows, server, model, dim, 200, n);
    }
  }

  /** No vector, or one of another model or length. */
  predicate OutOfDate(s: Store, model: string, dim: int, c: nat) {
    && c in s.chunks
    && (s.chunks[c].embedding == None
        || s.chunks[c].embedding.value.model != model || s.chunks[c].embedding.value.dim != dim)
  }

  /** The first ones by their ids, as many as the limit, which is between 1 and 1000. */
  ghost predicate FirstOutOfDate(s: Store, model: string, dim: int, limit: int, rows: seq<nat>) {
    && |rows| <= (if limit < 1 then 1 else if limit > 1000 then 1000 else limit)
    && (forall i, j :: 0 <= i < j < |rows| ==> rows[i] < rows[j])
    && (forall c: nat :: c in rows ==> OutOfDate(s, model, dim, c))
    && (forall c: nat :: OutOfDate(s, model, dim, c) && c !in rows ==>
          && |rows| == (if limit < 1 then 1 else if limit > 1000 then 1000 else limit)
          && forall i :: 0 <= i < |rows| ==> rows[i] < c)
  }

  ghost predicate ReembeddedOf(s: Store, rows: seq<nat>, server: Server, model: string, dim: int, n: nat, s': Store,
                               answer: Answer) {
    && Present(s, rows) && n <= |rows| && VectorsWritten(s, rows, server, model, dim, 1000, n, s')
    && var failed := |WithoutVector(server, 1000, n)|;
       if n == |rows| then
         && failed <= n
         && answer == ReembedDone(n - failed, |set c | c in s'.chunks && OutOfDate(s', model, dim, c)|, failed)
       else answer.Refused? && BreaksOff(s, rows, server, model, dim, 1000, n, answer.code)
  }

  lemma ReembedIs(s: Store, limit: int, rows: seq<nat>, server: Server, model: string, dim: int, n: nat, s': Store,
                  answer: Answer)
    requires SelectsStale(s, model, dim, RowLimit(limit), rows) && Reembeds(s, rows, server, model, dim, n, s', answer)
    ensures FirstOutOfDate(s, model, dim, limit, rows)
    ensures ReembeddedOf(s, rows, server, model, dim, n, s', answer)
  {
    StaleIff(s, model, dim);
    StaleIff(s', model, dim);
    EmbedsIsWritten(s, rows, server, model, dim, 1000, n);
    MissingIs(server, 1000, n);
    if n < |rows| {
      StopIsBreak(s, rows, server, model, dim, 1000, n);
    }
  }

  lemma StaleIff(s: Store, model: string, dim: int)
    ensures forall c: nat :: OutOfDate(s, model, dim, c) <==> Stale(s, model, dim, c)
    ensures (set c | c in s.chunks && OutOfDate(s, model, dim, c)) == StaleSet(s, model, dim)
  {
  }
}
