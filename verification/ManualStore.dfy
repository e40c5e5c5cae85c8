/** The life cycle of uploaded manuals: draft, published, archived (admin_console/backend/routers/manuals.py).
    Tables are maps from row ids; ids come from sequences and are never used again. */
module ManualStore {
  import opened Text

  type Vector = seq<real>

  datatype Status = Draft | Published | Archived

  datatype File = File(title: string, version: nat, status: Status)

  /** The vector of a chunk with the model and dimension recorded for it; NULL is None. */
  datatype Embedding = Embedding(vector: Vector, model: string, dim: int)

  /** Empty titles stand for NULL. */
  datatype Part = Part(docTitle: string, sectionTitle: string, text: string)

  datatype Chunk = Chunk(file: nat, part: Part, embedding: Option<Embedding>)

  datatype Store = Store(files: map<nat, File>, chunks: map<nat, Chunk>, nextFile: nat, nextChunk: nat)

  const EMPTY := Store(map[], map[], 1, 1)

  /** The titles in front of the text give the vector its context. */
  function EmbedInput(title: string, part: Part): string {
    var head := Join(NonEmpty([title, part.docTitle, part.sectionTitle]), " > ");
    if head != "" then head + "\n" + part.text else part.text
  }

  // ---- the statements ----

  function Versions(files: map<nat, File>, title: string): set<nat> {
    set f | f in files && files[f].title == title :: files[f].version
  }

  /** `v` is `COALESCE(MAX(version), 0)` over the files of a title. */
  ghost predicate IsMaxVersion(files: map<nat, File>, title: string, v: nat) {
    && (forall f :: f in files && files[f].title == title ==> files[f].version <= v)
    && (v == 0 || v in Versions(files, title))
  }

  function AddChunks(chunks: map<nat, Chunk>, next: nat, file: nat, parts: seq<Part>): map<nat, Chunk> {
    if parts == [] then chunks
    else
      var n := |parts| - 1;
      AddChunks(chunks, next, file, parts[..n])[next + n := Chunk(file, parts[n], None)]
  }

  function InsertDraft(s: Store, title: string, version: nat, parts: seq<Part>): Store {
    Store(s.files[s.nextFile := File(title, version, Draft)], AddChunks(s.chunks, s.nextChunk, s.nextFile, parts),
          s.nextFile + 1, s.nextChunk + |parts|)
  }

  /** A chunk may be edited only while its document is a draft. */
  predicate Editable(s: Store, chunk: nat) {
    chunk in s.chunks && s.chunks[chunk].file in s.files && s.files[s.chunks[chunk].file].status == Draft
  }

  function SetText(s: Store, chunk: nat, text: string): Store {
    if chunk in s.chunks then
      var c := s.chunks[chunk];
      s.(chunks := s.chunks[chunk := c.(part := c.part.(text := text), embedding := None)])
    else s
  }

  function RemoveChunk(s: Store, chunk: nat): Store {
    s.(chunks := s.chunks - {chunk})
  }

  function SetEmbedding(s: Store, chunk: nat, e: Embedding): Store {
    if chunk in s.chunks then s.(chunks := s.chunks[chunk := s.chunks[chunk].(embedding := Some(e))]) else s
  }

  /** What a chunk is embedded from. */
  function InputOf(s: Store, c: nat): string
    requires c in s.chunks && s.chunks[c].file in s.files
  {
    EmbedInput(s.files[s.chunks[c].file].title, s.chunks[c].part)
  }

  /** The vector of the chunk does not belong to this model and dimension. */
  predicate Stale(s: Store, model: string, dim: int, c: nat) {
    && c in s.chunks
    && match s.chunks[c].embedding
       case None => true
       case Some(e) => e.model != model || e.dim != dim
  }

  /** The other published versions of the title. */
  function OtherPublished(files: map<nat, File>, title: string, id: nat): set<nat> {
    set f | f in files && f != id && files[f].title == title && files[f].status == Published
  }

  /** The commit of a publication: the rows `others` are archived and the row `id`, if it still exists, is published. */
  function Commit(files: map<nat, File>, others: set<nat>, id: nat): map<nat, File> {
    map f | f in files ::
      if f == id then files[f].(status := Published)
      else if f in others then files[f].(status := Archived)
      else files[f]
  }

  function PublishRow(s: Store, id: nat): Store
    requires id in s.files
  {
    s.(files := Commit(s.files, OtherPublished(s.files, s.files[id].title, id), id))
  }

  function SetStatus(s: Store, id: nat, status: Status): Store {
    if id in s.files then s.(files := s.files[id := s.files[id].(status := status)]) else s
  }

  /** Deleting a file deletes its chunks. */
  function RemoveFile(s: Store, id: nat): Store {
    s.(files := s.files - {id}, chunks := map c | c in s.chunks && s.chunks[c].file != id :: s.chunks[c])
  }

  // ---- invariants ----

  predicate BothPublished(f: File, g: File) {
    f.status == Published && g.status == Published && f.title == g.title
  }

  ghost predicate AtMostOnePublished(files: map<nat, File>) {
    forall f, g :: f in files && g in files && BothPublished(files[f], files[g]) ==> f == g
  }

  ghost predicate VersionsDistinct(files: map<nat, File>) {
    forall f, g :: f in files && g in files && f != g && files[f].title == files[g].title ==>
      files[f].version != files[g].version
  }

  /** Rows refer to existing rows, and the sequences are ahead of all ids. */
  ghost predicate Consistent(s: Store) {
    && (forall f :: f in s.files ==> f < s.nextFile)
    && (forall c :: c in s.chunks ==> c < s.nextChunk && s.chunks[c].file in s.files)
  }

  ghost predicate CurrentChunk(s: Store, embed: (string, string) -> Vector, c: nat)
    requires c in s.chunks && s.chunks[c].file in s.files
  {
    var chunk := s.chunks[c];
    chunk.embedding.Some? ==>
      var e := chunk.embedding.value;
      e.vector == embed(e.model, InputOf(s, c)) && |e.vector| == e.dim
  }

  /** Every stored vector is that of the chunk's current text under its recorded model, of the recorded length. */
  ghost predicate EmbeddingsCurrent(s: Store, embed: (string, string) -> Vector)
    requires Consistent(s)
  {
    forall c :: c in s.chunks ==> CurrentChunk(s, embed, c)
  }

  ghost predicate Inv(s: Store, embed: (string, string) -> Vector) {
    Consistent(s) && AtMostOnePublished(s.files) && VersionsDistinct(s.files) && EmbeddingsCurrent(s, embed)
  }

  /** A text differs afterwards only if its document was a draft and still is; a chunk of any other document stays,
      unless an unpublished document was deleted with it; and chunks appear only with a new document. */
  ghost predicate TextsFrozen(s: Store, s': Store) {
    && (forall c :: c in s.chunks && c in s'.chunks && s.chunks[c].part != s'.chunks[c].part ==>
          Editable(s, c) && Editable(s', c))
    && (forall c :: c in s.chunks && c !in s'.chunks ==> Editable(s, c) || Discarded(s, s', s.chunks[c].file))
    && (forall c :: c in s'.chunks && c !in s.chunks ==> s.nextFile <= s'.chunks[c].file)
  }

  predicate Discarded(s: Store, s': Store, file: nat) {
    file in s.files && s.files[file].status != Published && file !in s'.files
  }

  /** Some vectors were computed and stored; nothing else changed. */
  ghost predicate Embedded(s: Store, s': Store, model: string, dim: int, embed: (string, string) -> Vector) {
    && s'.files == s.files && s'.nextFile == s.nextFile && s'.nextChunk == s.nextChunk
    && s'.chunks.Keys == s.chunks.Keys
    && forall c :: c in s.chunks ==>
         && s'.chunks[c].file == s.chunks[c].file && s'.chunks[c].part == s.chunks[c].part
         && (s'.chunks[c].embedding == s.chunks[c].embedding || NewlyEmbedded(s', c, model, dim, embed))
  }

  ghost predicate NewlyEmbedded(s: Store, c: nat, model: string, dim: int, embed: (string, string) -> Vector)
    requires c in s.chunks
  {
    var chunk := s.chunks[c];
    && chunk.file in s.files
    && var vector := embed(model, InputOf(s, c));
    && chunk.embedding == Some(Embedding(vector, model, dim)) && |vector| == dim
  }

  // ---- whole operations, one after the other ----

  datatype Op =
    | Upload(title: string, version: nat, parts: seq<Part>)
    | Edit(chunk: nat, text: string)
    | Drop(chunk: nat)
    | Publish(id: nat, model: string, dim: int, embedded: Store, committed: bool)
    | Unpublish(id: nat)
    | Delete(id: nat)
    | Reembed(model: string, dim: int, embedded: Store)

  /** The operation may take `s` to `s'`; a refused operation changes nothing. */
  ghost predicate Performs(s: Store, op: Op, s': Store, embed: (string, string) -> Vector) {
    match op
    case Upload(title, version, parts) =>
      version > 0 && IsMaxVersion(s.files, title, version - 1) && s' == InsertDraft(s, title, version, parts)
    case Edit(chunk, text) => s' == if Editable(s, chunk) then SetText(s, chunk, text) else s
    case Drop(chunk) => s' == if Editable(s, chunk) then RemoveChunk(s, chunk) else s
    case Publish(id, model, dim, embedded, committed) =>
      if id !in s.files || s.files[id].status == Published then s' == s
      else Embedded(s, embedded, model, dim, embed) && s' == if committed then PublishRow(embedded, id) else embedded
    case Unpublish(id) =>
      s' == if id in s.files && s.files[id].status == Published then SetStatus(s, id, Draft) else s
    case Delete(id) =>
      s' == if id in s.files && s.files[id].status != Published then RemoveFile(s, id) else s
    case Reembed(model, dim, embedded) => Embedded(s, embedded, model, dim, embed) && s' == embedded
  }

  /** Reordering of AddChunks: old chunks stay, new ones belong to the new file and have no vector. */
  lemma {:induction false} AddedChunks(chunks: map<nat, Chunk>, next: nat, file: nat, parts: seq<Part>)
    requires forall c :: c in chunks ==> c < next
    ensures var all := AddChunks(chunks, next, file, parts);
            && (forall c :: c in all <==> c in chunks || next <= c < next + |parts|)
            && (forall c :: c in chunks ==> all[c] == chunks[c])
            && (forall i :: 0 <= i < |parts| ==> all[next + i] == Chunk(file, parts[i], None))
  {
    if parts != [] {
      AddedChunks(chunks, next, file, parts[..|parts| - 1]);
    }
  }

  lemma InsertKeepsInv(s: Store, title: string, version: nat, parts: seq<Part>, embed: (string, string) -> Vector)
    requires Inv(s, embed) && version > 0 && IsMaxVersion(s.files, title, version - 1)
    ensures Inv(InsertDraft(s, title, version, parts), embed) && TextsFrozen(s, InsertDraft(s, title, version, parts))
  {
    AddedChunks(s.chunks, s.nextChunk, s.nextFile, parts);
    var s' := InsertDraft(s, title, version, parts);
    forall c | c in s'.chunks
      ensures c < s'.nextChunk && s'.chunks[c].file in s'.files && CurrentChunk(s', embed, c)
      ensures c !in s.chunks ==> s.nextFile <= s'.chunks[c].file
    {
      if c in s.chunks {
        assert CurrentChunk(s, embed, c);
      } else {
        assert s'.chunks[c] == Chunk(s.nextFile, parts[c - s.nextChunk], None);
      }
    }
  }

  lemma EmbeddedKeepsInv(s: Store, s': Store, model: string, dim: int, embed: (string, string) -> Vector)
    requires Inv(s, embed) && Embedded(s, s', model, dim, embed)
    ensures Inv(s', embed) && TextsFrozen(s, s')
  {
    forall c | c in s'.chunks
      ensures s'.chunks[c].file in s'.files && CurrentChunk(s', embed, c)
    {
      assert c in s.chunks && CurrentChunk(s, embed, c);
    }
  }

  /** Changing only the status of files keeps everything said about chunks. */
  lemma StatusKeepsChunks(s: Store, s': Store, embed: (string, string) -> Vector)
    requires Inv(s, embed) && s'.chunks == s.chunks && s'.nextFile == s.nextFile && s'.nextChunk == s.nextChunk
    requires s'.files.Keys == s.files.Keys
    requires forall f :: f in s.files ==>
               s'.files[f].title == s.files[f].title && s'.files[f].version == s.files[f].version
    ensures Consistent(s') && EmbeddingsCurrent(s', embed) && VersionsDistinct(s'.files) && TextsFrozen(s, s')
  {
    forall c | c in s'.chunks
      ensures s'.chunks[c].file in s'.files && CurrentChunk(s', embed, c)
    {
      assert CurrentChunk(s, embed, c);
    }
  }

  /** Publishing archives every other published version of the title. */
  lemma PublishKeepsInv(s: Store, id: nat, embed: (string, string) -> Vector)
    requires Inv(s, embed) && id in s.files
    ensures Inv(PublishRow(s, id), embed) && TextsFrozen(s, PublishRow(s, id))
  {
    var s' := PublishRow(s, id);
    StatusKeepsChunks(s, s', embed);
    forall f, g | f in s'.files && g in s'.files && BothPublished(s'.files[f], s'.files[g])
      ensures f == g
    {
      assert f != id ==> s.files[f].status == Published && f !in OtherPublished(s.files, s.files[id].title, id);
      assert g != id ==> s.files[g].status == Published && g !in OtherPublished(s.files, s.files[id].title, id);
    }
  }

  lemma SetStatusKeepsInv(s: Store, id: nat, embed: (string, string) -> Vector)
    requires Inv(s, embed) && id in s.files
    ensures Inv(SetStatus(s, id, Draft), embed) && TextsFrozen(s, SetStatus(s, id, Draft))
  {
    StatusKeepsChunks(s, SetStatus(s, id, Draft), embed);
  }

  lemma RemoveFileKeepsInv(s: Store, id: nat, embed: (string, string) -> Vector)
    requires Inv(s, embed) && id in s.files && s.files[id].status != Published
    ensures Inv(RemoveFile(s, id), embed) && TextsFrozen(s, RemoveFile(s, id))
  {
    var s' := RemoveFile(s, id);
    forall c | c in s'.chunks
      ensures s'.chunks[c].file in s'.files && CurrentChunk(s', embed, c)
    {
      assert CurrentChunk(s, embed, c);
    }
  }

  lemma EditKeepsInv(s: Store, chunk: nat, text: string, embed: (string, string) -> Vector)
    requires Inv(s, embed) && Editable(s, chunk)
    ensures Inv(SetText(s, chunk, text), embed) && TextsFrozen(s, SetText(s, chunk, text))
    ensures Inv(RemoveChunk(s, chunk), embed) && TextsFrozen(s, RemoveChunk(s, chunk))
  {
    var s1, s2 := SetText(s, chunk, text), RemoveChunk(s, chunk);
    forall c | c in s1.chunks
      ensures s1.chunks[c].file in s1.files && CurrentChunk(s1, embed, c)
    {
      assert CurrentChunk(s, embed, c);
    }
    forall c | c in s2.chunks
      ensures s2.chunks[c].file in s2.files && CurrentChunk(s2, embed, c)
    {
      assert CurrentChunk(s, embed, c);
    }
  }

  /** What every operation keeps. */
  lemma {:induction false} OperationKeepsInv(s: Store, op: Op, s': Store, embed: (string, string) -> Vector)
    requires Inv(s, embed) && Performs(s, op, s', embed)
    ensures Inv(s', embed) && TextsFrozen(s, s')
  {
    match op
    case Upload(title, version, parts) =>
      InsertKeepsInv(s, title, version, parts, embed);
    case Edit(chunk, text) =>
      if Editable(s, chunk) {
        EditKeepsInv(s, chunk, text, embed);
      }
    case Drop(chunk) =>
      if Editable(s, chunk) {
        EditKeepsInv(s, chunk, "", embed);
      }
    case Publish(id, model, dim, embedded, committed) =>
      if id in s.files && s.files[id].status != Published {
        EmbeddedKeepsInv(s, embedded, model, dim, embed);
        if committed {
          PublishKeepsInv(embedded, id, embed);
        }
      }
    case Unpublish(id) =>
      if id in s.files {
        SetStatusKeepsInv(s, id, embed);
      }
    case Delete(id) =>
      if id in s.files && s.files[id].status != Published {
        RemoveFileKeepsInv(s, id, embed);
      }
    case Reembed(model, dim, embedded) =>
      EmbeddedKeepsInv(s, embedded, model, dim, embed);
  }

  /** A run: the stores before and after each operation. */
  ghost predicate SerialRun(run: seq<Store>, ops: seq<Op>, embed: (string, string) -> Vector) {
    && |run| == |ops| + 1 && run[0] == EMPTY
    && forall i :: 0 <= i < |ops| ==> Performs(run[i], ops[i], run[i + 1], embed)
  }

  /** In every serial run, at every moment: one published version per title at most, distinct versions, and vectors
      that belong to the current texts under their recorded models; and texts change only in drafts. */
  lemma {:induction false} EverySerialRun(run: seq<Store>, ops: seq<Op>, embed: (string, string) -> Vector, n: nat)
    requires SerialRun(run, ops, embed) && n <= |ops|
    ensures Inv(run[n], embed)
    ensures n > 0 ==> TextsFrozen(run[n - 1], run[n])
  {
    if n > 0 {
      EverySerialRun(run, ops, embed, n - 1);
      OperationKeepsInv(run[n - 1], ops[n - 1], run[n], embed);
    }
  }
}
