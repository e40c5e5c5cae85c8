/** The handlers of admin_console/backend/routers/manuals.py running at the same time. Every handler is cut into its
    statements, and the statements of different requests may come in any order. The two statements of the publishing
    transaction become visible together, when it commits (READ COMMITTED); row locks only remove orders. */
module PublishProtocol {
  import opened ManualStore
  import opened Text

  /** How far a request has got, with what it has read so far. A publication and a repair of vectors keep the texts
      whose vectors are still to be stored, and the model and dimension they were started with. */
  datatype Task =
    | Idle
    | Inserting(title: string, version: nat, parts: seq<Part>)
    | Writing(chunk: nat, text: string)
    | Removing(chunk: nat)
    | Lowering(id: nat)
    | Erasing(id: nat)
    | Listing(id: nat, title: string)
    | Embedding(id: nat, title: string, inputs: map<nat, string>, model: string, dim: int)
    | Refreshing(inputs: map<nat, string>, model: string, dim: int)
    | Holding(id: nat, title: string)
    | Replacing(id: nat, title: string, others: set<nat>)

  datatype Event =
    | ReadVersion(title: string, version: nat, parts: seq<Part>)
    | Insert
    | CheckEdit(chunk: nat, text: string)
    | WriteText
    | CheckDrop(chunk: nat)
    | DropRow
    | CheckUnpublish(id: nat)
    | Lower
    | CheckDelete(id: nat)
    | Erase
    | CheckPublish(id: nat)
    | ReadTexts(model: string, dim: int)
    | ReadStale(model: string, dim: int, limit: nat)
    | StoreVector(chunk: nat)
    | SkipVector(chunk: nat)
    | Finish
    | Lock
    | Archive
    | CommitBoth

  datatype System = System(store: Store, tasks: map<nat, Task>)

  /** The hash of a title is the key of its advisory lock; titles may share a key. */
  datatype World = World(hash: string -> int, embed: (string, string) -> Vector, locking: bool)

  const START := System(EMPTY, map[])

  function TaskOf(sys: System, p: nat): Task {
    if p in sys.tasks then sys.tasks[p] else Idle
  }

  function Then(sys: System, p: nat, store: Store, task: Task): System {
    System(store, sys.tasks[p := task])
  }

  predicate Publishing(t: Task) {
    t.Listing? || t.Embedding? || t.Holding? || t.Replacing?
  }

  /** Vectors are being computed and stored. */
  predicate Storing(t: Task) {
    t.Embedding? || t.Refreshing?
  }

  predicate Locked(t: Task) {
    t.Holding? || t.Replacing?
  }

  ghost predicate LockFree(sys: System, w: World, title: string) {
    w.locking ==> forall q :: Locked(TaskOf(sys, q)) ==> w.hash(TaskOf(sys, q).title) != w.hash(title)
  }

  /** The texts sent to the embedding server: those of the chunks of the document without a vector. */
  function Inputs(s: Store, id: nat, title: string): map<nat, string> {
    map c | c in s.chunks && s.chunks[c].file == id && s.chunks[c].embedding.None? ::
      EmbedInput(title, s.chunks[c].part)
  }

  /** The stale chunks with smaller ids; the status of their documents does not matter. */
  function StaleBelow(s: Store, model: string, dim: int, c: nat): set<nat> {
    set d | d in s.chunks && d < c && s.chunks[d].file in s.files && Stale(s, model, dim, d)
  }

  /** The texts of the `limit` stale chunks with the smallest ids. */
  function StaleInputs(s: Store, model: string, dim: int, limit: nat): map<nat, string> {
    map c | c in s.chunks && s.chunks[c].file in s.files && Stale(s, model, dim, c)
            && |StaleBelow(s, model, dim, c)| < limit :: InputOf(s, c)
  }

  /** The task once the vector of a chunk is stored, or skipped because the server gave none. */
  function Handled(t: Task, chunk: nat): Task
    requires Storing(t)
  {
    t.(inputs := t.inputs - {chunk})
  }

  /** Request `p` executes its next statement `e`. */
  ghost predicate Step(sys: System, p: nat, e: Event, sys': System, w: World) {
    var s, t := sys.store, TaskOf(sys, p);
    match e
    case ReadVersion(title, version, parts) =>
      t.Idle? && version > 0 && IsMaxVersion(s.files, title, version - 1)
      && sys' == Then(sys, p, s, Inserting(title, version, parts))
    case Insert =>
      t.Inserting? && sys' == Then(sys, p, InsertDraft(s, t.title, t.version, t.parts), Idle)
    case CheckEdit(chunk, text) =>
      t.Idle? && Editable(s, chunk) && sys' == Then(sys, p, s, Writing(chunk, text))
    case WriteText =>
      t.Writing? && sys' == Then(sys, p, SetText(s, t.chunk, t.text), Idle)
    case CheckDrop(chunk) =>
      t.Idle? && Editable(s, chunk) && sys' == Then(sys, p, s, Removing(chunk))
    case DropRow =>
      t.Removing? && sys' == Then(sys, p, RemoveChunk(s, t.chunk), Idle)
    case CheckUnpublish(id) =>
      t.Idle? && id in s.files && s.files[id].status == Published && sys' == Then(sys, p, s, Lowering(id))
    case Lower =>
      t.Lowering? && sys' == Then(sys, p, SetStatus(s, t.id, Draft), Idle)
    case CheckDelete(id) =>
      t.Idle? && id in s.files && s.files[id].status != Published && sys' == Then(sys, p, s, Erasing(id))
    case Erase =>
      t.Erasing? && sys' == Then(sys, p, RemoveFile(s, t.id), Idle)
    case CheckPublish(id) =>
      t.Idle? && id in s.files && s.files[id].status != Published
      && sys' == Then(sys, p, s, Listing(id, s.files[id].title))
    case ReadTexts(model, dim) =>
      t.Listing? && sys' == Then(sys, p, s, Task.Embedding(t.id, t.title, Inputs(s, t.id, t.title), model, dim))
    case ReadStale(model, dim, limit) =>
      t.Idle? && 1 <= limit <= 1000
      && sys' == Then(sys, p, s, Refreshing(StaleInputs(s, model, dim, limit), model, dim))
    case StoreVector(chunk) =>
      Storing(t) && chunk in t.inputs
      && var vector := w.embed(t.model, t.inputs[chunk]);
         var e := ManualStore.Embedding(vector, t.model, t.dim);
         |vector| == t.dim && sys' == Then(sys, p, SetEmbedding(s, chunk, e), Handled(t, chunk))
    case SkipVector(chunk) =>
      Storing(t) && chunk in t.inputs && sys' == Then(sys, p, s, Handled(t, chunk))
    case Finish =>
      Storing(t) && sys' == Then(sys, p, s, Idle)
    case Lock =>
      t.Embedding? && t.inputs == map[] && LockFree(sys, w, t.title) && sys' == Then(sys, p, s, Holding(t.id, t.title))
    case Archive =>
      t.Holding? && sys' == Then(sys, p, s, Replacing(t.id, t.title, OtherPublished(s.files, t.title, t.id)))
    case CommitBoth =>
      t.Replacing? && sys' == Then(sys, p, s.(files := Commit(s.files, t.others, t.id)), Idle)
  }

  /** A run: the systems, and who did what in between. */
  ghost predicate Run(run: seq<System>, events: seq<(nat, Event)>, w: World) {
    && |run| == |events| + 1 && run[0] == START
    && forall i :: 0 <= i < |events| ==> Step(run[i], events[i].0, events[i].1, run[i + 1], w)
  }

  // ---- one published version, whatever the order ----

  /** A publishing request refers to a row that existed, and titles do not change. */
  ghost predicate KnowsTitle(s: Store, t: Task) {
    Publishing(t) ==> t.id < s.nextFile && (t.id in s.files ==> s.files[t.id].title == t.title)
  }

  /** A transaction that has archived knows every other published version of its title, and only versions of it. */
  ghost predicate CoversPublished(s: Store, t: Task) {
    t.Replacing? ==>
      && (forall f :: f in s.files && f in OtherPublished(s.files, t.title, t.id) ==> f in t.others)
      && (forall f :: f in t.others ==> f < s.nextFile && (f in s.files ==> s.files[f].title == t.title))
  }

  predicate SameLock(t: Task, u: Task, w: World) {
    Locked(t) && Locked(u) && w.hash(t.title) == w.hash(u.title)
  }

  ghost predicate LocksExclude(sys: System, w: World) {
    forall p, q :: SameLock(TaskOf(sys, p), TaskOf(sys, q), w) ==> p == q
  }

  ghost predicate IdsBelow(s: Store) {
    forall f :: f in s.files ==> f < s.nextFile
  }

  ghost predicate Safe(sys: System, w: World) {
    && IdsBelow(sys.store) && AtMostOnePublished(sys.store.files) && LocksExclude(sys, w)
    && forall p :: KnowsTitle(sys.store, TaskOf(sys, p)) && CoversPublished(sys.store, TaskOf(sys, p))
  }

  /** Rows only lose their published status: nothing else about files that the protocol relies on changes. */
  ghost predicate NoNewPublished(s: Store, s': Store) {
    && s.nextFile <= s'.nextFile && IdsBelow(s')
    && (forall f :: f in s'.files && f in s.files ==> s'.files[f].title == s.files[f].title)
    && (forall f :: f in s'.files && f !in s.files ==> s.nextFile <= f)
    && (forall f :: f in s'.files && s'.files[f].status == Published ==> f in s.files && s.files[f].status == Published)
  }

  lemma QuietStep(sys: System, p: nat, e: Event, sys': System, w: World)
    requires Safe(sys, w) && w.locking && Step(sys, p, e, sys', w) && !e.CommitBoth?
    ensures NoNewPublished(sys.store, sys'.store)
  {
  }

  lemma LocksStayExclusive(sys: System, p: nat, e: Event, sys': System, w: World)
    requires LocksExclude(sys, w) && w.locking && Step(sys, p, e, sys', w)
    ensures LocksExclude(sys', w)
  {
    forall q, r | SameLock(TaskOf(sys', q), TaskOf(sys', r), w)
      ensures q == r
    {
      assert q != p ==> TaskOf(sys', q) == TaskOf(sys, q);
      assert r != p ==> TaskOf(sys', r) == TaskOf(sys, r);
      assert SameLock(TaskOf(sys, q), TaskOf(sys, r), w) || e.Lock?;
    }
  }

  lemma QuietKeepsSafe(sys: System, p: nat, e: Event, sys': System, w: World)
    requires Safe(sys, w) && w.locking && Step(sys, p, e, sys', w) && !e.CommitBoth?
    ensures Safe(sys', w)
  {
    QuietStep(sys, p, e, sys', w);
    LocksStayExclusive(sys, p, e, sys', w);
    forall q
      ensures KnowsTitle(sys'.store, TaskOf(sys', q)) && CoversPublished(sys'.store, TaskOf(sys', q))
    {
      assert KnowsTitle(sys.store, TaskOf(sys, q)) && CoversPublished(sys.store, TaskOf(sys, q));
      assert KnowsTitle(sys.store, TaskOf(sys, p)) && CoversPublished(sys.store, TaskOf(sys, p));
    }
  }

  /** The published versions of a title. */
  function PublishedOf(files: map<nat, File>, title: string): set<nat> {
    set f | f in files && files[f].title == title && files[f].status == Published
  }

  /** The commit leaves exactly the version it was asked for, or none if that row was deleted in the meantime. */
  lemma CommitLeavesOne(sys: System, p: nat, sys': System, w: World)
    requires Safe(sys, w) && Step(sys, p, CommitBoth, sys', w)
    ensures var t := TaskOf(sys, p);
            && PublishedOf(sys'.store.files, t.title) == (if t.id in sys.store.files then {t.id} else {})
            && forall f :: f in sys.store.files && sys.store.files[f].title != t.title ==>
                 sys'.store.files[f] == sys.store.files[f]
  {
    var t := TaskOf(sys, p);
    assert KnowsTitle(sys.store, t) && CoversPublished(sys.store, t);
    var others := OtherPublished(sys.store.files, t.title, t.id);
    forall f | f in PublishedOf(sys'.store.files, t.title)
      ensures f == t.id
    {
      assert f != t.id ==> f in others;
    }
  }

  lemma CommitKeepsSafe(sys: System, p: nat, sys': System, w: World)
    requires Safe(sys, w) && w.locking && Step(sys, p, CommitBoth, sys', w)
    ensures Safe(sys', w)
  {
    var t := TaskOf(sys, p);
    assert KnowsTitle(sys.store, t) && CoversPublished(sys.store, t);
    CommitLeavesOne(sys, p, sys', w);
    LocksStayExclusive(sys, p, CommitBoth, sys', w);
    var files := sys'.store.files;
    forall f, g | f in files && g in files && BothPublished(files[f], files[g])
      ensures f == g
    {
      if sys'.store.files[f].title == t.title {
        assert f in PublishedOf(sys'.store.files, t.title) && g in PublishedOf(sys'.store.files, t.title);
      }
    }
    forall q
      ensures KnowsTitle(sys'.store, TaskOf(sys', q)) && CoversPublished(sys'.store, TaskOf(sys', q))
    {
      CommitKeepsTask(sys, p, sys', w, q);
    }
  }

  /** The other transactions that have archived hold other locks, so their titles are not the one committed. */
  lemma CommitKeepsTask(sys: System, p: nat, sys': System, w: World, q: nat)
    requires Safe(sys, w) && w.locking && Step(sys, p, CommitBoth, sys', w)
    ensures KnowsTitle(sys'.store, TaskOf(sys', q)) && CoversPublished(sys'.store, TaskOf(sys', q))
  {
    var t, u := TaskOf(sys, p), TaskOf(sys, q);
    assert KnowsTitle(sys.store, t) && KnowsTitle(sys.store, u) && CoversPublished(sys.store, u);
    if q != p && u.Replacing? {
      assert t.title != u.title by {
        assert SameLock(t, u, w) ==> p == q;
      }
      forall f | f in OtherPublished(sys'.store.files, u.title, u.id)
        ensures f in u.others
      {
        assert f in OtherPublished(sys.store.files, u.title, u.id);
      }
    }
  }

  /** In every interleaving, at every moment, a title has at most one published version. */
  lemma {:induction false} EveryInterleaving(run: seq<System>, events: seq<(nat, Event)>, w: World, n: nat)
    requires Run(run, events, w) && w.locking && n <= |events|
    ensures Safe(run[n], w)
    ensures AtMostOnePublished(run[n].store.files)
  {
    if n > 0 {
      EveryInterleaving(run, events, w, n - 1);
      var e := events[n - 1];
      if e.1.CommitBoth? {
        CommitKeepsSafe(run[n - 1], e.0, run[n], w);
      } else {
        QuietKeepsSafe(run[n - 1], e.0, e.1, run[n], w);
      }
    }
  }

  // ---- vectors, whatever the order ----

  /** A request may still store a vector computed from these texts: they are those of the chunks. */
  ghost predicate TextsCurrent(s: Store, t: Task)
    requires Consistent(s)
  {
    Storing(t) ==> forall c :: c in t.inputs && c in s.chunks ==> t.inputs[c] == InputOf(s, c)
  }

  /** No edit of a chunk lands while a request still has a vector of its old text to store. */
  ghost predicate EditsWait(sys: System, p: nat, e: Event) {
    e.WriteText? && TaskOf(sys, p).Writing? ==>
      forall q :: Storing(TaskOf(sys, q)) ==> TaskOf(sys, p).chunk !in TaskOf(sys, q).inputs
  }

  ghost predicate ChunksBelow(s: Store, t: Task) {
    Storing(t) ==> forall c :: c in t.inputs ==> c < s.nextChunk
  }

  ghost predicate VectorsSafe(sys: System, w: World) {
    && Consistent(sys.store) && EmbeddingsCurrent(sys.store, w.embed)
    && forall p :: KnowsTitle(sys.store, TaskOf(sys, p)) && ChunksBelow(sys.store, TaskOf(sys, p))
               && TextsCurrent(sys.store, TaskOf(sys, p))
  }

  /** Chunks keep their text, or lose their vector; new ones have none. */
  ghost predicate TextsKept(s: Store, s': Store, edited: set<nat>)
    requires Consistent(s)
  {
    && Consistent(s') && s.nextFile <= s'.nextFile && s.nextChunk <= s'.nextChunk
    && (forall f :: f in s'.files && f in s.files ==> s'.files[f].title == s.files[f].title)
    && (forall f :: f in s'.files && f !in s.files ==> s.nextFile <= f)
    && (forall c :: c in s'.chunks && c !in s.chunks ==> s.nextChunk <= c && s'.chunks[c].embedding.None?)
    && (forall c :: c in s'.chunks && c in s.chunks ==> s'.chunks[c].file == s.chunks[c].file)
    && (forall c :: c in s'.chunks && c in s.chunks && c !in edited ==> s'.chunks[c] == s.chunks[c])
    && (forall c :: c in s'.chunks && c in edited ==> s'.chunks[c].embedding.None?)
  }

  function Edited(sys: System, p: nat, e: Event): set<nat> {
    if e.WriteText? && TaskOf(sys, p).Writing? then {TaskOf(sys, p).chunk} else {}
  }

  lemma StatementKeepsTexts(sys: System, p: nat, e: Event, sys': System, w: World)
    requires Consistent(sys.store) && Step(sys, p, e, sys', w) && !e.StoreVector?
    ensures TextsKept(sys.store, sys'.store, Edited(sys, p, e))
  {
    if e.Insert? {
      var t := TaskOf(sys, p);
      InsertKeepsTexts(sys.store, t.title, t.version, t.parts);
    }
  }

  lemma InsertKeepsTexts(s: Store, title: string, version: nat, parts: seq<Part>)
    requires Consistent(s)
    ensures TextsKept(s, InsertDraft(s, title, version, parts), {})
  {
    var s' := InsertDraft(s, title, version, parts);
    AddedChunks(s.chunks, s.nextChunk, s.nextFile, parts);
    forall c | c in s'.chunks && c !in s.chunks
      ensures s.nextChunk <= c < s'.nextChunk && s'.chunks[c].file == s.nextFile && s'.chunks[c].embedding.None?
    {
      assert s'.chunks[c] == Chunk(s.nextFile, parts[c - s.nextChunk], None);
    }
  }

  lemma TextsKeptCurrent(s: Store, s': Store, edited: set<nat>, w: World)
    requires Consistent(s) && EmbeddingsCurrent(s, w.embed) && TextsKept(s, s', edited)
    ensures EmbeddingsCurrent(s', w.embed)
  {
    forall c | c in s'.chunks
      ensures CurrentChunk(s', w.embed, c)
    {
      if c in s.chunks {
        assert CurrentChunk(s, w.embed, c);
      }
    }
  }

  lemma TextsKeptForTask(s: Store, s': Store, edited: set<nat>, t: Task)
    requires Consistent(s) && TextsKept(s, s', edited) && KnowsTitle(s, t) && ChunksBelow(s, t) && TextsCurrent(s, t)
    requires Storing(t) ==> edited !! t.inputs.Keys
    ensures KnowsTitle(s', t) && ChunksBelow(s', t) && TextsCurrent(s', t)
  {
    if Storing(t) {
      forall c | c in t.inputs && c in s'.chunks
        ensures t.inputs[c] == InputOf(s', c)
      {
        assert c in s.chunks && t.inputs[c] == InputOf(s, c);
      }
    }
  }

  lemma OwnTask(sys: System, p: nat, e: Event, sys': System, w: World)
    requires VectorsSafe(sys, w) && Step(sys, p, e, sys', w) && !e.StoreVector? && Consistent(sys'.store)
    requires TextsKept(sys.store, sys'.store, Edited(sys, p, e))
    ensures KnowsTitle(sys'.store, TaskOf(sys', p)) && ChunksBelow(sys'.store, TaskOf(sys', p))
    ensures TextsCurrent(sys'.store, TaskOf(sys', p))
  {
    assert KnowsTitle(sys.store, TaskOf(sys, p));
  }

  /** From current vectors, storing one keeps them current exactly when it was not computed from a text that has another
      vector than the present one. */
  lemma StoreKeepsCurrentIff(sys: System, p: nat, chunk: nat, sys': System, w: World)
    requires Consistent(sys.store) && EmbeddingsCurrent(sys.store, w.embed) && Step(sys, p, StoreVector(chunk), sys', w)
    ensures Consistent(sys'.store)
    ensures EmbeddingsCurrent(sys'.store, w.embed) <==> !StoresOld(sys, p, StoreVector(chunk), w)
  {
    var s, s' := sys.store, sys'.store;
    if chunk in s.chunks {
      assert CurrentChunk(s', w.embed, chunk) <==> !StoresOld(sys, p, StoreVector(chunk), w);
    }
    forall c | c in s.chunks && c != chunk
      ensures CurrentChunk(s', w.embed, c)
    {
      assert CurrentChunk(s, w.embed, c);
    }
  }

  /** The statement stores the vector of a text that is no longer there. */
  predicate StoresOld(sys: System, p: nat, e: Event, w: World)
    requires forall c :: c in sys.store.chunks ==> sys.store.chunks[c].file in sys.store.files
  {
    var s, t := sys.store, TaskOf(sys, p);
    && e.StoreVector? && Storing(t) && e.chunk in t.inputs && e.chunk in s.chunks
    && w.embed(t.model, t.inputs[e.chunk]) != w.embed(t.model, InputOf(s, e.chunk))
  }

  /** Writing a vector that was computed from the current text. */
  lemma VectorKeepsCurrent(sys: System, p: nat, chunk: nat, sys': System, w: World)
    requires VectorsSafe(sys, w) && Step(sys, p, StoreVector(chunk), sys', w)
    ensures VectorsSafe(sys', w)
  {
    var s, s' := sys.store, sys'.store;
    assert TextsCurrent(s, TaskOf(sys, p));
    StoreKeepsCurrentIff(sys, p, chunk, sys', w);
    forall q
      ensures KnowsTitle(s', TaskOf(sys', q)) && ChunksBelow(s', TaskOf(sys', q)) && TextsCurrent(s', TaskOf(sys', q))
    {
      assert KnowsTitle(s, TaskOf(sys, q)) && ChunksBelow(s, TaskOf(sys, q)) && TextsCurrent(s, TaskOf(sys, q));
      TextsCurrentSame(s, s', TaskOf(sys, q));
      if q == p {
        HandledStays(s', TaskOf(sys, p), chunk);
      }
    }
  }

  lemma HandledStays(s: Store, t: Task, chunk: nat)
    requires Consistent(s) && Storing(t) && KnowsTitle(s, t) && ChunksBelow(s, t) && TextsCurrent(s, t)
    ensures KnowsTitle(s, Handled(t, chunk)) && ChunksBelow(s, Handled(t, chunk)) && TextsCurrent(s, Handled(t, chunk))
  {
  }

  lemma TextsCurrentSame(s: Store, s': Store, t: Task)
    requires Consistent(s) && Consistent(s') && s'.files == s.files && s'.chunks.Keys == s.chunks.Keys
    requires forall c :: c in s.chunks ==>
               s'.chunks[c].file == s.chunks[c].file && s'.chunks[c].part == s.chunks[c].part
    requires TextsCurrent(s, t)
    ensures TextsCurrent(s', t)
  {
    if Storing(t) {
      forall c | c in t.inputs && c in s'.chunks
        ensures t.inputs[c] == InputOf(s', c)
      {
        assert t.inputs[c] == InputOf(s, c);
      }
    }
  }

  lemma StatementKeepsVectors(sys: System, p: nat, e: Event, sys': System, w: World)
    requires VectorsSafe(sys, w) && Step(sys, p, e, sys', w) && EditsWait(sys, p, e)
    ensures VectorsSafe(sys', w)
  {
    if e.StoreVector? {
      VectorKeepsCurrent(sys, p, e.chunk, sys', w);
    } else {
      StatementKeepsTexts(sys, p, e, sys', w);
      TextsKeptCurrent(sys.store, sys'.store, Edited(sys, p, e), w);
      forall q
        ensures KnowsTitle(sys'.store, TaskOf(sys', q)) && ChunksBelow(sys'.store, TaskOf(sys', q))
        ensures TextsCurrent(sys'.store, TaskOf(sys', q))
      {
        if q == p {
          OwnTask(sys, p, e, sys', w);
        } else {
          assert KnowsTitle(sys.store, TaskOf(sys, q)) && ChunksBelow(sys.store, TaskOf(sys, q));
          assert TextsCurrent(sys.store, TaskOf(sys, q));
          TextsKeptForTask(sys.store, sys'.store, Edited(sys, p, e), TaskOf(sys, q));
        }
      }
    }
  }

  /** In every interleaving in which no edit lands on a chunk while a publication or a repair still has the vector of
      its old text to store, every stored vector belongs to the current text, with or without the lock. */
  lemma {:induction false} VectorsStayCurrent(run: seq<System>, events: seq<(nat, Event)>, w: World, n: nat)
    requires Run(run, events, w) && n <= |events|
    requires forall i :: 0 <= i < n ==> EditsWait(run[i], events[i].0, events[i].1)
    ensures VectorsSafe(run[n], w)
    ensures EmbeddingsCurrent(run[n].store, w.embed)
  {
    if n > 0 {
      VectorsStayCurrent(run, events, w, n - 1);
      StatementKeepsVectors(run[n - 1], events[n - 1].0, events[n - 1].1, run[n], w);
    }
  }

  /** Statements other than the storing of an old vector keep vectors current. */
  lemma CurrentKeptIff(sys: System, p: nat, e: Event, sys': System, w: World)
    requires Consistent(sys.store) && EmbeddingsCurrent(sys.store, w.embed) && Step(sys, p, e, sys', w)
    ensures Consistent(sys'.store)
    ensures EmbeddingsCurrent(sys'.store, w.embed) <==> !StoresOld(sys, p, e, w)
  {
    if e.StoreVector? {
      StoreKeepsCurrentIff(sys, p, e.chunk, sys', w);
    } else {
      StatementKeepsTexts(sys, p, e, sys', w);
      TextsKeptCurrent(sys.store, sys'.store, Edited(sys, p, e), w);
    }
  }

  lemma {:induction false} RunConsistent(run: seq<System>, events: seq<(nat, Event)>, w: World, n: nat)
    requires Run(run, events, w) && n <= |events|
    ensures Consistent(run[n].store)
  {
    if n > 0 {
      RunConsistent(run, events, w, n - 1);
      var e := events[n - 1];
      if !e.1.StoreVector? {
        StatementKeepsTexts(run[n - 1], e.0, e.1, run[n], w);
      }
    }
  }

  /** Up to moment `n` every vector belongs to the current text. */
  ghost predicate CurrentUpTo(run: seq<System>, w: World, n: nat)
    requires n < |run|
  {
    forall i :: 0 <= i <= n ==> Consistent(run[i].store) && EmbeddingsCurrent(run[i].store, w.embed)
  }

  /** Up to moment `n` no statement stored the vector of a text that was gone. */
  ghost predicate NoneOldUpTo(run: seq<System>, events: seq<(nat, Event)>, w: World, n: nat)
    requires |run| == |events| + 1 && n <= |events|
  {
    forall i :: 0 <= i < n ==> Consistent(run[i].store) && !StoresOld(run[i], events[i].0, events[i].1, w)
  }

  /** In every interleaving, edits that land included: vectors belong to the current texts throughout if and only if no
      statement stores the vector of a text that is gone. */
  lemma {:induction false} CurrentThroughoutIff(run: seq<System>, events: seq<(nat, Event)>, w: World, n: nat)
    requires Run(run, events, w) && n <= |events|
    ensures CurrentUpTo(run, w, n) <==> NoneOldUpTo(run, events, w, n)
  {
    if n > 0 {
      CurrentThroughoutIff(run, events, w, n - 1);
      RunConsistent(run, events, w, n - 1);
      RunConsistent(run, events, w, n);
      if CurrentUpTo(run, w, n - 1) {
        CurrentKeptIff(run[n - 1], events[n - 1].0, events[n - 1].1, run[n], w);
      }
    }
  }
}
