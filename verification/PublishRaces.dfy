/** What simultaneous requests may break, and the exact conditions under which they do not
    (admin_console/backend/routers/manuals.py). */
module PublishRaces {
  import opened ManualStore
  import opened PublishProtocol
  import opened Text

  // ---- versions ----

  /** Nobody reads the highest version of a title while another upload of it has read but not inserted. */
  ghost predicate UploadsWait(sys: System, p: nat, e: Event) {
    e.ReadVersion? ==> forall q :: q != p && TaskOf(sys, q).Inserting? ==> TaskOf(sys, q).title != e.title
  }

  predicate SameTitle(t: Task, u: Task) {
    t.Inserting? && u.Inserting? && t.title == u.title
  }

  /** A pending upload has a version above all versions of its title. */
  ghost predicate VersionAbove(s: Store, t: Task) {
    t.Inserting? ==> forall f :: f in s.files && s.files[f].title == t.title ==> s.files[f].version < t.version
  }

  ghost predicate VersionsSafe(sys: System) {
    && IdsBelow(sys.store) && VersionsDistinct(sys.store.files)
    && (forall p, q :: SameTitle(TaskOf(sys, p), TaskOf(sys, q)) ==> p == q)
    && forall p :: VersionAbove(sys.store, TaskOf(sys, p))
  }

  /** Files keep their title and version; an insertion adds one. */
  ghost predicate FilesKept(s: Store, s': Store) {
    && s.nextFile <= s'.nextFile && IdsBelow(s')
    && forall f :: f in s'.files ==>
         f in s.files && s'.files[f].title == s.files[f].title && s'.files[f].version == s.files[f].version
  }

  lemma StatementKeepsFiles(sys: System, p: nat, e: Event, sys': System, w: World)
    requires IdsBelow(sys.store) && Step(sys, p, e, sys', w) && !e.Insert?
    ensures FilesKept(sys.store, sys'.store)
  {
  }

  lemma StatementKeepsVersions(sys: System, p: nat, e: Event, sys': System, w: World)
    requires VersionsSafe(sys) && Step(sys, p, e, sys', w) && UploadsWait(sys, p, e)
    ensures VersionsSafe(sys')
  {
    var t := TaskOf(sys, p);
    assert VersionAbove(sys.store, t);
    if !e.Insert? {
      StatementKeepsFiles(sys, p, e, sys', w);
    }
    forall q
      ensures VersionAbove(sys'.store, TaskOf(sys', q))
    {
      assert VersionAbove(sys.store, TaskOf(sys, q));
      assert e.Insert? && q != p && TaskOf(sys, q).Inserting? ==> !SameTitle(t, TaskOf(sys, q));
    }
    forall q, r | SameTitle(TaskOf(sys', q), TaskOf(sys', r))
      ensures q == r
    {
      assert q != p ==> TaskOf(sys', q) == TaskOf(sys, q);
      assert r != p ==> TaskOf(sys', r) == TaskOf(sys, r);
      assert SameTitle(TaskOf(sys, q), TaskOf(sys, r)) || e.ReadVersion?;
    }
  }

  /** In every interleaving in which uploads of a title wait for one another, its versions are distinct. */
  lemma {:induction false} VersionsStayDistinct(run: seq<System>, events: seq<(nat, Event)>, w: World, n: nat)
    requires Run(run, events, w) && n <= |events|
    requires forall i :: 0 <= i < n ==> UploadsWait(run[i], events[i].0, events[i].1)
    ensures VersionsSafe(run[n])
    ensures VersionsDistinct(run[n].store.files)
  {
    if n > 0 {
      VersionsStayDistinct(run, events, w, n - 1);
      StatementKeepsVersions(run[n - 1], events[n - 1].0, events[n - 1].1, run[n], w);
    }
  }

  /** An insertion keeps the versions of all titles distinct exactly when its own was not given out meanwhile. */
  lemma InsertKeepsDistinctIff(sys: System, p: nat, sys': System, w: World)
    requires IdsBelow(sys.store) && VersionsDistinct(sys.store.files) && Step(sys, p, Insert, sys', w)
    ensures VersionsDistinct(sys'.store.files)
       <==> TaskOf(sys, p).version !in Versions(sys.store.files, TaskOf(sys, p).title)
  {
    var t, s, s' := TaskOf(sys, p), sys.store, sys'.store;
    if t.version in Versions(s.files, t.title) {
      var f :| f in s.files && s.files[f].title == t.title && s.files[f].version == t.version;
      assert s'.files[f] == s.files[f] && s'.files[s.nextFile].version == t.version && f != s.nextFile;
    } else {
      forall f, g | f in s'.files && g in s'.files && f != g && s'.files[f].title == s'.files[g].title
        ensures s'.files[f].version != s'.files[g].version
      {
        assert f != s.nextFile ==> s.files[f].title == t.title ==> s.files[f].version in Versions(s.files, t.title);
        assert g != s.nextFile ==> s.files[g].title == t.title ==> s.files[g].version in Versions(s.files, t.title);
      }
    }
  }

  /** Two pending uploads with the same version of a title both insert it. */
  lemma SameVersionBreaks(sys: System, p: nat, q: nat, w: World)
    requires IdsBelow(sys.store) && p != q && SameTitle(TaskOf(sys, p), TaskOf(sys, q))
    requires TaskOf(sys, p).version == TaskOf(sys, q).version
    ensures exists mid: System, end: System ::
              Step(sys, p, Insert, mid, w) && Step(mid, q, Insert, end, w) && !VersionsDistinct(end.store.files)
  {
    var t, u, s := TaskOf(sys, p), TaskOf(sys, q), sys.store;
    var mid := Then(sys, p, InsertDraft(s, t.title, t.version, t.parts), Idle);
    var end := Then(mid, q, InsertDraft(mid.store, u.title, u.version, u.parts), Idle);
    assert end.store.files[s.nextFile].version == end.store.files[s.nextFile + 1].version;
    assert Step(sys, p, Insert, mid, w) && Step(mid, q, Insert, end, w);
  }

  // ---- texts ----

  /** Chunks of documents that are no drafts keep their text, or go with their document. */
  ghost predicate NonDraftTextsKept(s: Store, s': Store) {
    forall c :: c in s.chunks && !Editable(s, c) ==> TextKept(s, s', c)
  }

  predicate TextKept(s: Store, s': Store, c: nat)
    requires c in s.chunks
  {
    if c in s'.chunks then s'.chunks[c].part == s.chunks[c].part else s.chunks[c].file !in s'.files
  }

  predicate EditPending(t: Task) {
    t.Writing? || t.Removing?
  }

  /** No commit lands on the document of a chunk for which an edit has passed its check. */
  ghost predicate CommitsWait(sys: System, p: nat, e: Event) {
    e.CommitBoth? && TaskOf(sys, p).Replacing? ==> forall q :: !CommitHits(sys.store, TaskOf(sys, p), TaskOf(sys, q))
  }

  predicate CommitHits(s: Store, commit: Task, edit: Task)
    requires commit.Replacing?
  {
    && EditPending(edit) && edit.chunk in s.chunks
    && (s.chunks[edit.chunk].file == commit.id || s.chunks[edit.chunk].file in commit.others)
  }

  ghost predicate StillEditable(s: Store, t: Task) {
    EditPending(t) ==> t.chunk < s.nextChunk && (t.chunk in s.chunks ==> Editable(s, t.chunk))
  }

  ghost predicate EditsSafe(sys: System) {
    Consistent(sys.store) && forall p :: StillEditable(sys.store, TaskOf(sys, p))
  }

  /** Chunks stay with their documents, and no draft stops being one. */
  ghost predicate DraftsKept(s: Store, s': Store) {
    && Consistent(s) && Consistent(s') && s.nextChunk <= s'.nextChunk
    && (forall c :: c in s'.chunks && c !in s.chunks ==> s.nextChunk <= c)
    && (forall c :: c in s'.chunks && c in s.chunks ==> s'.chunks[c].file == s.chunks[c].file)
    && forall f :: f in s'.files && f in s.files && s.files[f].status == Draft ==> s'.files[f].status == Draft
  }

  lemma InsertKeepsDrafts(s: Store, title: string, version: nat, parts: seq<Part>)
    requires Consistent(s)
    ensures DraftsKept(s, InsertDraft(s, title, version, parts))
    ensures NonDraftTextsKept(s, InsertDraft(s, title, version, parts))
  {
    var s' := InsertDraft(s, title, version, parts);
    InsertKeepsTexts(s, title, version, parts);
    AddedChunks(s.chunks, s.nextChunk, s.nextFile, parts);
  }

  lemma StatementKeepsDrafts(sys: System, p: nat, e: Event, sys': System, w: World)
    requires Consistent(sys.store) && Step(sys, p, e, sys', w) && !e.CommitBoth?
    ensures DraftsKept(sys.store, sys'.store)
  {
    if e.Insert? {
      InsertKeepsDrafts(sys.store, TaskOf(sys, p).title, TaskOf(sys, p).version, TaskOf(sys, p).parts);
    }
  }

  lemma EditableKept(s: Store, s': Store, t: Task)
    requires DraftsKept(s, s') && StillEditable(s, t)
    ensures StillEditable(s', t)
  {
  }

  lemma StatementKeepsEdits(sys: System, p: nat, e: Event, sys': System, w: World)
    requires EditsSafe(sys) && Step(sys, p, e, sys', w) && CommitsWait(sys, p, e)
    ensures EditsSafe(sys')
  {
    if !e.CommitBoth? {
      StatementKeepsDrafts(sys, p, e, sys', w);
    }
    forall q
      ensures StillEditable(sys'.store, TaskOf(sys', q))
    {
      assert StillEditable(sys.store, TaskOf(sys, q));
      if e.CommitBoth? {
        assert !CommitHits(sys.store, TaskOf(sys, p), TaskOf(sys, q));
      } else {
        EditableKept(sys.store, sys'.store, TaskOf(sys, q));
      }
    }
  }

  /** A statement changes or removes a text that is not in a draft only if it is an edit whose document stopped being
      one after the check: then it does, unless the text is the same. */
  lemma TextsKeptIff(sys: System, p: nat, e: Event, sys': System, w: World)
    requires Consistent(sys.store) && Step(sys, p, e, sys', w)
    ensures NonDraftTextsKept(sys.store, sys'.store) <==> !LateEdit(sys, p, e)
  {
    if e.Insert? {
      InsertKeepsDrafts(sys.store, TaskOf(sys, p).title, TaskOf(sys, p).version, TaskOf(sys, p).parts);
    } else if LateEdit(sys, p, e) {
      assert !TextKept(sys.store, sys'.store, TaskOf(sys, p).chunk);
    }
  }

  predicate LateEdit(sys: System, p: nat, e: Event) {
    var s, t := sys.store, TaskOf(sys, p);
    && ((e.WriteText? && t.Writing?) || (e.DropRow? && t.Removing?))
    && t.chunk in s.chunks && !Editable(s, t.chunk)
    && (t.Writing? ==> s.chunks[t.chunk].part.text != t.text)
  }

  /** In every interleaving in which no commit lands on a document with a pending edit, texts outside drafts never
      change. */
  lemma {:induction false} TextsStayFrozen(run: seq<System>, events: seq<(nat, Event)>, w: World, n: nat)
    requires Run(run, events, w) && n <= |events|
    requires forall i :: 0 <= i < n ==> CommitsWait(run[i], events[i].0, events[i].1)
    ensures EditsSafe(run[n])
    ensures n > 0 ==> NonDraftTextsKept(run[n - 1].store, run[n].store)
  {
    if n > 0 {
      TextsStayFrozen(run, events, w, n - 1);
      var e := events[n - 1];
      StatementKeepsEdits(run[n - 1], e.0, e.1, run[n], w);
      assert StillEditable(run[n - 1].store, TaskOf(run[n - 1], e.0));
      TextsKeptIff(run[n - 1], e.0, e.1, run[n], w);
    }
  }

  /** Why TextsStayFrozen needs its waiting: after a commit that lands on a pending edit, the edit is a late one. */
  lemma LandingCommitBreaks(sys: System, p: nat, sys': System, q: nat, w: World)
    requires Consistent(sys.store) && p != q && Step(sys, p, CommitBoth, sys', w)
    requires CommitHits(sys.store, TaskOf(sys, p), TaskOf(sys, q)) && TaskOf(sys, q).Writing?
    requires sys.store.chunks[TaskOf(sys, q).chunk].part.text != TaskOf(sys, q).text
    ensures exists end: System :: Step(sys', q, WriteText, end, w) && !NonDraftTextsKept(sys'.store, end.store)
  {
    var t := TaskOf(sys', q);
    var end := Then(sys', q, SetText(sys'.store, t.chunk, t.text), Idle);
    assert Step(sys', q, WriteText, end, w) && LateEdit(sys', q, WriteText);
    TextsKeptIff(sys', q, WriteText, end, w);
  }

  // ---- vectors ----

  /** Once an edit has landed, a request that still has the vector of the old text to store can store it. */
  ghost predicate LeadsToOld(sys: System, p: nat, q: nat, w: World) {
    var c := if TaskOf(sys, p).Writing? then TaskOf(sys, p).chunk else 0;
    exists mid: System, end: System ::
      && Step(sys, p, WriteText, mid, w) && Step(mid, q, StoreVector(c), end, w)
      && Consistent(end.store) && !EmbeddingsCurrent(end.store, w.embed)
  }

  /** An edit that lands while a publication or a repair still has the vector of the old text to store leads to a wrong
      vector exactly when the new text has another vector and the old one has the expected length, without which the
      request breaks off. */
  lemma {:induction false} LandingEditBreaksIff(sys: System, p: nat, q: nat, w: World)
    requires VectorsSafe(sys, w) && p != q && TaskOf(sys, p).Writing? && Storing(TaskOf(sys, q))
    requires TaskOf(sys, p).chunk in TaskOf(sys, q).inputs && TaskOf(sys, p).chunk in sys.store.chunks
    ensures var t, u, c := TaskOf(sys, p), TaskOf(sys, q), TaskOf(sys, p).chunk;
            LeadsToOld(sys, p, q, w) <==>
              && |w.embed(u.model, u.inputs[c])| == u.dim
              && w.embed(u.model, EditedInput(sys.store, c, t.text)) != w.embed(u.model, u.inputs[c])
  {
    var s, t, u, c := sys.store, TaskOf(sys, p), TaskOf(sys, q), TaskOf(sys, p).chunk;
    var mid := Then(sys, p, SetText(s, c, t.text), Idle);
    var vector := w.embed(u.model, u.inputs[c]);
    var end := Then(mid, q, SetEmbedding(mid.store, c, ManualStore.Embedding(vector, u.model, u.dim)), Handled(u, c));
    CurrentKeptIff(sys, p, WriteText, mid, w);
    assert TaskOf(mid, q) == u && InputOf(mid.store, c) == EditedInput(s, c, t.text);
    if |vector| == u.dim {
      assert Step(mid, q, StoreVector(c), end, w);
      StoreKeepsCurrentIff(mid, q, c, end, w);
      assert Step(sys, p, WriteText, mid, w);
    }
  }

  /** What a chunk is embedded from after an edit. */
  function EditedInput(s: Store, c: nat, text: string): string
    requires c in s.chunks && s.chunks[c].file in s.files
  {
    EmbedInput(s.files[s.chunks[c].file].title, s.chunks[c].part.(text := text))
  }

  // ---- deletions ----

  /** The statement that PublishedRowsStay is about: a deletion takes a published version away exactly when its row is
      published at that moment, and no other row. */
  lemma ErasesPublishedIff(sys: System, p: nat, sys': System, w: World)
    requires Step(sys, p, Erase, sys', w)
    ensures var s, s', id := sys.store, sys'.store, TaskOf(sys, p).id;
            && (PublishedKept(s, s') <==> id !in s.files || s.files[id].status != Published)
            && forall f :: f in s.files && f != id ==> f in s'.files && s'.files[f] == s.files[f]
  {
    var s, id := sys.store, TaskOf(sys, p).id;
    assert id in s.files && s.files[id].status == Published ==> id !in sys'.store.files;
  }

  /** Published rows are still there, though they may have another status. */
  ghost predicate PublishedKept(s: Store, s': Store) {
    forall f :: f in s.files && s.files[f].status == Published ==> f in s'.files
  }

  /** No commit publishes a row for which a deletion has passed its check. */
  ghost predicate DeletionsFirst(sys: System, p: nat, e: Event) {
    e.CommitBoth? && TaskOf(sys, p).Replacing? ==>
      forall q :: TaskOf(sys, q).Erasing? ==> TaskOf(sys, q).id != TaskOf(sys, p).id
  }

  ghost predicate StillUnpublished(s: Store, t: Task) {
    t.Erasing? ==> t.id < s.nextFile && (t.id in s.files ==> s.files[t.id].status != Published)
  }

  ghost predicate ErasesSafe(sys: System) {
    IdsBelow(sys.store) && forall p :: StillUnpublished(sys.store, TaskOf(sys, p))
  }

  lemma StatementKeepsErases(sys: System, p: nat, e: Event, sys': System, w: World)
    requires ErasesSafe(sys) && Step(sys, p, e, sys', w) && DeletionsFirst(sys, p, e)
    ensures ErasesSafe(sys') && PublishedKept(sys.store, sys'.store)
  {
    assert StillUnpublished(sys.store, TaskOf(sys, p));
    forall q
      ensures StillUnpublished(sys'.store, TaskOf(sys', q))
    {
      assert StillUnpublished(sys.store, TaskOf(sys, q));
    }
  }

  /** In every interleaving in which commits keep clear of pending deletions, no published row is ever deleted. */
  lemma {:induction false} PublishedRowsStay(run: seq<System>, events: seq<(nat, Event)>, w: World, n: nat)
    requires Run(run, events, w) && n <= |events|
    requires forall i :: 0 <= i < n ==> DeletionsFirst(run[i], events[i].0, events[i].1)
    ensures ErasesSafe(run[n])
    ensures n > 0 ==> PublishedKept(run[n - 1].store, run[n].store)
  {
    if n > 0 {
      PublishedRowsStay(run, events, w, n - 1);
      StatementKeepsErases(run[n - 1], events[n - 1].0, events[n - 1].1, run[n], w);
    }
  }

  // ---- runs that reach these states ----

  lemma NextStep(run: seq<System>, events: seq<(nat, Event)>, w: World, p: nat, e: Event, next: System)
    requires Run(run, events, w) && Step(run[|events|], p, e, next, w)
    ensures Run(run + [next], events + [(p, e)], w)
  {
  }

  /** Two drafts of the same title, with nothing running. */
  const TWO_DRAFTS := Store(map[1 := File("t", 1, Draft), 2 := File("t", 2, Draft)], map[], 3, 1)

  lemma TwoDraftsReachable(w: World) returns (run: seq<System>, events: seq<(nat, Event)>)
    ensures Run(run, events, w) && run[|events|] == System(TWO_DRAFTS, map[1 := Idle])
  {
    run, events := [START], [];
    var s := System(EMPTY, map[1 := Inserting("t", 1, [])]);
    NextStep(run, events, w, 1, ReadVersion("t", 1, []), s);
    run, events := run + [s], events + [(1, ReadVersion("t", 1, []))];
    s := System(Store(map[1 := File("t", 1, Draft)], map[], 2, 1), map[1 := Idle]);
    NextStep(run, events, w, 1, Insert, s);
    run, events := run + [s], events + [(1, Insert)];
    assert 1 in Versions(s.store.files, "t") by {
      assert s.store.files[1].version == 1;
    }
    s := s.(tasks := map[1 := Inserting("t", 2, [])]);
    NextStep(run, events, w, 1, ReadVersion("t", 2, []), s);
    run, events := run + [s], events + [(1, ReadVersion("t", 2, []))];
    s := System(TWO_DRAFTS, map[1 := Idle]);
    NextStep(run, events, w, 1, Insert, s);
    run, events := run + [s], events + [(1, Insert)];
  }

  ghost predicate NobodyLocked(sys: System) {
    forall q :: !Locked(TaskOf(sys, q))
  }

  /** One request publishes a version without chunks up to its transaction. */
  lemma PublishesToLock(run: seq<System>, events: seq<(nat, Event)>, w: World, p: nat, id: nat)
    returns (run': seq<System>, events': seq<(nat, Event)>)
    requires Run(run, events, w)
    requires var sys := run[|events|]; TaskOf(sys, p).Idle? && sys.store.chunks == map[] && id in sys.store.files
    requires run[|events|].store.files[id].status != Published
    ensures Run(run', events', w)
    ensures var sys := run[|events|];
            run'[|events'|]
            == Then(sys, p, sys.store, Task.Embedding(id, sys.store.files[id].title, map[], "m", 1))
  {
    var sys := run[|events|];
    var store, title := sys.store, sys.store.files[id].title;
    var s := Then(sys, p, store, Listing(id, title));
    NextStep(run, events, w, p, CheckPublish(id), s);
    run', events' := run + [s], events + [(p, CheckPublish(id))];
    s := Then(sys, p, store, Task.Embedding(id, title, map[], "m", 1));
    assert Inputs(store, id, title) == map[];
    NextStep(run', events', w, p, ReadTexts("m", 1), s);
    run', events' := run' + [s], events' + [(p, ReadTexts("m", 1))];
  }

  /** And up to the point where the transaction commits. */
  lemma PublishesAlmost(run: seq<System>, events: seq<(nat, Event)>, w: World, p: nat, id: nat)
    returns (run': seq<System>, events': seq<(nat, Event)>)
    requires Run(run, events, w) && (w.locking ==> NobodyLocked(run[|events|]))
    requires var sys := run[|events|]; TaskOf(sys, p).Idle? && sys.store.chunks == map[] && id in sys.store.files
    requires run[|events|].store.files[id].status != Published
    ensures Run(run', events', w)
    ensures var sys := run[|events|]; var title := sys.store.files[id].title;
            run'[|events'|]
            == Then(sys, p, sys.store, Replacing(id, title, OtherPublished(sys.store.files, title, id)))
  {
    var sys := run[|events|];
    var store, title := sys.store, sys.store.files[id].title;
    run', events' := PublishesToLock(run, events, w, p, id);
    assert forall q :: TaskOf(run'[|events'|], q) == TaskOf(sys, q) || q == p;
    var s := Then(sys, p, store, Holding(id, title));
    NextStep(run', events', w, p, Lock, s);
    run', events' := run' + [s], events' + [(p, Lock)];
    s := Then(sys, p, store, Replacing(id, title, OtherPublished(store.files, title, id)));
    NextStep(run', events', w, p, Archive, s);
    run', events' := run' + [s], events' + [(p, Archive)];
  }

  /** Without the advisory lock two requests that publish at the same time leave two published versions. */
  lemma LockIsNeeded(w: World)
    requires !w.locking
    ensures exists run: seq<System>, events: seq<(nat, Event)> ::
              Run(run, events, w) && !AtMostOnePublished(run[|events|].store.files)
  {
    var run, events := TwoDraftsReachable(w);
    run, events := PublishesAlmost(run, events, w, 1, 1);
    run, events := PublishesAlmost(run, events, w, 2, 2);
    assert OtherPublished(TWO_DRAFTS.files, "t", 1) == {} == OtherPublished(TWO_DRAFTS.files, "t", 2);
    var sys := run[|events|];
    var files1 := Commit(TWO_DRAFTS.files, {}, 1);
    var s := Then(sys, 1, TWO_DRAFTS.(files := files1), Idle);
    NextStep(run, events, w, 1, CommitBoth, s);
    run, events := run + [s], events + [(1, CommitBoth)];
    s := Then(s, 2, TWO_DRAFTS.(files := Commit(files1, {}, 2)), Idle);
    NextStep(run, events, w, 2, CommitBoth, s);
    run, events := run + [s], events + [(2, CommitBoth)];
    assert BothPublished(s.store.files[1], s.store.files[2]);
  }

  /** The first version is published, the second is a draft. */
  const FIRST_PUBLISHED := TWO_DRAFTS.(files := map[1 := File("t", 1, Published), 2 := File("t", 2, Draft)])

  lemma FirstPublished(w: World) returns (run: seq<System>, events: seq<(nat, Event)>)
    ensures Run(run, events, w)
    ensures run[|events|] == System(FIRST_PUBLISHED, map[1 := Idle])
  {
    run, events := TwoDraftsReachable(w);
    run, events := PublishesAlmost(run, events, w, 1, 1);
    assert OtherPublished(TWO_DRAFTS.files, "t", 1) == {};
    var s := System(FIRST_PUBLISHED, map[1 := Idle]);
    NextStep(run, events, w, 1, CommitBoth, s);
    run, events := run + [s], events + [(1, CommitBoth)];
  }

  /** The second version is being published, and its row is deleted before the commit. */
  lemma SecondErased(w: World) returns (run: seq<System>, events: seq<(nat, Event)>)
    ensures Run(run, events, w)
    ensures run[|events|] == System(FIRST_PUBLISHED.(files := map[1 := File("t", 1, Published)]),
                                    map[1 := Replacing(2, "t", {1}), 2 := Idle])
  {
    run, events := FirstPublished(w);
    run, events := PublishesAlmost(run, events, w, 1, 2);
    assert OtherPublished(FIRST_PUBLISHED.files, "t", 2) == {1};
    var s := Then(run[|events|], 2, FIRST_PUBLISHED, Erasing(2));
    NextStep(run, events, w, 2, CheckDelete(2), s);
    run, events := run + [s], events + [(2, CheckDelete(2))];
    s := Then(s, 2, FIRST_PUBLISHED.(files := map[1 := File("t", 1, Published)]), Idle);
    NextStep(run, events, w, 2, Erase, s);
    run, events := run + [s], events + [(2, Erase)];
  }

  /** The draft that is being published is deleted: its commit leaves the title without a published version, though it
      had one before. */
  lemma DeletionLeavesNone(w: World)
    ensures exists run: seq<System>, events: seq<(nat, Event)>, p: nat, end: System ::
              && Run(run, events, w) && Step(run[|events|], p, CommitBoth, end, w)
              && PublishedOf(run[|events|].store.files, "t") == {1} && PublishedOf(end.store.files, "t") == {}
  {
    var run, events := SecondErased(w);
    var sys := run[|events|];
    var end := Then(sys, 1, sys.store.(files := Commit(sys.store.files, {1}, 2)), Idle);
    assert end.store.files[1].status == Archived;
    assert Step(sys, 1, CommitBoth, end, w);
    assert PublishedOf(sys.store.files, "t") == {1} && PublishedOf(end.store.files, "t") == {};
  }

  /** Two uploads of the same title that read the highest version before either inserts get the same version. */
  lemma UploadsCanShareVersion(w: World)
    ensures exists run: seq<System>, events: seq<(nat, Event)> ::
              Run(run, events, w) && !VersionsDistinct(run[|events|].store.files)
  {
    var run, events := [START], [];
    var read := ReadVersion("t", 1, []);
    var s := Then(START, 1, EMPTY, Inserting("t", 1, []));
    NextStep(run, events, w, 1, read, s);
    run, events := run + [s], events + [(1, read)];
    s := Then(s, 2, EMPTY, Inserting("t", 1, []));
    NextStep(run, events, w, 2, read, s);
    run, events := run + [s], events + [(2, read)];
    s := Then(s, 1, InsertDraft(EMPTY, "t", 1, []), Idle);
    NextStep(run, events, w, 1, Insert, s);
    run, events := run + [s], events + [(1, Insert)];
    s := Then(s, 2, InsertDraft(s.store, "t", 1, []), Idle);
    NextStep(run, events, w, 2, Insert, s);
    run, events := run + [s], events + [(2, Insert)];
    assert s.store.files[1].version == s.store.files[2].version;
  }

  /** One draft with one chunk, and the same after an edit. */
  const DRAFT := Store(map[1 := File("t", 1, Draft)], map[1 := Chunk(1, Part("", "", "a"), None)], 2, 2)
  const EDITED := DRAFT.(chunks := map[1 := Chunk(1, Part("", "", "b"), None)])

  lemma PlainInputs()
    ensures EmbedInput("t", Part("", "", "a")) == "t\na" && EmbedInput("t", Part("", "", "b")) == "t\nb"
  {
    assert NonEmpty(["t", "", ""]) == ["t"] by {
      assert ["t", "", ""][1..] == ["", ""] && ["", ""][1..] == [""];
    }
    assert "t" + "\n" + "a" == "t\na" && "t" + "\n" + "b" == "t\nb";
  }

  lemma DraftInputs()
    ensures Inputs(DRAFT, 1, "t") == map[1 := "t\na"]
  {
    PlainInputs();
    assert DRAFT.chunks[1].part == Part("", "", "a");
  }

  lemma DraftReachable(w: World) returns (run: seq<System>, events: seq<(nat, Event)>)
    ensures Run(run, events, w) && run[|events|] == System(DRAFT, map[1 := Idle])
  {
    run, events := [START], [];
    var parts := [Part("", "", "a")];
    var s := System(EMPTY, map[1 := Inserting("t", 1, parts)]);
    NextStep(run, events, w, 1, ReadVersion("t", 1, parts), s);
    run, events := run + [s], events + [(1, ReadVersion("t", 1, parts))];
    s := System(DRAFT, map[1 := Idle]);
    assert AddChunks(map[], 1, 1, parts) == DRAFT.chunks by {
      assert parts[..0] == [];
    }
    NextStep(run, events, w, 1, Insert, s);
    run, events := run + [s], events + [(1, Insert)];
  }

  /** The publication of the draft with its text still to be embedded. */
  function Pending(w: World): Task {
    Task.Embedding(1, "t", map[1 := "t\na"], "m", |w.embed("m", "t\na")|)
  }

  /** The publication has read the text, and an edit has passed its check. */
  lemma EditChecked(w: World) returns (run: seq<System>, events: seq<(nat, Event)>)
    ensures Run(run, events, w)
    ensures run[|events|] == System(DRAFT, map[1 := Pending(w), 2 := Writing(1, "b")])
  {
    run, events := DraftReachable(w);
    var s := System(DRAFT, map[1 := Listing(1, "t")]);
    NextStep(run, events, w, 1, CheckPublish(1), s);
    run, events := run + [s], events + [(1, CheckPublish(1))];
    DraftInputs();
    var read := ReadTexts("m", |w.embed("m", "t\na")|);
    s := System(DRAFT, map[1 := Pending(w)]);
    NextStep(run, events, w, 1, read, s);
    run, events := run + [s], events + [(1, read)];
    s := Then(s, 2, DRAFT, Writing(1, "b"));
    NextStep(run, events, w, 2, CheckEdit(1, "b"), s);
    run, events := run + [s], events + [(2, CheckEdit(1, "b"))];
  }

  /** The new text with the vector of the old one. */
  function OldVector(w: World): Store {
    var vector := w.embed("m", "t\na");
    SetEmbedding(EDITED, 1, ManualStore.Embedding(vector, "m", |vector|))
  }

  lemma WrongVector(w: World)
    requires w.embed("m", "t\na") != w.embed("m", "t\nb")
    ensures Consistent(OldVector(w)) && !EmbeddingsCurrent(OldVector(w), w.embed)
  {
    PlainInputs();
    assert !CurrentChunk(OldVector(w), w.embed, 1);
  }

  /** An edit that lands after the publication read the text leaves the new text with the vector of the old one. */
  lemma EditsMustWait(w: World)
    requires w.embed("m", "t\na") != w.embed("m", "t\nb")
    ensures exists run: seq<System>, events: seq<(nat, Event)> ::
              Run(run, events, w) && Consistent(run[|events|].store) && !EmbeddingsCurrent(run[|events|].store, w.embed)
  {
    var run, events := EditLanded(w);
    var s := Then(run[|events|], 1, OldVector(w), Handled(Pending(w), 1));
    NextStep(run, events, w, 1, StoreVector(1), s);
    run, events := run + [s], events + [(1, StoreVector(1))];
    WrongVector(w);
  }

  lemma EditLanded(w: World) returns (run: seq<System>, events: seq<(nat, Event)>)
    ensures Run(run, events, w)
    ensures run[|events|] == System(EDITED, map[1 := Pending(w), 2 := Idle])
  {
    run, events := EditChecked(w);
    var s := Then(run[|events|], 2, EDITED, Idle);
    NextStep(run, events, w, 2, WriteText, s);
    run, events := run + [s], events + [(2, WriteText)];
  }

  /** The server gave no vector, and the transaction has archived. */
  lemma EditBeforeCommit(w: World) returns (run: seq<System>, events: seq<(nat, Event)>)
    ensures Run(run, events, w)
    ensures run[|events|] == System(DRAFT, map[1 := Replacing(1, "t", {}), 2 := Writing(1, "b")])
  {
    run, events := EditChecked(w);
    var s := Then(run[|events|], 1, DRAFT, Handled(Pending(w), 1));
    NextStep(run, events, w, 1, SkipVector(1), s);
    run, events := run + [s], events + [(1, SkipVector(1))];
    s := Then(s, 1, DRAFT, Holding(1, "t"));
    NextStep(run, events, w, 1, Lock, s);
    run, events := run + [s], events + [(1, Lock)];
    s := Then(s, 1, DRAFT, Replacing(1, "t", {}));
    assert OtherPublished(DRAFT.files, "t", 1) == {};
    NextStep(run, events, w, 1, Archive, s);
    run, events := run + [s], events + [(1, Archive)];
  }

  /** The publication is over, and the edit has still not written. */
  lemma EditStillPending(w: World) returns (run: seq<System>, events: seq<(nat, Event)>)
    ensures Run(run, events, w)
    ensures run[|events|]
         == System(DRAFT.(files := map[1 := File("t", 1, Published)]), map[1 := Idle, 2 := Writing(1, "b")])
  {
    run, events := EditBeforeCommit(w);
    var s := Then(run[|events|], 1, DRAFT.(files := map[1 := File("t", 1, Published)]), Idle);
    NextStep(run, events, w, 1, CommitBoth, s);
    run, events := run + [s], events + [(1, CommitBoth)];
  }

  /** An edit that was allowed while the document was a draft can change its text after it was published. */
  lemma TextCanChangeAfterPublication(w: World)
    ensures exists run: seq<System>, events: seq<(nat, Event)> ::
              Run(run, events, w) && |events| > 0 && ChangesPublished(run[|events| - 1].store, run[|events|].store)
  {
    var run, events := EditStillPending(w);
    var s := run[|events|];
    var last := Then(s, 2, SetText(s.store, 1, "b"), Idle);
    NextStep(run, events, w, 2, WriteText, last);
    run, events := run + [last], events + [(2, WriteText)];
    assert ChangesPublished(s.store, last.store);
  }

  /** The text of chunk 1 changes although its document is published. */
  predicate ChangesPublished(s: Store, s': Store) {
    && 1 in s.chunks && 1 in s'.chunks && s.chunks[1].part != s'.chunks[1].part
    && s.chunks[1].file in s.files && s.files[s.chunks[1].file].status == Published
  }
}
