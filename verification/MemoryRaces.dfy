/** Recording, summarising and forgetting at the same time (shared/memory_store.py:98-225). A recording takes its row
    ids one by one and shows its rows when it commits. A summary reads the watermark, then the pending turns, asks the
    summariser, and stores. A deletion of everything of a user finds the memories, then the turns, then the conversation
    rows, and takes them away when it commits. Statements of different requests come in any order. */
module MemoryRaces {
  import opened Text
  import opened MemoryStore
  import opened MemoryWatermark

  datatype Task =
    | Idle
    | Recording(user: string, conv: Option<string>, said: seq<(string, string)>, done: nat, rows: map<nat, Turn>)
    | Reading(user: string, from: string, upto: nat)
    | Asking(user: string, from: string, ids: seq<nat>, shown: seq<(string, string)>)
    | Erasing(user: string, memories: set<nat>, turns: Option<set<nat>>)

  datatype Event =
    | Begin(user: string, conv: Option<string>, said: seq<(string, string)>)
    | InsertTurn
    | CommitTurns
    | ReadState(user: string, from: string)
    | ReadPending(every: int)
    | StoreSummary(summarizer: Summarizer, strip: string -> string)
    | GiveUp
    | EraseMemory(user: string, memory: nat)
    | FindMemories(user: string)
    | FindTurns
    | CommitErase

  datatype System = System(tables: Tables, log: seq<Call>, tasks: map<nat, Task>)

  const START := System(EMPTY, [], map[])

  function TaskOf(sys: System, p: nat): Task {
    if p in sys.tasks then sys.tasks[p] else Idle
  }

  function Then(sys: System, p: nat, t: Tables, task: Task): System {
    System(t, sys.log, sys.tasks[p := task])
  }

  /** The next turn of a recording; empty ones take no row. */
  function Inserted(t: Task, id: nat): Task
    requires t.Recording? && t.done < |t.said|
  {
    var (role, content) := t.said[t.done];
    if content == "" then t.(done := t.done + 1)
    else t.(done := t.done + 1, rows := t.rows[id := Turn(t.user, t.conv, role, content)])
  }

  function TakesRow(t: Task): nat
    requires t.Recording? && t.done < |t.said|
  {
    if t.said[t.done].1 == "" then 0 else 1
  }

  /** The commit shows the rows and counts the conversation up. */
  function Committed(t: Tables, r: Task): Tables
    requires r.Recording?
  {
    Count(t.(turns := t.turns + r.rows), r.user, r.conv, |r.said|)
  }

  /** Memories are added; the watermark is set if the conversation row is still there. */
  function Stored(t: Tables, user: string, from: string, last: nat, kept: seq<string>): Tables {
    var added := AddMemories(t, user, kept);
    if from in t.conversations then
      added.(conversations := t.conversations[from := t.conversations[from].(upto := last)])
    else added
  }

  function MemoriesOf(t: Tables, user: string): set<nat> {
    set m | m in t.memories && t.memories[m].user == user
  }

  function TurnsOf(t: Tables, user: string): set<nat> {
    set i | i in t.turns && t.turns[i].user == user
  }

  /** What was found goes, and the conversation rows of the user that are there by then. */
  function Erased(t: Tables, user: string, memories: set<nat>, turns: set<nat>): Tables {
    t.(memories := t.memories - memories, turns := t.turns - turns,
       conversations := map c | c in t.conversations && t.conversations[c].user != user :: t.conversations[c])
  }

  /** Found together and taken away at once, this is the deletion of everything. */
  lemma ErasedAtOnce(t: Tables, user: string)
    ensures Erased(t, user, MemoriesOf(t, user), TurnsOf(t, user)) == Forgotten(t, user, None)
  {
  }

  /** Request `p` executes its next statement `e`. */
  ghost predicate Step(sys: System, p: nat, e: Event, sys': System) {
    var t, task := sys.tables, TaskOf(sys, p);
    match e
    case Begin(user, conv, said) =>
      task.Idle? && sys' == Then(sys, p, t, Recording(user, conv, said, 0, map[]))
    case InsertTurn =>
      task.Recording? && task.done < |task.said|
      && sys' == Then(sys, p, t.(nextTurn := t.nextTurn + TakesRow(task)), Inserted(task, t.nextTurn))
    case CommitTurns =>
      task.Recording? && task.done == |task.said| && sys' == Then(sys, p, Committed(t, task), Idle)
    case ReadState(user, from) =>
      task.Idle? && from != "" && from in t.conversations
      && sys' == Then(sys, p, t, Reading(user, from, t.conversations[from].upto))
    case ReadPending(every) =>
      task.Reading?
      && var ids := Pending(t, task.from, task.user, task.upto, t.nextTurn);
         && Present(t.turns, ids)
         && sys' == Then(sys, p, t, if |ids| < every || ids == [] then Idle
                                    else Asking(task.user, task.from, ids, Shown(t.turns, ids)))
    case StoreSummary(summarizer, strip) =>
      task.Asking? && task.ids != [] && summarizer(task.shown).Some?
      && var kept := Kept(strip, summarizer(task.shown).value);
         sys' == System(Stored(t, task.user, task.from, task.ids[|task.ids| - 1], kept),
                        sys.log + [Call(task.user, task.from, task.ids, task.shown, summarizer, t.nextMemory, kept)],
                        sys.tasks[p := Idle])
    case GiveUp =>
      sys' == Then(sys, p, t, Idle)
    case EraseMemory(user, memory) =>
      task.Idle? && sys' == Then(sys, p, Forgotten(t, user, Some(memory)), Idle)
    case FindMemories(user) =>
      task.Idle? && sys' == Then(sys, p, t, Erasing(user, MemoriesOf(t, user), None))
    case FindTurns =>
      task.Erasing? && task.turns == None
      && sys' == Then(sys, p, t, task.(turns := Some(TurnsOf(t, task.user))))
    case CommitErase =>
      task.Erasing? && task.turns.Some?
      && sys' == Then(sys, p, Erased(t, task.user, task.memories, task.turns.value), Idle)
  }

  function BookOf(sys: System): Book {
    Book(sys.tables, map[], sys.log)
  }

  /** A recording after its first `n` turns, with nothing in between. */
  function InsertedTurns(t: Tables, user: string, conv: Option<string>, said: seq<(string, string)>, n: nat)
    : (r: (Tables, Task))
    requires n <= |said|
    ensures r.1.Recording? && r.1.said == said && r.1.done == n && r.1.user == user && r.1.conv == conv
  {
    if n == 0 then (t, Recording(user, conv, said, 0, map[]))
    else
      var (t1, task) := InsertedTurns(t, user, conv, said, n - 1);
      (t1.(nextTurn := t1.nextTurn + TakesRow(task)), Inserted(task, t1.nextTurn))
  }

  lemma {:induction false} InsertedIsAdded(t: Tables, user: string, conv: Option<string>, said: seq<(string, string)>,
                                           n: nat)
    requires n <= |said|
    ensures var (t1, task) := InsertedTurns(t, user, conv, said, n);
            t1.(turns := t1.turns + task.rows) == AddTurns(t, user, conv, said[..n]) && t1.turns == t.turns
  {
    if n == 0 {
      assert t.turns + map[] == t.turns;
    } else {
      var (t1, task) := InsertedTurns(t, user, conv, said, n - 1);
      InsertedIsAdded(t, user, conv, said, n - 1);
      OneMoreRow(t1.turns, task.rows, t1.nextTurn, Turn(user, conv, said[n - 1].0, said[n - 1].1));
      AddTurnsStep(t, user, conv, said, n);
    }
  }

  lemma OneMoreRow(turns: map<nat, Turn>, rows: map<nat, Turn>, id: nat, turn: Turn)
    ensures turns + rows[id := turn] == (turns + rows)[id := turn]
  {
  }

  lemma AddTurnsStep(t: Tables, user: string, conv: Option<string>, said: seq<(string, string)>, n: nat)
    requires 0 < n <= |said|
    ensures var before, turn := AddTurns(t, user, conv, said[..n - 1]), said[n - 1];
            AddTurns(t, user, conv, said[..n])
            == if turn.1 == "" then before
               else before.(turns := before.turns[before.nextTurn := Turn(user, conv, turn.0, turn.1)],
                            nextTurn := before.nextTurn + 1)
  {
    assert said[..n][..n - 1] == said[..n - 1];
  }

  /** A recording that nothing interrupts is that of the serial model. */
  lemma RecordedAtOnce(t: Tables, user: string, conv: Option<string>, said: seq<(string, string)>)
    ensures var (t1, task) := InsertedTurns(t, user, conv, said, |said|);
            Committed(t1, task) == Recorded(t, user, conv, said)
  {
    InsertedIsAdded(t, user, conv, said, |said|);
    assert said[..|said|] == said;
  }

  /** So is a summary. */
  lemma SummarizedAtOnce(sys: System, read: System, asked: System, done: System, p: nat, user: string, from: string,
                         every: int, summarizer: Summarizer, strip: string -> string)
    requires Step(sys, p, ReadState(user, from), read) && Step(read, p, ReadPending(every), asked)
    requires TaskOf(asked, p).Asking? && Step(asked, p, StoreSummary(summarizer, strip), done)
    ensures var book := Do(BookOf(sys), Summarize(user, Some(from), every, summarizer), strip);
            done.tables == book.tables && done.log == book.log
    ensures Due(sys.tables, user, Some(from), every, summarizer).Some?
  {
  }

  ghost predicate Interleaving(run: seq<System>, events: seq<(nat, Event)>) {
    && |run| == |events| + 1 && run[0] == START
    && forall i :: 0 <= i < |events| ==> Step(run[i], events[i].0, events[i].1, run[i + 1])
  }

  // ---- what every run keeps ----

  /** A row id that was given out and is not waiting for a commit. */
  ghost predicate Settled(sys: System, id: nat) {
    0 < id < sys.tables.nextTurn && forall p :: !Waits(TaskOf(sys, p), id)
  }

  predicate Waits(t: Task, id: nat) {
    t.Recording? && id in t.rows
  }

  ghost predicate AllSettled(sys: System, ids: seq<nat>) {
    forall i :: 0 <= i < |ids| ==> Settled(sys, ids[i])
  }

  /** The rows of a recording have ids of their own. */
  ghost predicate RowsFresh(sys: System, t: Task) {
    t.Recording? ==> forall id :: id in t.rows ==>
      0 < id < sys.tables.nextTurn && id !in sys.tables.turns && t.rows[id].conv == t.conv && t.rows[id].user == t.user
  }

  ghost predicate IdsSettled(sys: System, t: Task) {
    t.Asking? ==> t.ids != [] && Increasing(t.ids) && AllSettled(sys, t.ids)
  }

  ghost predicate WellFormed(sys: System, c: string) {
    && Numbered(sys.tables) && AllSettled(sys, Handed(sys.log, c))
    && (forall id :: id in sys.tables.turns ==> Settled(sys, id))
    && (forall p :: RowsFresh(sys, TaskOf(sys, p)) && IdsSettled(sys, TaskOf(sys, p)))
    && forall p, q, id: nat :: Waits(TaskOf(sys, p), id) && Waits(TaskOf(sys, q), id) ==> p == q
  }

  lemma SettledStays(sys: System, p: nat, e: Event, sys': System, id: nat)
    requires Step(sys, p, e, sys') && Settled(sys, id)
    ensures Settled(sys', id)
  {
    StepNumbers(sys, p, e, sys');
    forall q
      ensures !Waits(TaskOf(sys', q), id)
    {
      assert !Waits(TaskOf(sys, q), id) && !Waits(TaskOf(sys, p), id);
    }
  }

  lemma {:induction false} MemoriesOnly(t: Tables, user: string, facts: seq<string>)
    ensures var t' := AddMemories(t, user, facts);
            t'.turns == t.turns && t'.conversations == t.conversations && t'.nextTurn == t.nextTurn
  {
    if facts != [] {
      MemoriesOnly(t, user, facts[..|facts| - 1]);
    }
  }

  lemma StepNumbers(sys: System, p: nat, e: Event, sys': System)
    requires Step(sys, p, e, sys')
    ensures sys.tables.nextTurn <= sys'.tables.nextTurn
    ensures !e.InsertTurn? ==> sys'.tables.nextTurn == sys.tables.nextTurn
    ensures !e.CommitTurns? && !e.CommitErase? ==> sys'.tables.turns == sys.tables.turns
    ensures !e.CommitTurns? ==> forall id :: id in sys'.tables.turns ==>
              id in sys.tables.turns && sys'.tables.turns[id] == sys.tables.turns[id]
  {
    if e.StoreSummary? {
      MemoriesOnly(sys.tables, TaskOf(sys, p).user, Kept(e.strip, e.summarizer(TaskOf(sys, p).shown).value));
    }
  }

  lemma AllSettledStays(sys: System, p: nat, e: Event, sys': System, ids: seq<nat>)
    requires Step(sys, p, e, sys') && AllSettled(sys, ids)
    ensures AllSettled(sys', ids)
  {
    forall i | 0 <= i < |ids|
      ensures Settled(sys', ids[i])
    {
      SettledStays(sys, p, e, sys', ids[i]);
    }
  }

  /** The rows of a task come from its own insertions. */
  lemma WaitsFrom(sys: System, p: nat, e: Event, sys': System, q: nat, id: nat)
    requires Step(sys, p, e, sys') && Waits(TaskOf(sys', q), id)
    ensures Waits(TaskOf(sys, q), id) || (q == p && e.InsertTurn? && id == sys.tables.nextTurn)
  {
  }

  lemma RowsStayFresh(sys: System, p: nat, e: Event, sys': System, q: nat, c: string)
    requires WellFormed(sys, c) && Step(sys, p, e, sys')
    ensures RowsFresh(sys', TaskOf(sys', q))
  {
    StepNumbers(sys, p, e, sys');
    assert RowsFresh(sys, TaskOf(sys, q)) && RowsFresh(sys, TaskOf(sys, p));
    var t := TaskOf(sys', q);
    if t.Recording? {
      forall id | id in t.rows
        ensures id !in sys'.tables.turns
      {
        assert Waits(t, id);
        WaitsFrom(sys, p, e, sys', q, id);
        if e.CommitTurns? {
          assert Waits(TaskOf(sys, q), id) && (Waits(TaskOf(sys, p), id) ==> p == q);
        } else if e.InsertTurn? && id == sys.tables.nextTurn {
          assert id in sys.tables.turns ==> Settled(sys, id);
        }
      }
    }
  }

  lemma IdsStaySettled(sys: System, p: nat, e: Event, sys': System, q: nat, c: string)
    requires WellFormed(sys, c) && Step(sys, p, e, sys')
    ensures IdsSettled(sys', TaskOf(sys', q))
  {
    assert IdsSettled(sys, TaskOf(sys, q));
    var t := TaskOf(sys', q);
    if t.Asking? {
      if q == p {
        var r := TaskOf(sys, p);
        PendingExact(sys.tables, r.from, r.user, r.upto, sys.tables.nextTurn);
        forall i | 0 <= i < |t.ids|
          ensures Settled(sys, t.ids[i])
        {
          assert t.ids[i] in t.ids;
        }
      }
      AllSettledStays(sys, p, e, sys', t.ids);
    }
  }

  /** Turns come from a commit, and their rows wait no longer. */
  lemma TurnsStaySettled(sys: System, p: nat, e: Event, sys': System, c: string, id: nat)
    requires WellFormed(sys, c) && Step(sys, p, e, sys') && id in sys'.tables.turns
    ensures Settled(sys', id)
  {
    StepNumbers(sys, p, e, sys');
    assert RowsFresh(sys, TaskOf(sys, p));
    if id in sys.tables.turns {
      SettledStays(sys, p, e, sys', id);
    } else {
      assert Waits(TaskOf(sys, p), id);
      forall q
        ensures !Waits(TaskOf(sys', q), id)
      {
        if Waits(TaskOf(sys', q), id) {
          WaitsFrom(sys, p, e, sys', q, id);
        }
      }
    }
  }

  lemma LogStaysSettled(sys: System, p: nat, e: Event, sys': System, c: string)
    requires WellFormed(sys, c) && Step(sys, p, e, sys')
    ensures AllSettled(sys', Handed(sys'.log, c))
  {
    AllSettledStays(sys, p, e, sys', Handed(sys.log, c));
    if e.StoreSummary? {
      var t := TaskOf(sys, p);
      assert IdsSettled(sys, t);
      AllSettledStays(sys, p, e, sys', t.ids);
      assert sys'.log[..|sys.log|] == sys.log;
    }
  }

  lemma NumberedStays(sys: System, p: nat, e: Event, sys': System, c: string)
    requires WellFormed(sys, c) && Step(sys, p, e, sys')
    ensures Numbered(sys'.tables)
  {
    StepNumbers(sys, p, e, sys');
    assert RowsFresh(sys, TaskOf(sys, p));
    if e.StoreSummary? {
      AddedMemories(sys.tables, TaskOf(sys, p).user, Kept(e.strip, e.summarizer(TaskOf(sys, p).shown).value));
    }
  }

  lemma StaysWellFormed(sys: System, p: nat, e: Event, sys': System, c: string)
    requires WellFormed(sys, c) && Step(sys, p, e, sys')
    ensures WellFormed(sys', c)
  {
    NumberedStays(sys, p, e, sys', c);
    LogStaysSettled(sys, p, e, sys', c);
    forall id | id in sys'.tables.turns
      ensures Settled(sys', id)
    {
      TurnsStaySettled(sys, p, e, sys', c, id);
    }
    forall q
      ensures RowsFresh(sys', TaskOf(sys', q)) && IdsSettled(sys', TaskOf(sys', q))
    {
      RowsStayFresh(sys, p, e, sys', q, c);
      IdsStaySettled(sys, p, e, sys', q, c);
    }
    forall q, r, id: nat | Waits(TaskOf(sys', q), id) && Waits(TaskOf(sys', r), id)
      ensures q == r
    {
      WaitsFrom(sys, p, e, sys', q, id);
      WaitsFrom(sys, p, e, sys', r, id);
      OneWaits(sys, c, q, r, id);
    }
  }

  lemma OneWaits(sys: System, c: string, q: nat, r: nat, id: nat)
    requires WellFormed(sys, c)
    ensures Waits(TaskOf(sys, q), id) && Waits(TaskOf(sys, r), id) ==> q == r
    ensures Waits(TaskOf(sys, q), id) || Waits(TaskOf(sys, r), id) ==> id < sys.tables.nextTurn
  {
    assert RowsFresh(sys, TaskOf(sys, q)) && RowsFresh(sys, TaskOf(sys, r));
  }

  lemma {:induction false} RunWellFormed(run: seq<System>, events: seq<(nat, Event)>, c: string, n: nat)
    requires Interleaving(run, events) && n <= |events|
    ensures WellFormed(run[n], c)
  {
    if n > 0 {
      RunWellFormed(run, events, c, n - 1);
      StaysWellFormed(run[n - 1], events[n - 1].0, events[n - 1].1, run[n], c);
    }
  }

  // ---- when the watermark falls ----

  /** A summary that stores a watermark below the present one. */
  predicate LateSummary(sys: System, p: nat, e: Event, c: string) {
    var t := TaskOf(sys, p);
    && e.StoreSummary? && t.Asking? && t.from == c && t.ids != [] && c in sys.tables.conversations
    && t.ids[|t.ids| - 1] < Watermark(sys.tables, c)
  }

  /** The row of the conversation goes with everything of its user. */
  predicate RowErased(sys: System, p: nat, e: Event, c: string) {
    && e.CommitErase? && TaskOf(sys, p).Erasing?
    && c in sys.tables.conversations && sys.tables.conversations[c].user == TaskOf(sys, p).user
  }

  /** A statement lowers the watermark of a conversation exactly when it is a late summary, or a deletion of the row
      whose watermark was not zero. */
  lemma WatermarkFallsIff(sys: System, p: nat, e: Event, sys': System, c: string)
    requires Step(sys, p, e, sys')
    ensures Watermark(sys'.tables, c) < Watermark(sys.tables, c)
       <==> LateSummary(sys, p, e, c) || (RowErased(sys, p, e, c) && Watermark(sys.tables, c) > 0)
  {
    if e.StoreSummary? {
      MemoriesOnly(sys.tables, TaskOf(sys, p).user, Kept(e.strip, e.summarizer(TaskOf(sys, p).shown).value));
    }
  }

  predicate Summarizing(t: Task, c: string) {
    (t.Reading? || t.Asking?) && t.from == c
  }

  /** No summary of the conversation begins while another has read the watermark and not stored. */
  ghost predicate SummariesWait(sys: System, p: nat, e: Event, c: string) {
    e.ReadState? && e.from == c ==> forall q :: !Summarizing(TaskOf(sys, q), c)
  }

  /** A summary under way will not lower the watermark. */
  predicate WillRaise(t: Tables, task: Task, c: string) {
    Summarizing(task, c) ==>
      if task.Reading? then Watermark(t, c) <= task.upto
      else task.ids != [] && Watermark(t, c) < task.ids[|task.ids| - 1]
  }

  ghost predicate OneSummary(sys: System, c: string) {
    && (forall p, q :: Summarizing(TaskOf(sys, p), c) && Summarizing(TaskOf(sys, q), c) ==> p == q)
    && forall p :: WillRaise(sys.tables, TaskOf(sys, p), c)
  }

  lemma SummarizingFrom(sys: System, p: nat, e: Event, sys': System, q: nat, c: string)
    requires Step(sys, p, e, sys') && Summarizing(TaskOf(sys', q), c)
    ensures Summarizing(TaskOf(sys, q), c) || (q == p && e.ReadState? && e.from == c)
  {
  }

  lemma OnlySummariesRaise(sys: System, p: nat, e: Event, sys': System, c: string)
    requires Step(sys, p, e, sys') && (e.StoreSummary? ==> TaskOf(sys, p).from != c)
    ensures Watermark(sys'.tables, c) <= Watermark(sys.tables, c)
  {
    if e.StoreSummary? {
      MemoriesOnly(sys.tables, TaskOf(sys, p).user, Kept(e.strip, e.summarizer(TaskOf(sys, p).shown).value));
    }
  }

  lemma RaiseAgain(sys: System, p: nat, e: Event, sys': System, q: nat, c: string)
    requires OneSummary(sys, c) && Step(sys, p, e, sys') && SummariesWait(sys, p, e, c)
    ensures WillRaise(sys'.tables, TaskOf(sys', q), c)
  {
    var t := TaskOf(sys', q);
    assert WillRaise(sys.tables, TaskOf(sys, q), c);
    assert e.StoreSummary? && TaskOf(sys, p).from == c ==> Summarizing(TaskOf(sys, p), c);
    if Summarizing(t, c) {
      SummarizingFrom(sys, p, e, sys', q, c);
      OnlySummariesRaise(sys, p, e, sys', c);
      if q == p && e.ReadPending? {
        var r := TaskOf(sys, p);
        PendingExact(sys.tables, r.from, r.user, r.upto, sys.tables.nextTurn);
        assert t.ids[|t.ids| - 1] in t.ids;
      }
    }
  }

  lemma StaysOneSummary(sys: System, p: nat, e: Event, sys': System, c: string)
    requires OneSummary(sys, c) && Step(sys, p, e, sys') && SummariesWait(sys, p, e, c)
    ensures OneSummary(sys', c) && !LateSummary(sys, p, e, c)
  {
    assert WillRaise(sys.tables, TaskOf(sys, p), c);
    forall q
      ensures WillRaise(sys'.tables, TaskOf(sys', q), c)
    {
      RaiseAgain(sys, p, e, sys', q, c);
    }
    forall q, r | Summarizing(TaskOf(sys', q), c) && Summarizing(TaskOf(sys', r), c)
      ensures q == r
    {
      SummarizingFrom(sys, p, e, sys', q, c);
      SummarizingFrom(sys, p, e, sys', r, c);
    }
  }

  /** In every interleaving in which the summaries of a conversation wait for one another, whoever shares it: its
      watermark never falls, except with everything of the user of its row. */
  lemma {:induction false} WatermarkNeverFalls(run: seq<System>, events: seq<(nat, Event)>, c: string, n: nat)
    requires Interleaving(run, events) && n <= |events|
    requires forall i :: 0 <= i < n ==> SummariesWait(run[i], events[i].0, events[i].1, c)
    ensures OneSummary(run[n], c)
    ensures n > 0 ==> Watermark(run[n - 1].tables, c) <= Watermark(run[n].tables, c)
                      || RowErased(run[n - 1], events[n - 1].0, events[n - 1].1, c)
  {
    if n > 0 {
      WatermarkNeverFalls(run, events, c, n - 1);
      StaysOneSummary(run[n - 1], events[n - 1].0, events[n - 1].1, run[n], c);
      WatermarkFallsIff(run[n - 1], events[n - 1].0, events[n - 1].1, run[n], c);
    }
  }

  // ---- when the watermark stays exact ----

  /** A committed row at or below the watermark, or below a turn that was handed out already. */
  predicate LateRow(sys: System, r: Task, c: string, id: nat) {
    && r.Recording? && r.conv == Some(c) && id in r.rows
    && (id <= Watermark(sys.tables, c) || !Above(id, Handed(sys.log, c)))
  }

  ghost predicate LateCommit(sys: System, p: nat, e: Event, c: string) {
    e.CommitTurns? && exists id: nat :: LateRow(sys, TaskOf(sys, p), c, id)
  }

  /** The stored summary moves the watermark over this turn, or leaves it behind where there is no watermark. */
  predicate SkippedBy(sys: System, t: Task, c: string, id: nat)
    requires t.Asking? && t.ids != []
  {
    && InConversation(sys.tables, c, id) && id <= t.ids[|t.ids| - 1]
    && if c in sys.tables.conversations then Watermark(sys.tables, c) < id && id !in t.ids else true
  }

  /** A summary that stores after another call was handed its first turn or a later one, or skips a turn. */
  ghost predicate Overtaken(sys: System, p: nat, e: Event, c: string) {
    var t := TaskOf(sys, p);
    && e.StoreSummary? && t.Asking? && t.from == c && t.ids != []
    && (!Above(t.ids[0], Handed(sys.log, c)) || exists id: nat :: SkippedBy(sys, t, c, id))
  }

  /** The row goes, and this turn that was handed out stays: another user's, or one committed since the turns were
      found. */
  predicate StaysBehind(sys: System, t: Task, c: string, id: nat)
    requires t.Erasing? && t.turns.Some?
  {
    InConversation(sys.tables, c, id) && id !in t.turns.value && id in Handed(sys.log, c)
  }

  ghost predicate EraseLeaves(sys: System, p: nat, e: Event, c: string) {
    var t := TaskOf(sys, p);
    RowErased(sys, p, e, c) && t.turns.Some? && exists id: nat :: StaysBehind(sys, t, c, id)
  }

  ghost predicate Harmful(sys: System, p: nat, e: Event, c: string) {
    LateCommit(sys, p, e, c) || Overtaken(sys, p, e, c) || EraseLeaves(sys, p, e, c)
  }

  lemma QuietKeepsExact(sys: System, p: nat, e: Event, sys': System, c: string)
    requires Step(sys, p, e, sys') && Exact(BookOf(sys), c)
    requires !e.CommitTurns? && !e.StoreSummary? && !e.CommitErase?
    ensures Exact(BookOf(sys'), c)
  {
    SameWatermark(BookOf(sys), BookOf(sys'), c);
  }

  lemma CommitExactIff(sys: System, p: nat, sys': System, c: string)
    requires WellFormed(sys, c) && Step(sys, p, CommitTurns, sys') && Exact(BookOf(sys), c)
    ensures Exact(BookOf(sys'), c) <==> !LateCommit(sys, p, CommitTurns, c)
  {
    var r, handed := TaskOf(sys, p), Handed(sys.log, c);
    assert RowsFresh(sys, r);
    if LateCommit(sys, p, CommitTurns, c) {
      var id: nat :| LateRow(sys, r, c, id);
      NotHandedYet(sys, p, c, id);
      assert InConversation(sys'.tables, c, id);
    } else {
      forall id: nat | InConversation(sys'.tables, c, id)
        ensures (id in handed <==> id <= Watermark(sys.tables, c)) && (id !in handed ==> Above(id, handed))
      {
        if id in r.rows {
          NotHandedYet(sys, p, c, id);
          assert !LateRow(sys, r, c, id);
        } else {
          assert InConversation(sys.tables, c, id);
        }
      }
    }
  }

  /** A row that waits for its commit was handed to no call. */
  lemma NotHandedYet(sys: System, p: nat, c: string, id: nat)
    requires WellFormed(sys, c) && Waits(TaskOf(sys, p), id)
    ensures id !in Handed(sys.log, c)
  {
    var handed := Handed(sys.log, c);
    forall i | 0 <= i < |handed|
      ensures handed[i] != id
    {
      assert Settled(sys, handed[i]);
    }
  }

  lemma StoreEffect(sys: System, p: nat, e: Event, sys': System, c: string)
    requires Step(sys, p, e, sys') && e.StoreSummary?
    ensures var t := TaskOf(sys, p);
            && sys'.tables.turns == sys.tables.turns && sys'.tables.nextTurn == sys.tables.nextTurn
            && Handed(sys'.log, c) == Handed(sys.log, c) + (if t.from == c then t.ids else [])
            && Watermark(sys'.tables, c) ==
               if t.from == c && c in sys.tables.conversations then t.ids[|t.ids| - 1] else Watermark(sys.tables, c)
  {
    MemoriesOnly(sys.tables, TaskOf(sys, p).user, Kept(e.strip, e.summarizer(TaskOf(sys, p).shown).value));
    assert sys'.log[..|sys.log|] == sys.log;
  }

  lemma IncreasingParts(a: seq<nat>, b: seq<nat>)
    requires Increasing(a) && Increasing(b) && b != []
    ensures Increasing(a + b) <==> Above(b[0], a)
  {
    if Increasing(a + b) {
      forall i | 0 <= i < |a|
        ensures a[i] < b[0]
      {
        assert (a + b)[i] < (a + b)[|a|];
      }
    }
  }

  lemma StoreExactIff(sys: System, p: nat, e: Event, sys': System, c: string)
    requires WellFormed(sys, c) && Step(sys, p, e, sys') && Exact(BookOf(sys), c)
    requires e.StoreSummary? && TaskOf(sys, p).from == c
    ensures Exact(BookOf(sys'), c) <==> !Overtaken(sys, p, e, c)
  {
    var t, handed := TaskOf(sys, p), Handed(sys.log, c);
    assert IdsSettled(sys, t);
    StoreEffect(sys, p, e, sys', c);
    IncreasingParts(handed, t.ids);
    if Above(t.ids[0], handed) {
      if id: nat :| SkippedBy(sys, t, c, id) {
        SkippedEndsExact(sys, p, e, sys', c, id);
      } else {
        NothingSkipped(sys, p, e, sys', c);
      }
    }
  }

  lemma NotAbove(id: nat, a: seq<nat>, b: seq<nat>)
    requires b != [] && id <= b[|b| - 1]
    ensures !Above(id, a + b)
  {
    assert (a + b)[|a| + |b| - 1] == b[|b| - 1];
  }

  lemma SkippedEndsExact(sys: System, p: nat, e: Event, sys': System, c: string, id: nat)
    requires WellFormed(sys, c) && Step(sys, p, e, sys') && Exact(BookOf(sys), c)
    requires e.StoreSummary? && TaskOf(sys, p).from == c && SkippedBy(sys, TaskOf(sys, p), c, id)
    ensures !Exact(BookOf(sys'), c)
  {
    var t, handed := TaskOf(sys, p), Handed(sys.log, c);
    StoreEffect(sys, p, e, sys', c);
    assert Settled(sys, id) && InConversation(sys'.tables, c, id);
    assert id in handed + t.ids <==> id in handed || id in t.ids;
    NotAbove(id, handed, t.ids);
  }

  lemma NothingSkipped(sys: System, p: nat, e: Event, sys': System, c: string)
    requires WellFormed(sys, c) && Step(sys, p, e, sys') && Exact(BookOf(sys), c)
    requires e.StoreSummary? && TaskOf(sys, p).from == c && Above(TaskOf(sys, p).ids[0], Handed(sys.log, c))
    requires forall id: nat :: !SkippedBy(sys, TaskOf(sys, p), c, id)
    ensures Exact(BookOf(sys'), c)
  {
    var t, handed := TaskOf(sys, p), Handed(sys.log, c);
    var last := t.ids[|t.ids| - 1];
    assert IdsSettled(sys, t);
    StoreEffect(sys, p, e, sys', c);
    IncreasingParts(handed, t.ids);
    assert Settled(sys, last);
    forall i | 0 <= i < |t.ids|
      ensures 0 < t.ids[i] <= last && t.ids[0] <= t.ids[i] && t.ids[i] < sys.tables.nextTurn
    {
      assert Settled(sys, t.ids[i]);
    }
    AboveAppend(sys.tables.nextTurn, handed, t.ids);
    forall id: nat | InConversation(sys.tables, c, id)
      ensures id in handed + t.ids <==> id <= Watermark(sys'.tables, c)
      ensures id !in handed + t.ids ==> Above(id, handed + t.ids)
    {
      assert !SkippedBy(sys, t, c, id);
      assert id in handed ==> id < t.ids[0];
      if id !in handed + t.ids {
        AboveAppend(id, handed, t.ids);
      }
    }
  }

  lemma EraseExactIff(sys: System, p: nat, e: Event, sys': System, c: string)
    requires WellFormed(sys, c) && Step(sys, p, e, sys') && Exact(BookOf(sys), c) && e.CommitErase?
    ensures Exact(BookOf(sys'), c) <==> !EraseLeaves(sys, p, e, c)
  {
    var t := TaskOf(sys, p);
    if EraseLeaves(sys, p, e, c) {
      var id: nat :| StaysBehind(sys, t, c, id);
      assert InConversation(sys'.tables, c, id) && Settled(sys, id);
    } else if RowErased(sys, p, e, c) {
      forall id: nat | InConversation(sys'.tables, c, id)
        ensures InConversation(sys.tables, c, id) && id !in Handed(sys.log, c) && id > 0
      {
        assert !StaysBehind(sys, t, c, id) && Settled(sys, id);
      }
    } else {
      SameWatermark(BookOf(sys), BookOf(sys'), c);
    }
  }

  /** From an exact state, whoever shares the conversation and whatever else is under way, a statement keeps the
      watermark exact if and only if it is no late commit, no summary that was overtaken, and no deletion that leaves a
      handed-out turn behind. */
  lemma StepExactIff(sys: System, p: nat, e: Event, sys': System, c: string)
    requires WellFormed(sys, c) && Step(sys, p, e, sys') && Exact(BookOf(sys), c)
    ensures Exact(BookOf(sys'), c) <==> !Harmful(sys, p, e, c)
  {
    HarmfulCases(sys, p, e, c);
    if e.CommitTurns? {
      CommitExactIff(sys, p, sys', c);
    } else if e.StoreSummary? {
      if TaskOf(sys, p).from == c {
        StoreExactIff(sys, p, e, sys', c);
      } else {
        StoreElsewhere(sys, p, e, sys', c);
      }
    } else if e.CommitErase? {
      EraseExactIff(sys, p, e, sys', c);
    } else {
      QuietKeepsExact(sys, p, e, sys', c);
    }
  }

  lemma HarmfulCases(sys: System, p: nat, e: Event, c: string)
    ensures Harmful(sys, p, e, c) <==>
              if e.CommitTurns? then LateCommit(sys, p, e, c)
              else if e.StoreSummary? then Overtaken(sys, p, e, c)
              else EraseLeaves(sys, p, e, c)
    ensures EraseLeaves(sys, p, e, c) ==> e.CommitErase?
  {
  }

  lemma StoreElsewhere(sys: System, p: nat, e: Event, sys': System, c: string)
    requires Step(sys, p, e, sys') && Exact(BookOf(sys), c) && e.StoreSummary? && TaskOf(sys, p).from != c
    ensures Exact(BookOf(sys'), c) && !Overtaken(sys, p, e, c)
  {
    StoreEffect(sys, p, e, sys', c);
    assert Handed(sys'.log, c) == Handed(sys.log, c);
    SameWatermark(BookOf(sys), BookOf(sys'), c);
  }

  ghost predicate ExactUpTo(run: seq<System>, c: string, n: nat)
    requires n < |run|
  {
    forall i :: 0 <= i <= n ==> Exact(BookOf(run[i]), c)
  }

  ghost predicate HarmlessUpTo(run: seq<System>, events: seq<(nat, Event)>, c: string, n: nat)
    requires n <= |events| && n < |run|
  {
    forall i :: 0 <= i < n ==> !Harmful(run[i], events[i].0, events[i].1, c)
  }

  /** In every interleaving the watermark of a conversation is exact throughout if and only if no statement is one of
      the three. */
  lemma {:induction false} ExactInterleavingIff(run: seq<System>, events: seq<(nat, Event)>, c: string, n: nat)
    requires Interleaving(run, events) && n <= |events|
    ensures ExactUpTo(run, c, n) <==> HarmlessUpTo(run, events, c, n)
  {
    if n > 0 {
      ExactInterleavingIff(run, events, c, n - 1);
      RunWellFormed(run, events, c, n - 1);
      if ExactUpTo(run, c, n - 1) {
        StepExactIff(run[n - 1], events[n - 1].0, events[n - 1].1, run[n], c);
      }
    }
  }

  // ---- conversations of one user, with the waiting that they need ----

  /** Everything in the conversation, recordings under way included, is one user's. */
  ghost predicate OwnedBy(sys: System, c: string, owner: string) {
    && (forall id: nat :: InConversation(sys.tables, c, id) ==>
          sys.tables.turns[id].user == owner && c in sys.tables.conversations)
    && (c in sys.tables.conversations ==> sys.tables.conversations[c].user == owner)
    && forall p :: OwnRecording(TaskOf(sys, p), c, owner)
  }

  predicate OwnRecording(t: Task, c: string, owner: string) {
    t.Recording? && t.conv == Some(c) ==> t.user == owner
  }

  predicate WaitsFor(t: Task, c: string, id: nat) {
    Waits(t, id) && t.conv == Some(c)
  }

  /** Rows that wait for their commit are ahead of the watermark and of all turns handed out. */
  ghost predicate RowsAhead(sys: System, c: string) {
    forall p, id: nat :: WaitsFor(TaskOf(sys, p), c, id) ==> RowAhead(sys, c, id)
  }

  predicate RowAhead(sys: System, c: string, id: nat) {
    Above(id, Handed(sys.log, c)) && Watermark(sys.tables, c) < id
  }

  ghost predicate AllWaitAbove(sys: System, c: string, bound: nat) {
    forall p, id: nat :: WaitsFor(TaskOf(sys, p), c, id) ==> bound < id
  }

  /** A summary that has read the watermark: exactly the turns up to it were handed out. */
  ghost predicate GoodRead(sys: System, t: Task, c: string) {
    t.Reading? && t.from == c ==>
      && t.upto < sys.tables.nextTurn && AllWaitAbove(sys, c, t.upto)
      && forall id: nat :: InConversation(sys.tables, c, id) ==> (id in Handed(sys.log, c) <==> id <= t.upto)
  }

  /** A summary that has read its turns: it skips none, and none of them has been handed out. */
  ghost predicate GoodAsk(sys: System, t: Task, c: string) {
    t.Asking? && t.from == c ==>
      && t.ids != [] && Above(t.ids[0], Handed(sys.log, c)) && AllWaitAbove(sys, c, t.ids[|t.ids| - 1])
      && forall id: nat :: InConversation(sys.tables, c, id) && id <= t.ids[|t.ids| - 1] ==>
           id in t.ids || id in Handed(sys.log, c)
  }

  ghost predicate OneAtATime(sys: System, c: string) {
    forall p, q :: Summarizing(TaskOf(sys, p), c) && Summarizing(TaskOf(sys, q), c) ==> p == q
  }

  ghost predicate Calm(sys: System, c: string, owner: string) {
    && WellFormed(sys, c) && Exact(BookOf(sys), c) && OwnedBy(sys, c, owner)
    && RowsAhead(sys, c) && OneAtATime(sys, c)
    && (forall p :: FoundAll(sys, TaskOf(sys, p), c, owner))
    && forall p :: GoodRead(sys, TaskOf(sys, p), c) && GoodAsk(sys, TaskOf(sys, p), c)
  }

  /** Turns of the conversation are recorded by its owner only. */
  predicate OwnerBegins(e: Event, c: string, owner: string) {
    e.Begin? && e.conv == Some(c) ==> e.user == owner
  }

  /** The pending turns are read when no recording of the conversation has rows that wait for the commit. */
  ghost predicate RecordingsFirst(sys: System, p: nat, e: Event, c: string) {
    e.ReadPending? && TaskOf(sys, p).Reading? && TaskOf(sys, p).from == c ==>
      forall q, id: nat :: !WaitsFor(TaskOf(sys, q), c, id)
  }

  /** A deletion of everything of the user that has found the turns. */
  predicate FoundTurns(t: Task, user: string) {
    t.Erasing? && t.user == user && t.turns.Some?
  }

  /** No recording of the conversation commits while a deletion of its owner has found the turns and not committed. */
  ghost predicate ErasuresAlone(sys: System, p: nat, e: Event, c: string, owner: string) {
    e.CommitTurns? && TaskOf(sys, p).Recording? && TaskOf(sys, p).conv == Some(c) ==>
      forall q :: !FoundTurns(TaskOf(sys, q), owner)
  }

  /** Such a deletion has found all turns of the conversation. */
  ghost predicate FoundAll(sys: System, t: Task, c: string, owner: string) {
    FoundTurns(t, owner) ==> forall id: nat :: InConversation(sys.tables, c, id) ==> id in t.turns.value
  }

  ghost predicate Orderly(sys: System, p: nat, e: Event, c: string, owner: string) {
    && OwnerBegins(e, c, owner) && SummariesWait(sys, p, e, c) && RecordingsFirst(sys, p, e, c)
    && ErasuresAlone(sys, p, e, c, owner)
  }

  lemma StaysOwned(sys: System, p: nat, e: Event, sys': System, c: string, owner: string)
    requires WellFormed(sys, c) && OwnedBy(sys, c, owner) && c != "" && FoundAll(sys, TaskOf(sys, p), c, owner)
    requires Step(sys, p, e, sys') && OwnerBegins(e, c, owner)
    ensures OwnedBy(sys', c, owner)
  {
    var r := TaskOf(sys, p);
    assert OwnRecording(r, c, owner) && RowsFresh(sys, r);
    if e.StoreSummary? {
      MemoriesOnly(sys.tables, r.user, Kept(e.strip, e.summarizer(r.shown).value));
    }
    forall id: nat | InConversation(sys'.tables, c, id)
      ensures sys'.tables.turns[id].user == owner && c in sys'.tables.conversations
    {
      if !e.CommitTurns? || id !in r.rows {
        assert InConversation(sys.tables, c, id);
      }
    }
    forall q
      ensures OwnRecording(TaskOf(sys', q), c, owner)
    {
      assert OwnRecording(TaskOf(sys, q), c, owner);
    }
  }

  lemma CalmIsHarmless(sys: System, p: nat, e: Event, sys': System, c: string, owner: string)
    requires Calm(sys, c, owner) && Step(sys, p, e, sys')
    ensures !Harmful(sys, p, e, c)
  {
    var t := TaskOf(sys, p);
    assert GoodAsk(sys, t, c) && FoundAll(sys, t, c, owner);
    HarmfulCases(sys, p, e, c);
    if e.CommitTurns? {
      forall id: nat
        ensures !LateRow(sys, t, c, id)
      {
        assert WaitsFor(t, c, id) ==> RowAhead(sys, c, id);
      }
    } else if e.StoreSummary? && t.from == c {
      forall id: nat
        ensures !SkippedBy(sys, t, c, id)
      {
      }
    }
  }

  lemma WaitsForFrom(sys: System, p: nat, e: Event, sys': System, q: nat, c: string, id: nat)
    requires Step(sys, p, e, sys') && WaitsFor(TaskOf(sys', q), c, id)
    ensures WaitsFor(TaskOf(sys, q), c, id) || (e.InsertTurn? && id == sys.tables.nextTurn)
  {
  }

  predicate StoresFor(sys: System, p: nat, e: Event, c: string) {
    e.StoreSummary? && TaskOf(sys, p).Asking? && TaskOf(sys, p).from == c
  }

  lemma HandedSame(sys: System, p: nat, e: Event, sys': System, c: string)
    requires Step(sys, p, e, sys') && !StoresFor(sys, p, e, c)
    ensures Handed(sys'.log, c) == Handed(sys.log, c) && Watermark(sys'.tables, c) <= Watermark(sys.tables, c)
  {
    if e.StoreSummary? {
      StoreEffect(sys, p, e, sys', c);
    } else {
      OnlySummariesRaise(sys, p, e, sys', c);
    }
  }

  lemma AboveIncreasing(id: nat, ids: seq<nat>)
    requires Increasing(ids) && ids != [] && ids[|ids| - 1] < id
    ensures Above(id, ids)
  {
  }

  lemma AheadAfterStore(sys: System, p: nat, e: Event, sys': System, c: string, q: nat, id: nat)
    requires RowsAhead(sys, c) && GoodAsk(sys, TaskOf(sys, p), c) && IdsSettled(sys, TaskOf(sys, p))
    requires Step(sys, p, e, sys') && StoresFor(sys, p, e, c) && WaitsFor(TaskOf(sys', q), c, id)
    ensures RowAhead(sys', c, id)
  {
    WaitsForFrom(sys, p, e, sys', q, c, id);
    AheadOfAll(sys, c, q, id, TaskOf(sys, p).ids);
    StoreEffect(sys, p, e, sys', c);
  }

  lemma AheadOtherwise(sys: System, p: nat, e: Event, sys': System, c: string, q: nat, id: nat)
    requires RowsAhead(sys, c) && Exact(BookOf(sys), c)
    requires Step(sys, p, e, sys') && !StoresFor(sys, p, e, c) && WaitsFor(TaskOf(sys', q), c, id)
    ensures RowAhead(sys', c, id)
  {
    WaitsForFrom(sys, p, e, sys', q, c, id);
    assert WaitsFor(TaskOf(sys, q), c, id) ==> RowAhead(sys, c, id);
    HandedSame(sys, p, e, sys', c);
  }

  lemma RowsStayAhead(sys: System, p: nat, e: Event, sys': System, c: string, owner: string)
    requires Calm(sys, c, owner) && Step(sys, p, e, sys')
    ensures RowsAhead(sys', c)
  {
    assert GoodAsk(sys, TaskOf(sys, p), c) && IdsSettled(sys, TaskOf(sys, p));
    forall q, id: nat | WaitsFor(TaskOf(sys', q), c, id)
      ensures RowAhead(sys', c, id)
    {
      if StoresFor(sys, p, e, c) {
        AheadAfterStore(sys, p, e, sys', c, q, id);
      } else {
        AheadOtherwise(sys, p, e, sys', c, q, id);
      }
    }
  }

  lemma AheadOfAll(sys: System, c: string, q: nat, id: nat, ids: seq<nat>)
    requires RowsAhead(sys, c) && WaitsFor(TaskOf(sys, q), c, id)
    requires ids != [] && Increasing(ids) && AllWaitAbove(sys, c, ids[|ids| - 1])
    ensures Above(id, Handed(sys.log, c) + ids) && ids[|ids| - 1] < id
  {
    assert RowAhead(sys, c, id);
    AboveIncreasing(id, ids);
    AboveAppend(id, Handed(sys.log, c), ids);
  }

  /** Rows that wait stay above a bound that was given out already. */
  lemma WaitAboveStays(sys: System, p: nat, e: Event, sys': System, c: string, bound: nat)
    requires Step(sys, p, e, sys') && AllWaitAbove(sys, c, bound) && bound < sys.tables.nextTurn
    ensures AllWaitAbove(sys', c, bound)
  {
    forall q, id: nat | WaitsFor(TaskOf(sys', q), c, id)
      ensures bound < id
    {
      WaitsForFrom(sys, p, e, sys', q, c, id);
    }
  }

  /** A turn that appears waited for its commit. */
  lemma NewTurn(sys: System, p: nat, e: Event, sys': System, c: string, id: nat)
    requires WellFormed(sys, c) && Step(sys, p, e, sys') && InConversation(sys'.tables, c, id)
    ensures InConversation(sys.tables, c, id) || (WaitsFor(TaskOf(sys, p), c, id) && id !in Handed(sys.log, c))
  {
    StepNumbers(sys, p, e, sys');
    assert RowsFresh(sys, TaskOf(sys, p));
    if e.CommitTurns? && id in TaskOf(sys, p).rows {
      NotHandedYet(sys, p, c, id);
    }
  }

  lemma WatermarkIsBelow(sys: System, c: string)
    requires RowsAhead(sys, c)
    ensures AllWaitAbove(sys, c, Watermark(sys.tables, c))
  {
    forall q, id: nat | WaitsFor(TaskOf(sys, q), c, id)
      ensures Watermark(sys.tables, c) < id
    {
      assert RowAhead(sys, c, id);
    }
  }

  lemma BeginsGoodRead(sys: System, p: nat, e: Event, sys': System, c: string, owner: string)
    requires Calm(sys, c, owner) && Step(sys, p, e, sys') && e.ReadState?
    ensures GoodRead(sys', TaskOf(sys', p), c)
  {
    WatermarkIsBelow(sys, c);
    WaitAboveStays(sys, p, e, sys', c, Watermark(sys.tables, c));
  }

  lemma NobodyElseStores(sys: System, p: nat, e: Event, q: nat, c: string)
    requires OneAtATime(sys, c) && p != q && Summarizing(TaskOf(sys, q), c)
    ensures !StoresFor(sys, p, e, c)
  {
    assert StoresFor(sys, p, e, c) ==> Summarizing(TaskOf(sys, p), c);
  }

  lemma StillGoodRead(sys: System, p: nat, e: Event, sys': System, c: string, t: Task)
    requires WellFormed(sys, c) && GoodRead(sys, t, c) && t.Reading? && t.from == c
    requires Step(sys, p, e, sys') && !StoresFor(sys, p, e, c)
    ensures GoodRead(sys', t, c)
  {
    HandedSame(sys, p, e, sys', c);
    StepNumbers(sys, p, e, sys');
    WaitAboveStays(sys, p, e, sys', c, t.upto);
    forall id: nat | InConversation(sys'.tables, c, id)
      ensures id in Handed(sys.log, c) <==> id <= t.upto
    {
      NewTurn(sys, p, e, sys', c, id);
    }
  }

  lemma StaysGoodRead(sys: System, p: nat, e: Event, sys': System, c: string, owner: string, q: nat)
    requires Calm(sys, c, owner) && Step(sys, p, e, sys')
    ensures GoodRead(sys', TaskOf(sys', q), c)
  {
    var t := TaskOf(sys', q);
    if t.Reading? && t.from == c {
      if q == p {
        BeginsGoodRead(sys, p, e, sys', c, owner);
      } else {
        assert t == TaskOf(sys, q) && GoodRead(sys, TaskOf(sys, q), c);
        NobodyElseStores(sys, p, e, q, c);
        StillGoodRead(sys, p, e, sys', c, t);
      }
    }
  }

  /** The turns of the owner above the watermark that was read. */
  lemma BeginsGoodAsk(sys: System, p: nat, e: Event, sys': System, c: string, owner: string)
    requires Calm(sys, c, owner) && Step(sys, p, e, sys') && e.ReadPending? && RecordingsFirst(sys, p, e, c)
    ensures GoodAsk(sys', TaskOf(sys', p), c)
  {
    var r, t, handed := TaskOf(sys, p), TaskOf(sys', p), Handed(sys.log, c);
    if t.Asking? && t.from == c {
      assert GoodRead(sys, r, c);
      PendingExact(sys.tables, c, r.user, r.upto, sys.tables.nextTurn);
      assert t.ids[0] in t.ids && InConversation(sys.tables, c, t.ids[0]);
      assert t.ids[0] !in handed;
      assert AllWaitAbove(sys', c, t.ids[|t.ids| - 1]) by {
        NobodyWaits(sys, p, e, sys', c);
      }
      forall id: nat | InConversation(sys.tables, c, id) && id <= t.ids[|t.ids| - 1]
        ensures id in t.ids || id in handed
      {
        assert id in sys.tables.turns && id < sys.tables.nextTurn;
      }
    }
  }

  lemma NobodyWaits(sys: System, p: nat, e: Event, sys': System, c: string)
    requires Step(sys, p, e, sys') && !e.InsertTurn?
    requires forall q, id: nat :: !WaitsFor(TaskOf(sys, q), c, id)
    ensures forall q, id: nat :: !WaitsFor(TaskOf(sys', q), c, id)
  {
    forall q, id: nat
      ensures !WaitsFor(TaskOf(sys', q), c, id)
    {
      if WaitsFor(TaskOf(sys', q), c, id) {
        WaitsForFrom(sys, p, e, sys', q, c, id);
      }
    }
  }

  lemma StillGoodAsk(sys: System, p: nat, e: Event, sys': System, c: string, t: Task)
    requires WellFormed(sys, c) && GoodAsk(sys, t, c) && IdsSettled(sys, t) && t.Asking? && t.from == c
    requires Step(sys, p, e, sys') && !StoresFor(sys, p, e, c)
    ensures GoodAsk(sys', t, c)
  {
    var last := t.ids[|t.ids| - 1];
    HandedSame(sys, p, e, sys', c);
    assert Settled(sys, last);
    WaitAboveStays(sys, p, e, sys', c, last);
    forall id: nat | InConversation(sys'.tables, c, id) && id <= last
      ensures id in t.ids || id in Handed(sys.log, c)
    {
      NewTurn(sys, p, e, sys', c, id);
    }
  }

  lemma StaysGoodAsk(sys: System, p: nat, e: Event, sys': System, c: string, owner: string, q: nat)
    requires Calm(sys, c, owner) && Step(sys, p, e, sys') && RecordingsFirst(sys, p, e, c)
    ensures GoodAsk(sys', TaskOf(sys', q), c)
  {
    var t := TaskOf(sys', q);
    if t.Asking? && t.from == c {
      if q == p {
        BeginsGoodAsk(sys, p, e, sys', c, owner);
      } else {
        assert t == TaskOf(sys, q);
        NobodyElseStores(sys, p, e, q, c);
        assert IdsSettled(sys, TaskOf(sys, q)) && GoodAsk(sys, TaskOf(sys, q), c);
        StillGoodAsk(sys, p, e, sys', c, t);
      }
    }
  }

  lemma StaysFound(sys: System, p: nat, e: Event, sys': System, c: string, owner: string, q: nat)
    requires WellFormed(sys, c) && OwnedBy(sys, c, owner) && FoundAll(sys, TaskOf(sys, q), c, owner)
    requires Step(sys, p, e, sys') && ErasuresAlone(sys, p, e, c, owner)
    ensures FoundAll(sys', TaskOf(sys', q), c, owner)
  {
    var t := TaskOf(sys', q);
    if FoundTurns(t, owner) {
      forall id: nat | InConversation(sys'.tables, c, id)
        ensures id in t.turns.value
      {
        NewTurn(sys, p, e, sys', c, id);
        assert q != p ==> FoundTurns(TaskOf(sys, q), owner);
      }
    }
  }

  lemma StaysCalm(sys: System, p: nat, e: Event, sys': System, c: string, owner: string)
    requires Calm(sys, c, owner) && c != "" && Step(sys, p, e, sys') && Orderly(sys, p, e, c, owner)
    ensures Calm(sys', c, owner)
  {
    CalmIsHarmless(sys, p, e, sys', c, owner);
    StepExactIff(sys, p, e, sys', c);
    StaysWellFormed(sys, p, e, sys', c);
    StaysOwned(sys, p, e, sys', c, owner);
    RowsStayAhead(sys, p, e, sys', c, owner);
    forall q
      ensures FoundAll(sys', TaskOf(sys', q), c, owner)
      ensures GoodRead(sys', TaskOf(sys', q), c) && GoodAsk(sys', TaskOf(sys', q), c)
    {
      StaysFound(sys, p, e, sys', c, owner, q);
      StaysGoodRead(sys, p, e, sys', c, owner, q);
      StaysGoodAsk(sys, p, e, sys', c, owner, q);
    }
    forall q, r | Summarizing(TaskOf(sys', q), c) && Summarizing(TaskOf(sys', r), c)
      ensures q == r
    {
      SummarizingFrom(sys, p, e, sys', q, c);
      SummarizingFrom(sys, p, e, sys', r, c);
    }
  }

  lemma StartsCalm(c: string, owner: string)
    ensures Calm(START, c, owner)
  {
    forall p
      ensures TaskOf(START, p) == Idle && FoundAll(START, TaskOf(START, p), c, owner)
      ensures GoodRead(START, TaskOf(START, p), c) && GoodAsk(START, TaskOf(START, p), c)
    {
    }
  }

  /** In every interleaving in which one user records into a conversation, its summaries wait for one another, pending
      turns are read when no recording of it waits for its commit, and none commits in the middle of a deletion: the
      turns at or below the watermark are exactly those handed to a call that returned, each once and in order. */
  lemma {:induction false} OrderlyRunIsExact(run: seq<System>, events: seq<(nat, Event)>, c: string, owner: string,
        n: nat)
    requires Interleaving(run, events) && n <= |events| && c != ""
    requires forall i :: 0 <= i < n ==> Orderly(run[i], events[i].0, events[i].1, c, owner)
    ensures Calm(run[n], c, owner)
    ensures Exact(BookOf(run[n]), c)
  {
    if n == 0 {
      StartsCalm(c, owner);
    } else {
      OrderlyRunIsExact(run, events, c, owner, n - 1);
      StaysCalm(run[n - 1], events[n - 1].0, events[n - 1].1, run[n], c, owner);
    }
  }
}
