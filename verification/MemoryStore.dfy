/** Conversation turns, their summaries and the watermark between them (shared/memory_store.py).
    Rows are numbered by sequences that never give a number twice. */
module MemoryStore {
  import opened Text
  import opened Selections

  datatype Turn = Turn(user: string, conv: Option<string>, role: string, content: string)

  datatype Conversation = Conversation(user: string, turnCount: nat, upto: nat)

  datatype Memory = Memory(user: string, content: string)

  datatype Tables = Tables(turns: map<nat, Turn>, conversations: map<string, Conversation>, memories: map<nat, Memory>,
                           nextTurn: nat, nextMemory: nat)

  const EMPTY := Tables(map[], map[], map[], 1, 1)

  type Summarizer = seq<(string, string)> -> Option<seq<string>>

  predicate NoConversation(conv: Option<string>) {
    conv == None || conv == Some("")
  }

  // ---- recording ----

  function AddTurns(t: Tables, user: string, conv: Option<string>, turns: seq<(string, string)>): Tables {
    if turns == [] then t
    else
      var (role, content) := turns[|turns| - 1];
      var before := AddTurns(t, user, conv, turns[..|turns| - 1]);
      if content == "" then before
      else before.(turns := before.turns[before.nextTurn := Turn(user, conv, role, content)],
                   nextTurn := before.nextTurn + 1)
  }

  /** An existing conversation keeps its first user and its watermark. */
  function Count(t: Tables, user: string, conv: Option<string>, n: nat): Tables {
    if NoConversation(conv) then t
    else
      var c := conv.value;
      var row := if c in t.conversations then t.conversations[c] else Conversation(user, 0, 0);
      t.(conversations := t.conversations[c := row.(turnCount := row.turnCount + n)])
  }

  function Recorded(t: Tables, user: string, conv: Option<string>, turns: seq<(string, string)>): Tables {
    Count(AddTurns(t, user, conv, turns), user, conv, |turns|)
  }

  // ---- summarising ----

  predicate IsPending(t: Tables, conv: string, user: string, upto: nat, id: nat) {
    id in t.turns && t.turns[id].conv == Some(conv) && t.turns[id].user == user && upto < id
  }

  /** The pending ids below `next`, in order. */
  function Pending(t: Tables, conv: string, user: string, upto: nat, next: nat): seq<nat> {
    if next == 0 then []
    else Pending(t, conv, user, upto, next - 1) + if IsPending(t, conv, user, upto, next - 1) then [next - 1] else []
  }

  predicate Present(turns: map<nat, Turn>, ids: seq<nat>) {
    forall i :: 0 <= i < |ids| ==> ids[i] in turns
  }

  /** What the summariser is shown. */
  function Shown(turns: map<nat, Turn>, ids: seq<nat>): seq<(string, string)>
    requires Present(turns, ids)
  {
    seq(|ids|, i requires 0 <= i < |ids| => (turns[ids[i]].role, turns[ids[i]].content))
  }

  /** The facts that are kept: those that are not blank, without the white space around them. */
  function Kept(strip: string -> string, facts: seq<string>): seq<string> {
    if facts == [] then []
    else
      var last := strip(facts[|facts| - 1]);
      Kept(strip, facts[..|facts| - 1]) + if facts[|facts| - 1] != "" && last != "" then [last] else []
  }

  function AddMemories(t: Tables, user: string, facts: seq<string>): Tables {
    if facts == [] then t
    else
      var before := AddMemories(t, user, facts[..|facts| - 1]);
      before.(memories := before.memories[before.nextMemory := Memory(user, facts[|facts| - 1])],
              nextMemory := before.nextMemory + 1)
  }

  lemma {:induction false} PendingExact(t: Tables, conv: string, user: string, upto: nat, next: nat)
    ensures forall id: nat :: id in Pending(t, conv, user, upto, next) <==>
              id < next && IsPending(t, conv, user, upto, id)
    ensures Increasing(Pending(t, conv, user, upto, next)) && Present(t.turns, Pending(t, conv, user, upto, next))
  {
    if next > 0 {
      PendingExact(t, conv, user, upto, next - 1);
      var before := Pending(t, conv, user, upto, next - 1);
      forall i | 0 <= i < |before|
        ensures before[i] < next - 1
      {
        assert before[i] in before;
      }
    }
  }

  /** The pending turns and the summariser's answer to them, when there is something to store. */
  function Due(t: Tables, user: string, conv: Option<string>, every: int, summarizer: Summarizer)
    : Option<(seq<nat>, seq<string>)>
  {
    if NoConversation(conv) || conv.value !in t.conversations then None
    else
      var ids := Pending(t, conv.value, user, t.conversations[conv.value].upto, t.nextTurn);
      PendingExact(t, conv.value, user, t.conversations[conv.value].upto, t.nextTurn);
      if |ids| < every || ids == [] then None
      else
        match summarizer(Shown(t.turns, ids))
        case None => None
        case Some(facts) => Some((ids, facts))
  }

  /** The memories are added and the watermark moves to the last turn that was shown. */
  function Summarized(t: Tables, user: string, conv: string, ids: seq<nat>, kept: seq<string>): Tables
    requires conv in t.conversations && ids != []
  {
    var row := t.conversations[conv].(upto := ids[|ids| - 1]);
    AddMemories(t, user, kept).(conversations := t.conversations[conv := row])
  }

  // ---- forgetting ----

  function Owned(memories: map<nat, Memory>, user: string): set<nat> {
    set m | m in memories && memories[m].user == user
  }

  function WithoutOwned(memories: map<nat, Memory>, user: string): map<nat, Memory> {
    map m | m in memories && memories[m].user != user :: memories[m]
  }

  function Forgotten(t: Tables, user: string, memory: Option<nat>): Tables {
    match memory
    case Some(id) =>
      if id in t.memories && t.memories[id].user == user then t.(memories := t.memories - {id}) else t
    case None =>
      t.(memories := WithoutOwned(t.memories, user),
         turns := map i | i in t.turns && t.turns[i].user != user :: t.turns[i],
         conversations := map c | c in t.conversations && t.conversations[c].user != user :: t.conversations[c])
  }

  // ---- runs, with what has ever been recorded and summarised ----

  /** A summariser call that returned and was stored: the turns it was handed, what it saw of them, and the rows made
      from its answer, numbered from `first`. */
  datatype Call = Call(user: string, conv: string, ids: seq<nat>, shown: seq<(string, string)>, summarizer: Summarizer,
                       first: nat, kept: seq<string>)

  datatype Book = Book(tables: Tables, history: map<nat, Turn>, log: seq<Call>)

  datatype Op =
    | Record(user: string, conv: Option<string>, turns: seq<(string, string)>)
    | Summarize(user: string, conv: Option<string>, every: int, summarizer: Summarizer)
    | Forget(user: string, memory: Option<nat>)

  function Do(b: Book, op: Op, strip: string -> string): Book {
    match op
    case Record(user, conv, turns) =>
      var t := Recorded(b.tables, user, conv, turns);
      b.(tables := t, history := b.history + t.turns)
    case Summarize(user, conv, every, summarizer) =>
      (match Due(b.tables, user, conv, every, summarizer)
       case None => b
       case Some(due) =>
         DueShown(b.tables, user, conv, every, summarizer);
         var kept := Kept(strip, due.1);
         Book(Summarized(b.tables, user, conv.value, due.0, kept), b.history,
              b.log + [Call(user, conv.value, due.0, Shown(b.tables.turns, due.0), summarizer,
                           b.tables.nextMemory, kept)]))
    case Forget(user, memory) => b.(tables := Forgotten(b.tables, user, memory))
  }

  lemma DueShown(t: Tables, user: string, conv: Option<string>, every: int, summarizer: Summarizer)
    requires Due(t, user, conv, every, summarizer).Some?
    ensures var ids := Due(t, user, conv, every, summarizer).value.0;
            && conv.Some? && conv.value in t.conversations && ids != [] && Present(t.turns, ids) && Increasing(ids)
            && forall id: nat :: id in ids <==>
                 id < t.nextTurn && IsPending(t, conv.value, user, t.conversations[conv.value].upto, id)
  {
    PendingExact(t, conv.value, user, t.conversations[conv.value].upto, t.nextTurn);
  }

  function Run(ops: seq<Op>, strip: string -> string): Book {
    if ops == [] then Book(EMPTY, map[], []) else Do(Run(ops[..|ops| - 1], strip), ops[|ops| - 1], strip)
  }

  // ---- what the operations do, row by row ----

  /** Turns without content are not recorded. */
  function Spoken(turns: seq<(string, string)>): seq<(string, string)> {
    if turns == [] then []
    else Spoken(turns[..|turns| - 1]) + if turns[|turns| - 1].1 == "" then [] else [turns[|turns| - 1]]
  }

  ghost predicate TurnsAdded(t: Tables, t': Tables, user: string, conv: Option<string>, spoken: seq<(string, string)>) {
    && t'.nextTurn == t.nextTurn + |spoken|
    && (forall i :: i in t'.turns <==> i in t.turns || t.nextTurn <= i < t'.nextTurn)
    && (forall i :: i in t.turns ==> t'.turns[i] == t.turns[i])
    && (forall i :: t.nextTurn <= i < t'.nextTurn ==>
          t'.turns[i] == Turn(user, conv, spoken[i - t.nextTurn].0, spoken[i - t.nextTurn].1))
    && t'.conversations == t.conversations && t'.memories == t.memories && t'.nextMemory == t.nextMemory
  }

  ghost predicate Numbered(t: Tables) {
    && t.nextTurn > 0 && (forall i :: i in t.turns ==> 0 < i < t.nextTurn)
    && (forall m :: m in t.memories ==> m < t.nextMemory)
  }

  lemma {:induction false} AddedTurns(t: Tables, user: string, conv: Option<string>, turns: seq<(string, string)>)
    requires Numbered(t)
    ensures TurnsAdded(t, AddTurns(t, user, conv, turns), user, conv, Spoken(turns))
    ensures Numbered(AddTurns(t, user, conv, turns))
  {
    if turns != [] {
      AddedTurns(t, user, conv, turns[..|turns| - 1]);
    }
  }

  ghost predicate MemoriesAdded(t: Tables, t': Tables, user: string, facts: seq<string>) {
    && t'.nextMemory == t.nextMemory + |facts|
    && (forall m :: m in t'.memories <==> m in t.memories || t.nextMemory <= m < t'.nextMemory)
    && (forall m :: m in t.memories ==> t'.memories[m] == t.memories[m])
    && (forall m :: t.nextMemory <= m < t'.nextMemory ==> t'.memories[m] == Memory(user, facts[m - t.nextMemory]))
    && t'.turns == t.turns && t'.conversations == t.conversations && t'.nextTurn == t.nextTurn
  }

  lemma {:induction false} AddedMemories(t: Tables, user: string, facts: seq<string>)
    requires Numbered(t)
    ensures MemoriesAdded(t, AddMemories(t, user, facts), user, facts) && Numbered(AddMemories(t, user, facts))
  {
    if facts != [] {
      AddedMemories(t, user, facts[..|facts| - 1]);
    }
  }

  // ---- the same over the tables before and after, without the functions above ----

  /** New rows for the turns with content, in their order; no other row changes. */
  ghost predicate NewTurns(t: Tables, t': Tables, user: string, conv: Option<string>, said: seq<(string, string)>) {
    exists spoken :: Selects(said, HasContent, AsSaid, spoken) && TurnRows(t, t', user, conv, spoken)
  }

  predicate HasContent(turn: (string, string)) {
    turn.1 != ""
  }

  function AsSaid(turn: (string, string)): (string, string) {
    turn
  }

  ghost predicate TurnRows(t: Tables, t': Tables, user: string, conv: Option<string>, spoken: seq<(string, string)>) {
    && t'.nextTurn == t.nextTurn + |spoken|
    && (forall i :: i in t'.turns <==> i in t.turns || t.nextTurn <= i < t'.nextTurn)
    && (forall i :: i in t.turns ==> t'.turns[i] == t.turns[i])
    && (forall k :: 0 <= k < |spoken| ==>
          t.nextTurn + k in t'.turns && t'.turns[t.nextTurn + k] == Turn(user, conv, spoken[k].0, spoken[k].1))
  }

  /** Only the row of this conversation differs. */
  predicate OnlyRow(t: Tables, t': Tables, conv: string, row: Conversation) {
    && conv in t'.conversations && t'.conversations[conv] == row
    && (forall c :: c in t.conversations ==> c in t'.conversations)
    && (forall c :: c in t'.conversations && c != conv ==>
          c in t.conversations && t'.conversations[c] == t.conversations[c])
  }

  ghost predicate RecordDone(t: Tables, t': Tables, user: string, conv: Option<string>, said: seq<(string, string)>) {
    && NewTurns(t, t', user, conv, said) && t'.memories == t.memories && t'.nextMemory == t.nextMemory
    && if conv == None || conv == Some("") then t'.conversations == t.conversations
       else if conv.value in t.conversations then
         var was := t.conversations[conv.value];
         OnlyRow(t, t', conv.value, Conversation(was.user, was.turnCount + |said|, was.upto))
       else OnlyRow(t, t', conv.value, Conversation(user, |said|, 0))
  }

  /** The turns of the user in the conversation above its watermark, in their order, and their texts. */
  ghost predicate NotYetSummarized(t: Tables, user: string, conv: string, ids: seq<nat>, shown: seq<(string, string)>)
    requires conv in t.conversations
  {
    && (forall i, j :: 0 <= i < j < |ids| ==> ids[i] < ids[j])
    && (forall id: nat :: id in ids <==>
          && id in t.turns && id < t.nextTurn && t.turns[id].conv == Some(conv) && t.turns[id].user == user
          && id > t.conversations[conv].upto)
    && |shown| == |ids|
    && (forall i :: 0 <= i < |ids| ==> ids[i] in t.turns && shown[i] == (t.turns[ids[i]].role, t.turns[ids[i]].content))
  }

  /** The facts that are not blank, stripped, all of them and in their order. */
  ghost predicate FactsKept(strip: string -> string, facts: seq<string>, kept: seq<string>) {
    Selects(facts, (f: string) => f != "" && strip(f) != "", strip, kept)
  }

  ghost predicate MemoryRows(t: Tables, t': Tables, user: string, kept: seq<string>) {
    && t'.nextMemory == t.nextMemory + |kept|
    && (forall m :: m in t'.memories <==> m in t.memories || t.nextMemory <= m < t'.nextMemory)
    && (forall m :: m in t.memories ==> t'.memories[m] == t.memories[m])
    && (forall k :: 0 <= k < |kept| ==>
          t.nextMemory + k in t'.memories && t'.memories[t.nextMemory + k] == Memory(user, kept[k]))
  }

  /** One memory per fact that is kept, numbered on, and the watermark is the last turn shown. */
  ghost predicate FactsStored(t: Tables, t': Tables, user: string, conv: string, last: nat, facts: seq<string>,
                              strip: string -> string, added: Result<nat>)
    requires conv in t.conversations
  {
    && (exists kept :: FactsKept(strip, facts, kept) && MemoryRows(t, t', user, kept) && added == Ok(|kept|))
    && OnlyRow(t, t', conv, Conversation(t.conversations[conv].user, t.conversations[conv].turnCount, last))
    && t'.turns == t.turns && t'.nextTurn == t.nextTurn
  }

  /** Nothing below the threshold or without an answer; otherwise the facts are stored. */
  ghost predicate SummaryDone(t: Tables, t': Tables, user: string, conv: Option<string>, every: int,
                              summarizer: Summarizer, strip: string -> string, added: Result<nat>) {
    if conv == None || conv == Some("") || conv.value !in t.conversations then t' == t && added == Ok(0)
    else
      exists ids, shown :: && NotYetSummarized(t, user, conv.value, ids, shown)
                           && AnswerUsed(t, t', user, conv.value, every, ids, summarizer(shown), strip, added)
  }

  ghost predicate AnswerUsed(t: Tables, t': Tables, user: string, conv: string, every: int, ids: seq<nat>,
                             answer: Option<seq<string>>, strip: string -> string, added: Result<nat>)
    requires conv in t.conversations
  {
    if |ids| < every || answer == None then t' == t && added == Ok(0)
    else if ids == [] then t' == t && added == Err
    else FactsStored(t, t', user, conv, ids[|ids| - 1], answer.value, strip, added)
  }

  /** One memory of the user, or every row of the user in the three tables. */
  ghost predicate ForgetDone(t: Tables, t': Tables, user: string, memory: Option<nat>, deleted: nat) {
    && t'.nextTurn == t.nextTurn && t'.nextMemory == t.nextMemory
    && (forall m :: m in t'.memories ==> m in t.memories && t'.memories[m] == t.memories[m])
    && (forall m :: m in t.memories ==>
          (m in t'.memories <==> t.memories[m].user != user || (memory.Some? && memory.value != m)))
    && |t'.memories| + deleted == |t.memories|
    && if memory.Some? then t'.turns == t.turns && t'.conversations == t.conversations
       else
         && (forall i :: i in t'.turns <==> i in t.turns && t.turns[i].user != user)
         && (forall i :: i in t'.turns ==> t'.turns[i] == t.turns[i])
         && (forall c :: c in t'.conversations <==> c in t.conversations && t.conversations[c].user != user)
         && (forall c :: c in t'.conversations ==> t'.conversations[c] == t.conversations[c])
  }

  lemma {:induction false} SpokenSelects(said: seq<(string, string)>)
    ensures Selects(said, HasContent, AsSaid, Spoken(said))
  {
    if said == [] {
      SelectsNothing(HasContent, AsSaid);
    } else {
      var before, last := said[..|said| - 1], said[|said| - 1];
      SpokenSelects(before);
      SelectsSnoc(before, HasContent, AsSaid, Spoken(before), last);
      assert before + [last] == said;
      assert Spoken(before) + [] == Spoken(before);
    }
  }

  lemma {:induction false} KeptSelects(strip: string -> string, facts: seq<string>)
    ensures FactsKept(strip, facts, Kept(strip, facts))
  {
    var keep := (f: string) => f != "" && strip(f) != "";
    if facts == [] {
      SelectsNothing(keep, strip);
    } else {
      var before, last := facts[..|facts| - 1], facts[|facts| - 1];
      KeptSelects(strip, before);
      SelectsSnoc(before, keep, strip, Kept(strip, before), last);
      assert before + [last] == facts;
      assert Kept(strip, before) + [] == Kept(strip, before);
    }
  }

  lemma RecordedIsDone(t: Tables, user: string, conv: Option<string>, said: seq<(string, string)>)
    requires Numbered(t)
    ensures RecordDone(t, Recorded(t, user, conv, said), user, conv, said)
  {
    AddedTurns(t, user, conv, said);
    SpokenSelects(said);
    assert TurnRows(t, AddTurns(t, user, conv, said), user, conv, Spoken(said));
    assert TurnRows(t, Recorded(t, user, conv, said), user, conv, Spoken(said));
  }

  lemma SummarizedIsStored(t: Tables, user: string, conv: string, ids: seq<nat>, facts: seq<string>,
                           strip: string -> string)
    requires Numbered(t) && conv in t.conversations && ids != []
    ensures var kept := Kept(strip, facts);
            FactsStored(t, Summarized(t, user, conv, ids, kept), user, conv, ids[|ids| - 1], facts, strip, Ok(|kept|))
  {
    var kept := Kept(strip, facts);
    AddedMemories(t, user, kept);
    KeptSelects(strip, facts);
    assert MemoryRows(t, AddMemories(t, user, kept), user, kept);
    assert MemoryRows(t, Summarized(t, user, conv, ids, kept), user, kept);
  }

  lemma PendingIsNotYet(t: Tables, user: string, conv: string)
    requires conv in t.conversations
    ensures var ids := Pending(t, conv, user, t.conversations[conv].upto, t.nextTurn);
            Present(t.turns, ids) && NotYetSummarized(t, user, conv, ids, Shown(t.turns, ids))
  {
    PendingExact(t, conv, user, t.conversations[conv].upto, t.nextTurn);
  }

  lemma SummaryIsDone(b: Book, user: string, conv: Option<string>, every: int, summarizer: Summarizer,
                      strip: string -> string, added: Result<nat>)
    requires Numbered(b.tables)
    requires var after := Do(b, Summarize(user, conv, every, summarizer), strip).tables;
             added.Ok? ==> after.nextMemory == b.tables.nextMemory + added.value
    requires added.Err? <==> NothingPending(b.tables, user, conv, every, summarizer)
    ensures var after := Do(b, Summarize(user, conv, every, summarizer), strip).tables;
            SummaryDone(b.tables, after, user, conv, every, summarizer, strip, added)
  {
    var t := b.tables;
    if !NoConversation(conv) && conv.value in t.conversations {
      var ids := Pending(t, conv.value, user, t.conversations[conv.value].upto, t.nextTurn);
      PendingIsNotYet(t, user, conv.value);
      var answer := summarizer(Shown(t.turns, ids));
      var after := Do(b, Summarize(user, conv, every, summarizer), strip).tables;
      assert ids == [] ==> Shown(t.turns, ids) == [];
      if ids != [] && |ids| >= every && answer.Some? {
        AddedMemories(t, user, Kept(strip, answer.value));
        SummarizedIsStored(t, user, conv.value, ids, answer.value, strip);
      }
      assert AnswerUsed(t, after, user, conv.value, every, ids, answer, strip, added);
    }
  }

  lemma NoMoreRows(memories: map<nat, Memory>, left: map<nat, Memory>)
    requires forall m :: m in left ==> m in memories
    ensures |left| <= |memories|
  {
    var gone := memories.Keys - left.Keys;
    assert memories.Keys == left.Keys + gone;
    assert |memories| == |left| + |gone|;
  }

  lemma ForgottenIsDone(t: Tables, user: string, memory: Option<nat>)
    ensures var t' := Forgotten(t, user, memory);
            |t'.memories| <= |t.memories| && ForgetDone(t, t', user, memory, |t.memories| - |t'.memories|)
  {
    NoMoreRows(t.memories, Forgotten(t, user, memory).memories);
  }

  /** The three tables and the operations on them, statement by statement. */
  class Memories {
    var turns: map<nat, Turn>
    var conversations: map<string, Conversation>
    var memories: map<nat, Memory>
    var nextTurn: nat
    var nextMemory: nat
    ghost var history: map<nat, Turn>
    ghost var log: seq<Call>

    function Abs(): Tables
      reads this
    {
      Tables(turns, conversations, memories, nextTurn, nextMemory)
    }

    ghost function Now(): Book
      reads this
    {
      Book(Abs(), history, log)
    }

    constructor ()
      ensures Now() == Book(EMPTY, map[], [])
    {
      turns, conversations, memories, nextTurn, nextMemory := map[], map[], map[], 1, 1;
      history, log := map[], [];
    }

    method RecordTurns(user: string, conv: Option<string>, said: seq<(string, string)>, ghost strip: string -> string)
      modifies this
      ensures Now() == Do(old(Now()), Record(user, conv, said), strip)
      ensures Numbered(old(Abs())) ==> RecordDone(old(Abs()), Abs(), user, conv, said)
    {
      InsertTurns(user, conv, said);
      if !NoConversation(conv) {
        CountTurns(user, conv.value, |said|);
      }
      history := history + turns;
      if Numbered(old(Abs())) {
        RecordedIsDone(old(Abs()), user, conv, said);
      }
    }

    method InsertTurns(user: string, conv: Option<string>, said: seq<(string, string)>)
      modifies this`turns, this`nextTurn
      ensures Abs() == AddTurns(old(Abs()), user, conv, said)
    {
      for i := 0 to |said|
        invariant Abs() == AddTurns(old(Abs()), user, conv, said[..i])
      {
        assert said[..i + 1][..i] == said[..i];
        var (role, content) := said[i];
        if content != "" {
          turns := turns[nextTurn := Turn(user, conv, role, content)];
          nextTurn := nextTurn + 1;
        }
      }
      assert said[..|said|] == said;
    }

    method CountTurns(user: string, conv: string, n: nat)
      requires conv != ""
      modifies this`conversations
      ensures Abs() == Count(old(Abs()), user, Some(conv), n)
    {
      if conv in conversations {
        conversations := conversations[conv := conversations[conv].(turnCount := conversations[conv].turnCount + n)];
      } else {
        conversations := conversations[conv := Conversation(user, n, 0)];
      }
    }

    method SelectPending(conv: string, user: string, upto: nat) returns (ids: seq<nat>)
      ensures ids == Pending(Abs(), conv, user, upto, nextTurn)
    {
      ids := [];
      for i := 0 to nextTurn
        invariant ids == Pending(Abs(), conv, user, upto, i)
      {
        if i in turns && turns[i].conv == Some(conv) && turns[i].user == user && upto < i {
          ids := ids + [i];
        }
      }
    }

    method InsertMemories(user: string, facts: seq<string>)
      modifies this`memories, this`nextMemory
      ensures Abs() == AddMemories(old(Abs()), user, facts) && nextMemory == old(nextMemory) + |facts|
    {
      for i := 0 to |facts|
        invariant nextMemory == old(nextMemory) + i && Abs() == AddMemories(old(Abs()), user, facts[..i])
      {
        assert facts[..i + 1][..i] == facts[..i];
        memories := memories[nextMemory := Memory(user, facts[i])];
        nextMemory := nextMemory + 1;
      }
      assert facts[..|facts|] == facts;
    }

    /** The number of memories added; Err is the error for a threshold of zero or less with nothing pending. */
    method MaybeSummarize(user: string, conv: Option<string>, every: int, summarizer: Summarizer,
                          strip: string -> string)
      returns (added: Result<nat>)
      modifies this
      ensures Now() == Do(old(Now()), Summarize(user, conv, every, summarizer), strip)
      ensures Numbered(old(Abs())) ==> SummaryDone(old(Abs()), Abs(), user, conv, every, summarizer, strip, added)
    {
      added := SummarizePending(user, conv, every, summarizer, strip);
      if Numbered(old(Abs())) {
        SummaryIsDone(old(Now()), user, conv, every, summarizer, strip, added);
      }
    }

    method SummarizePending(user: string, conv: Option<string>, every: int, summarizer: Summarizer,
                            strip: string -> string)
      returns (added: Result<nat>)
      modifies this
      ensures Now() == Do(old(Now()), Summarize(user, conv, every, summarizer), strip)
      ensures added.Ok? ==> nextMemory == old(nextMemory) + added.value
      ensures added.Err? <==> NothingPending(old(Abs()), user, conv, every, summarizer)
    {
      if NoConversation(conv) || conv.value !in conversations { return Ok(0); }
      var upto := conversations[conv.value].upto;
      var ids := SelectPending(conv.value, user, upto);
      PendingExact(Abs(), conv.value, user, upto, nextTurn);
      assert ids == [] ==> Shown(turns, ids) == [];
      if |ids| < every { return Ok(0); }
      var answer := summarizer(Shown(turns, ids));
      if answer.None? { return Ok(0); }
      var kept := Kept(strip, answer.value);
      if ids == [] { return Err; }
      log := log + [Call(user, conv.value, ids, Shown(turns, ids), summarizer, nextMemory, kept)];
      InsertMemories(user, kept);
      conversations := conversations[conv.value := conversations[conv.value].(upto := ids[|ids| - 1])];
      return Ok(|kept|);
    }

    /** The number of memories deleted. */
    method DeleteUserMemory(user: string, memory: Option<nat>, ghost strip: string -> string) returns (deleted: nat)
      modifies this
      ensures Now() == Do(old(Now()), Forget(user, memory), strip)
      ensures ForgetDone(old(Abs()), Abs(), user, memory, deleted)
    {
      deleted := 0;
      match memory {
        case Some(id) =>
          if id in memories && memories[id].user == user {
            memories := memories - {id};
            deleted := 1;
          }
        case None => deleted := DeleteAll(user);
      }
      ForgottenIsDone(old(Abs()), user, memory);
    }

    method DeleteAll(user: string) returns (deleted: nat)
      modifies this`memories, this`turns, this`conversations
      ensures Abs() == Forgotten(old(Abs()), user, None) && deleted == |old(memories)| - |memories|
    {
      OthersCount(memories, user);
      deleted := |Owned(memories, user)|;
      memories := WithoutOwned(memories, user);
      turns := map i | i in turns && turns[i].user != user :: turns[i];
      conversations := map c | c in conversations && conversations[c].user != user :: conversations[c];
    }
  }

  lemma OthersCount(memories: map<nat, Memory>, user: string)
    ensures |Owned(memories, user)| == |memories| - |WithoutOwned(memories, user)|
  {
    var others, gone := WithoutOwned(memories, user).Keys, Owned(memories, user);
    assert others + gone == memories.Keys;
    assert |others| + |gone| == |memories.Keys|;
  }

  /** A threshold of zero or less lets the summariser run on nothing, and then there is no last turn. */
  predicate NothingPending(t: Tables, user: string, conv: Option<string>, every: int, summarizer: Summarizer) {
    && !NoConversation(conv) && conv.value in t.conversations && every <= 0
    && Pending(t, conv.value, user, t.conversations[conv.value].upto, t.nextTurn) == []
    && summarizer([]).Some?
  }

  // ---- where memories come from ----

  /** The call saw only turns its user recorded in that conversation, word for word, and its rows are what was kept of
      the answer to them. */
  ghost predicate OwnTurns(call: Call, history: map<nat, Turn>, strip: string -> string) {
    && Present(history, call.ids) && call.shown == Shown(history, call.ids)
    && call.summarizer(call.shown).Some? && FactsKept(strip, call.summarizer(call.shown).value, call.kept)
    && forall i :: 0 <= i < |call.ids| ==>
         history[call.ids[i]].user == call.user && history[call.ids[i]].conv == Some(call.conv)
  }

  predicate MadeBy(call: Call, m: nat, memory: Memory) {
    && call.user == memory.user && call.first <= m < call.first + |call.kept|
    && memory.content == call.kept[m - call.first]
  }

  ghost predicate Sourced(b: Book, strip: string -> string) {
    && Numbered(b.tables)
    && (forall i :: i in b.history ==> i < b.tables.nextTurn)
    && (forall i :: i in b.tables.turns ==> i in b.history && b.history[i] == b.tables.turns[i])
    && (forall k :: 0 <= k < |b.log| ==> OwnTurns(b.log[k], b.history, strip))
    && AllMade(b.tables.memories, b.log)
  }

  ghost predicate AllMade(memories: map<nat, Memory>, log: seq<Call>) {
    forall m :: m in memories ==> MadeBySome(log, m, memories[m])
  }

  ghost predicate MadeBySome(log: seq<Call>, m: nat, memory: Memory) {
    exists k :: 0 <= k < |log| && MadeBy(log[k], m, memory)
  }

  lemma MadeBefore(log: seq<Call>, call: Call, m: nat, memory: Memory)
    requires MadeBySome(log, m, memory) || MadeBy(call, m, memory)
    ensures MadeBySome(log + [call], m, memory)
  {
    if MadeBySome(log, m, memory) {
      var k :| 0 <= k < |log| && MadeBy(log[k], m, memory);
      assert MadeBy((log + [call])[k], m, memory);
    } else {
      assert MadeBy((log + [call])[|log|], m, memory);
    }
  }

  lemma RecordSourced(b: Book, user: string, conv: Option<string>, turns: seq<(string, string)>,
                      strip: string -> string)
    requires Sourced(b, strip)
    ensures Sourced(Do(b, Record(user, conv, turns), strip), strip)
  {
    AddedTurns(b.tables, user, conv, turns);
    var b' := Do(b, Record(user, conv, turns), strip);
    forall k | 0 <= k < |b.log|
      ensures OwnTurns(b.log[k], b'.history, strip)
    {
      assert OwnTurns(b.log[k], b.history, strip);
      forall i | 0 <= i < |b.log[k].ids|
        ensures b'.history[b.log[k].ids[i]] == b.history[b.log[k].ids[i]]
      {
        assert b.log[k].ids[i] in b.history;
      }
      assert Shown(b'.history, b.log[k].ids) == Shown(b.history, b.log[k].ids);
    }
  }

  lemma CallIsOwn(b: Book, user: string, conv: Option<string>, every: int, summarizer: Summarizer,
                  strip: string -> string)
    requires Sourced(b, strip) && Due(b.tables, user, conv, every, summarizer).Some?
    ensures var b' := Do(b, Summarize(user, conv, every, summarizer), strip);
            |b'.log| == |b.log| + 1 && OwnTurns(b'.log[|b.log|], b.history, strip)
  {
    DueShown(b.tables, user, conv, every, summarizer);
    var (ids, facts) := Due(b.tables, user, conv, every, summarizer).value;
    KeptSelects(strip, facts);
    forall i | 0 <= i < |ids|
      ensures ids[i] in b.history && b.history[ids[i]] == b.tables.turns[ids[i]]
      ensures b.history[ids[i]].user == user && b.history[ids[i]].conv == conv
    {
      assert ids[i] in ids;
    }
    assert Shown(b.history, ids) == Shown(b.tables.turns, ids);
  }

  lemma SummarizeSourced(b: Book, user: string, conv: Option<string>, every: int, summarizer: Summarizer,
                         strip: string -> string)
    requires Sourced(b, strip)
    ensures Sourced(Do(b, Summarize(user, conv, every, summarizer), strip), strip)
  {
    if Due(b.tables, user, conv, every, summarizer).Some? {
      DueShown(b.tables, user, conv, every, summarizer);
      CallIsOwn(b, user, conv, every, summarizer, strip);
      var call := Do(b, Summarize(user, conv, every, summarizer), strip).log[|b.log|];
      AddedMemories(b.tables, user, call.kept);
      NewMemoriesMade(b.tables, AddMemories(b.tables, user, call.kept), b.log, call);
    }
  }

  lemma NewMemoriesMade(t: Tables, t': Tables, log: seq<Call>, call: Call)
    requires AllMade(t.memories, log) && call.first == t.nextMemory && MemoriesAdded(t, t', call.user, call.kept)
    ensures AllMade(t'.memories, log + [call])
  {
    forall m | m in t'.memories
      ensures MadeBySome(log + [call], m, t'.memories[m])
    {
      if m in t.memories {
        assert MadeBySome(log, m, t.memories[m]);
      }
      MadeBefore(log, call, m, t'.memories[m]);
    }
  }

  /** In every run, shared conversation ids or not: every memory of a user was made by a call that saw only turns of
      that user. */
  lemma {:induction false} MemoriesAreOwn(ops: seq<Op>, strip: string -> string)
    ensures Sourced(Run(ops, strip), strip)
  {
    if ops != [] {
      var before, op := ops[..|ops| - 1], ops[|ops| - 1];
      MemoriesAreOwn(before, strip);
      match op {
        case Record(user, conv, turns) => RecordSourced(Run(before, strip), user, conv, turns, strip);
        case Summarize(user, conv, every, summarizer) =>
          SummarizeSourced(Run(before, strip), user, conv, every, summarizer, strip);
        case Forget(user, memory) =>
      }
    }
  }
}
