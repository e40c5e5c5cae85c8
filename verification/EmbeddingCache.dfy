/** What one request for embeddings does: the texts, the cache and the server's answers (shared/db.py). What the cache
    stores is modelled as the value read back from it: a vector, or null. */
module EmbeddingCache {
  import opened Text

  type Vector = seq<real>

  /** One element of the server's answer: its tag, if it carries an integer one, and its vector, if not null. */
  datatype Answer = Answer(index: Option<int>, vector: Option<Vector>)

  /** The server refused or the connection failed, or it sent a list. */
  datatype Reply = Refused | Data(answers: seq<Answer>)

  /** The settings during one operation; `maxChars` of zero or less switches the limit off. */
  datatype Config = Config(maxChars: int, server: bool, cacheUp: bool, key: string -> string)

  /** What the outside world does at the n-th contact: whether a cache access fails, and the server's answer. */
  datatype World = World(cacheFails: nat -> bool, reply: (nat, seq<string>) -> Reply)

  /** The text that is really embedded. */
  function Prepare(cfg: Config, text: string): string {
    if 0 < cfg.maxChars < |text| then text[..cfg.maxChars] else text
  }

  function PrepareAll(cfg: Config, texts: seq<string>): (out: seq<string>)
    ensures |out| == |texts| && forall i :: 0 <= i < |out| ==> out[i] == Prepare(cfg, texts[i])
  {
    seq(|texts|, i requires 0 <= i < |texts| => Prepare(cfg, texts[i]))
  }

  // ---- assumptions about the world ----

  /** Different texts have different cache keys (under one configuration). */
  ghost predicate InjectiveKey(cfg: Config) {
    forall s, t :: cfg.key(s) == cfg.key(t) ==> s == t
  }

  /** Every cached value is the embedding of the text its key was made for. */
  ghost predicate CorrectCache(cfg: Config, cache: map<string, Option<Vector>>, embed: string -> Vector) {
    forall t :: cfg.key(t) in cache ==> cache[cfg.key(t)] == Some(embed(t))
  }

  /** Untagged answers come in order. */
  ghost predicate InOrder(inputs: seq<string>, answers: seq<Answer>, embed: string -> Vector) {
    && |answers| == |inputs|
    && forall p :: 0 <= p < |answers| ==> answers[p] == Answer(None, Some(embed(inputs[p])))
  }

  predicate TagFits(answer: Answer, n: nat) {
    answer.index.Some? && 0 <= answer.index.value < n
  }

  /** Tagged answers carry each index once, with the vector of that input. */
  ghost predicate Tagged(inputs: seq<string>, answers: seq<Answer>, embed: string -> Vector) {
    && |answers| == |inputs|
    && (forall p :: 0 <= p < |answers| ==> TagFits(answers[p], |inputs|))
    && (forall p :: 0 <= p < |answers| ==> answers[p].vector == Some(embed(inputs[answers[p].index.value])))
    && (forall k :: 0 <= k < |inputs| ==> exists p :: 0 <= p < |answers| && answers[p].index == Some(k))
  }

  ghost predicate HonestReply(inputs: seq<string>, reply: Reply, embed: string -> Vector) {
    reply.Data? ==> InOrder(inputs, reply.answers, embed) || Tagged(inputs, reply.answers, embed)
  }

  ghost predicate Honest(w: World, embed: string -> Vector) {
    forall n: nat, inputs: seq<string> {:trigger w.reply(n, inputs)} :: HonestReply(inputs, w.reply(n, inputs), embed)
  }

  /** The server never refuses. */
  ghost predicate Willing(w: World) {
    forall n: nat, inputs: seq<string> {:trigger w.reply(n, inputs)} :: w.reply(n, inputs).Data?
  }

  // ---- placing the answers ----

  /** The position an answer is put at: its tag if usable, else where it stands in the list. */
  function Slot(answers: seq<Answer>, p: nat): (k: nat)
    requires p < |answers|
    ensures k < |answers|
  {
    if TagFits(answers[p], |answers|) then answers[p].index.value else p
  }

  /** The results after the first `p` answers were placed. */
  function Place(answers: seq<Answer>, todo: seq<nat>, before: seq<Option<Vector>>, p: nat): (out: seq<Option<Vector>>)
    requires p <= |answers| == |todo| && forall k :: 0 <= k < |todo| ==> todo[k] < |before|
    ensures |out| == |before|
  {
    if p == 0 then before
    else Place(answers, todo, before, p - 1)[todo[Slot(answers, p - 1)] := answers[p - 1].vector]
  }

  ghost predicate AscendingBelow(todo: seq<nat>, n: nat) {
    Increasing(todo) && forall k :: 0 <= k < |todo| ==> todo[k] < n
  }

  /** Positions that are not waiting keep their value. */
  lemma {:induction false} PlaceElsewhere(answers: seq<Answer>, todo: seq<nat>, before: seq<Option<Vector>>, p: nat,
                                          i: nat)
    requires p <= |answers| == |todo| && AscendingBelow(todo, |before|) && i < |before| && i !in todo
    ensures Place(answers, todo, before, p)[i] == before[i]
  {
    if p > 0 {
      PlaceElsewhere(answers, todo, before, p - 1, i);
      assert todo[Slot(answers, p - 1)] in todo;
    }
  }

  ghost predicate SlotUsed(answers: seq<Answer>, p: nat, k: nat)
    requires p <= |answers|
  {
    exists q :: 0 <= q < p && Slot(answers, q) == k
  }

  /** Each answer's vector belongs to the input whose slot it is put at. */
  ghost predicate TrueVectors(answers: seq<Answer>, inputs: seq<string>, embed: string -> Vector) {
    && |inputs| == |answers|
    && forall p :: 0 <= p < |answers| ==> answers[p].vector == Some(embed(inputs[Slot(answers, p)]))
  }

  /** An honest answer never puts a wrong vector anywhere, and what is placed stays placed. */
  lemma {:induction false} PlaceHonest(answers: seq<Answer>, todo: seq<nat>, before: seq<Option<Vector>>, p: nat,
                                       inputs: seq<string>, embed: string -> Vector, k: nat)
    requires p <= |answers| == |todo| && AscendingBelow(todo, |before|) && TrueVectors(answers, inputs, embed)
    requires k < |todo|
    ensures Place(answers, todo, before, p)[todo[k]] ==
            if SlotUsed(answers, p, k) then Some(embed(inputs[k])) else before[todo[k]]
  {
    if p > 0 {
      PlaceHonest(answers, todo, before, p - 1, inputs, embed, k);
      var s := Slot(answers, p - 1);
      assert s != k ==> todo[s] != todo[k];
      assert SlotUsed(answers, p, k) <==> SlotUsed(answers, p - 1, k) || s == k;
    }
  }

  /** All waiting positions get the right vector. */
  lemma PlaceComplete(answers: seq<Answer>, todo: seq<nat>, before: seq<Option<Vector>>, inputs: seq<string>,
                      embed: string -> Vector, k: nat)
    requires |answers| == |todo| == |inputs| && AscendingBelow(todo, |before|)
    requires InOrder(inputs, answers, embed) || Tagged(inputs, answers, embed)
    requires k < |todo|
    ensures Place(answers, todo, before, |answers|)[todo[k]] == Some(embed(inputs[k]))
  {
    assert TrueVectors(answers, inputs, embed);
    PlaceHonest(answers, todo, before, |answers|, inputs, embed, k);
    if Tagged(inputs, answers, embed) {
      var q :| 0 <= q < |answers| && answers[q].index == Some(k);
      assert Slot(answers, q) == k;
    } else {
      assert Slot(answers, k) == k;
    }
  }

  lemma {:induction false} PlaceAll(answers: seq<Answer>, todo: seq<nat>, before: seq<Option<Vector>>,
                                    prepared: seq<string>, inputs: seq<string>, embed: string -> Vector)
    requires |before| == |prepared| && AscendingBelow(todo, |prepared|) && |inputs| == |todo| == |answers|
    requires forall k :: 0 <= k < |todo| ==> inputs[k] == prepared[todo[k]]
    requires forall i :: 0 <= i < |prepared| && i !in todo ==> before[i] == Some(embed(prepared[i]))
    requires InOrder(inputs, answers, embed) || Tagged(inputs, answers, embed)
    ensures var result := Place(answers, todo, before, |answers|);
            forall i :: 0 <= i < |prepared| ==> result[i] == Some(embed(prepared[i]))
  {
    forall i | 0 <= i < |prepared|
      ensures Place(answers, todo, before, |answers|)[i] == Some(embed(prepared[i]))
    {
      if i in todo {
        var k :| 0 <= k < |todo| && todo[k] == i;
        PlaceComplete(answers, todo, before, inputs, embed, k);
      } else {
        PlaceElsewhere(answers, todo, before, |answers|, i);
      }
    }
  }

  // ---- what one operation does to the cache, contact by contact ----

  /** The first characters of the text, as many as the limit allows. */
  predicate IsPrepared(cfg: Config, text: string, t: string) {
    t <= text && |t| == if cfg.maxChars > 0 && |text| > cfg.maxChars then cfg.maxChars else |text|
  }

  lemma PreparedIff(cfg: Config, text: string, t: string)
    ensures IsPrepared(cfg, text, t) <==> t == Prepare(cfg, text)
  {
  }

  /** The cache is asked at contact `n` and knows the text. */
  predicate Known(cfg: Config, w: World, t: string, n: nat, cache: map<string, Option<Vector>>) {
    cfg.cacheUp && !w.cacheFails(n) && cfg.key(t) in cache
  }

  /** A known text is read; otherwise the server is asked, and its first answer is stored if the cache lets it. */
  ghost predicate TextDone(cfg: Config, w: World, t: string, n: nat, cache: map<string, Option<Vector>>,
                           r: Result<Option<Vector>>, n': nat, cache': map<string, Option<Vector>>) {
    var m := if cfg.cacheUp then n + 1 else n;
    if Known(cfg, w, t, n, cache) then r == Ok(cache[cfg.key(t)]) && n' == m && cache' == cache
    else if !cfg.server then r == Err && n' == m && cache' == cache
    else if w.reply(m, [t]).Refused? || w.reply(m, [t]).answers == [] then r == Err && n' == m + 1 && cache' == cache
    else
      var vector := w.reply(m, [t]).answers[0].vector;
      && r == Ok(vector) && n' == (if cfg.cacheUp then m + 2 else m + 1)
      && cache' == if cfg.cacheUp && !w.cacheFails(m + 1) then cache[cfg.key(t) := vector] else cache
  }

  /** What is known of the first `c` texts, one contact each, and the positions that are left. */
  ghost predicate Looked(cfg: Config, w: World, prepared: seq<string>, c: nat, n: nat,
                         cache: map<string, Option<Vector>>, result: seq<Option<Vector>>, todo: seq<nat>, n': nat) {
    && c <= |prepared| && |result| == c && AscendingBelow(todo, c)
    && n' == n + (if cfg.cacheUp then c else 0)
    && (forall i :: 0 <= i < c ==> (i in todo <==> !Known(cfg, w, prepared[i], n + i, cache)))
    && (forall i :: 0 <= i < c ==> result[i] == if i in todo then None else cache[cfg.key(prepared[i])])
  }

  lemma LookedSnoc(cfg: Config, w: World, prepared: seq<string>, c: nat, n: nat, cache: map<string, Option<Vector>>,
                   result: seq<Option<Vector>>, todo: seq<nat>, n': nat)
    requires Looked(cfg, w, prepared, c, n, cache, result, todo, n') && c < |prepared|
    ensures var next := if cfg.cacheUp then n' + 1 else n';
            if Known(cfg, w, prepared[c], n', cache)
            then Looked(cfg, w, prepared, c + 1, n, cache, result + [cache[cfg.key(prepared[c])]], todo, next)
            else Looked(cfg, w, prepared, c + 1, n, cache, result + [None], todo + [c], next)
  {
    assert cfg.cacheUp ==> n' == n + c;
    var more := todo + [c];
    forall i | 0 <= i < c
      ensures i in more <==> i in todo
    {
    }
    assert more[|todo|] == c && c !in todo;
  }

  /** The `p`-th answer is for the `k`-th input: by its tag, or else by its place. */
  predicate IsFor(answers: seq<Answer>, p: nat, k: nat)
    requires p < |answers|
  {
    match answers[p].index
    case Some(tag) => if 0 <= tag < |answers| then k == tag else k == p
    case None => k == p
  }

  /** It is the last one for that input. */
  predicate IsLastFor(answers: seq<Answer>, n: nat, p: nat, k: nat)
    requires n <= |answers|
  {
    p < n && IsFor(answers, p, k) && forall q :: p < q < n ==> !IsFor(answers, q, k)
  }

  predicate NoneFor(answers: seq<Answer>, n: nat, k: nat)
    requires n <= |answers|
  {
    forall q :: 0 <= q < n ==> !IsFor(answers, q, k)
  }

  /** A position that waited has the last answer for it, if there is one; all others keep their value. */
  ghost predicate Placed(answers: seq<Answer>, n: nat, todo: seq<nat>, before: seq<Option<Vector>>,
                         after: seq<Option<Vector>>)
    requires n <= |answers| == |todo| && forall k :: 0 <= k < |todo| ==> todo[k] < |before|
  {
    && |after| == |before|
    && (forall i :: 0 <= i < |before| && i !in todo ==> after[i] == before[i])
    && (forall k, p :: 0 <= k < |todo| && 0 <= p < n && IsLastFor(answers, n, p, k) ==>
          after[todo[k]] == answers[p].vector)
    && (forall k :: 0 <= k < |todo| && NoneFor(answers, n, k) ==> after[todo[k]] == before[todo[k]])
  }

  lemma SlotIs(answers: seq<Answer>, p: nat, k: nat)
    requires p < |answers|
    ensures IsFor(answers, p, k) <==> k == Slot(answers, p)
  {
  }

  lemma {:induction false} PlaceIsPlaced(answers: seq<Answer>, todo: seq<nat>, before: seq<Option<Vector>>, n: nat)
    requires n <= |answers| == |todo| && AscendingBelow(todo, |before|)
    ensures Placed(answers, n, todo, before, Place(answers, todo, before, n))
  {
    if n > 0 {
      PlaceIsPlaced(answers, todo, before, n - 1);
      var was, now := Place(answers, todo, before, n - 1), Place(answers, todo, before, n);
      var s := Slot(answers, n - 1);
      var last := n - 1;
      forall k: nat
        ensures IsFor(answers, last, k) <==> k == s
      {
        SlotIs(answers, last, k);
      }
      forall k | 0 <= k < |todo| && k != s
        ensures now[todo[k]] == was[todo[k]]
      {
      }
      forall k, p | 0 <= k < |todo| && 0 <= p < n && IsLastFor(answers, n, p, k)
        ensures now[todo[k]] == answers[p].vector
      {
        if p < n - 1 {
          assert !IsFor(answers, n - 1, k) && IsLastFor(answers, n - 1, p, k);
        }
      }
      forall k | 0 <= k < |todo| && NoneFor(answers, n, k)
        ensures now[todo[k]] == before[todo[k]]
      {
        assert !IsFor(answers, n - 1, k) && NoneFor(answers, n - 1, k);
      }
    }
  }

  // ---- what is stored ----

  /** The vector at the `k`-th position that waited is new for this key. */
  predicate Writes(cfg: Config, prepared: seq<string>, result: seq<Option<Vector>>, todo: seq<nat>, k: nat,
                   key: string)
    requires |result| == |prepared| && AscendingBelow(todo, |prepared|) && k < |todo|
  {
    result[todo[k]].Some? && cfg.key(prepared[todo[k]]) == key
  }

  predicate LastWrites(cfg: Config, prepared: seq<string>, result: seq<Option<Vector>>, todo: seq<nat>, s: nat,
                       k: nat, key: string)
    requires |result| == |prepared| && AscendingBelow(todo, |prepared|) && s <= |todo|
  {
    k < s && Writes(cfg, prepared, result, todo, k, key)
    && forall j :: k < j < s ==> !Writes(cfg, prepared, result, todo, j, key)
  }

  predicate Written(cfg: Config, prepared: seq<string>, result: seq<Option<Vector>>, todo: seq<nat>, s: nat,
                    key: string)
    requires |result| == |prepared| && AscendingBelow(todo, |prepared|) && s <= |todo|
  {
    exists k :: 0 <= k < s && Writes(cfg, prepared, result, todo, k, key)
  }

  /** The cache holds the last new vector of each key among the first `s`, and otherwise what it held. */
  ghost predicate Holds(cfg: Config, prepared: seq<string>, result: seq<Option<Vector>>, todo: seq<nat>, s: nat,
                        cache: map<string, Option<Vector>>, cache': map<string, Option<Vector>>)
    requires |result| == |prepared| && AscendingBelow(todo, |prepared|) && s <= |todo|
  {
    && (forall key :: key in cache' <==> key in cache || Written(cfg, prepared, result, todo, s, key))
    && (forall k: nat, key :: LastWrites(cfg, prepared, result, todo, s, k, key) ==>
          key in cache' && cache'[key] == result[todo[k]])
    && (forall key :: key in cache && !Written(cfg, prepared, result, todo, s, key) ==> cache'[key] == cache[key])
  }

  /** The positions with a new vector. */
  function News(result: seq<Option<Vector>>, todo: seq<nat>, s: nat): set<nat>
    requires s <= |todo| && forall k :: 0 <= k < |todo| ==> todo[k] < |result|
  {
    set k: nat | k < s && result[todo[k]].Some?
  }

  /** The new vectors before the `s`-th are stored, one contact each; there the cache failed, unless it is the end. */
  ghost predicate StoredUpTo(cfg: Config, w: World, prepared: seq<string>, result: seq<Option<Vector>>,
                             todo: seq<nat>, s: nat, n: nat, cache: map<string, Option<Vector>>, n': nat,
                             cache': map<string, Option<Vector>>)
    requires |result| == |prepared| && AscendingBelow(todo, |prepared|)
  {
    && s <= |todo| && Holds(cfg, prepared, result, todo, s, cache, cache')
    && (forall c :: n <= c < n + |News(result, todo, s)| ==> !w.cacheFails(c))
    && (if s == |todo| then n' == n + |News(result, todo, s)|
        else
          && result[todo[s]].Some? && w.cacheFails(n + |News(result, todo, s)|)
          && n' == n + |News(result, todo, s)| + 1)
  }

  ghost predicate Stored(cfg: Config, w: World, prepared: seq<string>, result: seq<Option<Vector>>, todo: seq<nat>,
                         n: nat, cache: map<string, Option<Vector>>, n': nat, cache': map<string, Option<Vector>>) {
    && |result| == |prepared| && AscendingBelow(todo, |prepared|)
    && exists s: nat :: StoredUpTo(cfg, w, prepared, result, todo, s, n, cache, n', cache')
  }

  lemma NewsSnoc(result: seq<Option<Vector>>, todo: seq<nat>, s: nat)
    requires s < |todo| && forall k :: 0 <= k < |todo| ==> todo[k] < |result|
    ensures |News(result, todo, s + 1)| == |News(result, todo, s)| + if result[todo[s]].Some? then 1 else 0
  {
    var here: set<nat> := if result[todo[s]].Some? then {s} else {};
    assert News(result, todo, s + 1) == News(result, todo, s) + here;
  }

  lemma HoldsNothing(cfg: Config, prepared: seq<string>, result: seq<Option<Vector>>, todo: seq<nat>,
                     cache: map<string, Option<Vector>>)
    requires |result| == |prepared| && AscendingBelow(todo, |prepared|)
    ensures Holds(cfg, prepared, result, todo, 0, cache, cache)
  {
  }

  lemma WrittenSnoc(cfg: Config, prepared: seq<string>, result: seq<Option<Vector>>, todo: seq<nat>, s: nat,
                    key: string)
    requires |result| == |prepared| && AscendingBelow(todo, |prepared|) && s < |todo|
    ensures Written(cfg, prepared, result, todo, s + 1, key) <==>
              Written(cfg, prepared, result, todo, s, key) || Writes(cfg, prepared, result, todo, s, key)
  {
  }

  lemma LastWritesSnoc(cfg: Config, prepared: seq<string>, result: seq<Option<Vector>>, todo: seq<nat>, s: nat,
                       k: nat, key: string)
    requires |result| == |prepared| && AscendingBelow(todo, |prepared|) && s < |todo|
    requires LastWrites(cfg, prepared, result, todo, s + 1, k, key)
    ensures if k == s then Writes(cfg, prepared, result, todo, s, key)
            else !Writes(cfg, prepared, result, todo, s, key) && LastWrites(cfg, prepared, result, todo, s, k, key)
  {
  }

  /** The cache after one more position. */
  function Updated(cfg: Config, prepared: seq<string>, result: seq<Option<Vector>>, todo: seq<nat>, s: nat,
                   now: map<string, Option<Vector>>): map<string, Option<Vector>>
    requires |result| == |prepared| && AscendingBelow(todo, |prepared|) && s < |todo|
  {
    if result[todo[s]].Some? then now[cfg.key(prepared[todo[s]]) := result[todo[s]]] else now
  }

  lemma HoldsSnoc(cfg: Config, prepared: seq<string>, result: seq<Option<Vector>>, todo: seq<nat>, s: nat,
                  cache: map<string, Option<Vector>>, now: map<string, Option<Vector>>)
    requires |result| == |prepared| && AscendingBelow(todo, |prepared|) && s < |todo|
    requires Holds(cfg, prepared, result, todo, s, cache, now)
    ensures Holds(cfg, prepared, result, todo, s + 1, cache, Updated(cfg, prepared, result, todo, s, now))
  {
    var after := Updated(cfg, prepared, result, todo, s, now);
    forall key
      ensures key in after <==> key in cache || Written(cfg, prepared, result, todo, s + 1, key)
      ensures key in cache && !Written(cfg, prepared, result, todo, s + 1, key) ==> after[key] == cache[key]
    {
      WrittenSnoc(cfg, prepared, result, todo, s, key);
    }
    forall k: nat, key | LastWrites(cfg, prepared, result, todo, s + 1, k, key)
      ensures key in after && after[key] == result[todo[k]]
    {
      LastWritesSnoc(cfg, prepared, result, todo, s, k, key);
    }
  }

  /** The new vectors before the `k`-th are stored, and no contact failed. */
  ghost predicate Storing(cfg: Config, w: World, prepared: seq<string>, result: seq<Option<Vector>>, todo: seq<nat>,
                          k: nat, n: nat, cache: map<string, Option<Vector>>, n': nat,
                          now: map<string, Option<Vector>>)
    requires |result| == |prepared| && AscendingBelow(todo, |prepared|)
  {
    && k <= |todo| && Holds(cfg, prepared, result, todo, k, cache, now) && n' == n + |News(result, todo, k)|
    && forall c :: n <= c < n' ==> !w.cacheFails(c)
  }

  lemma StoringBegins(cfg: Config, w: World, prepared: seq<string>, result: seq<Option<Vector>>, todo: seq<nat>,
                      n: nat, cache: map<string, Option<Vector>>)
    requires |result| == |prepared| && AscendingBelow(todo, |prepared|)
    ensures Storing(cfg, w, prepared, result, todo, 0, n, cache, n, cache)
  {
    HoldsNothing(cfg, prepared, result, todo, cache);
    assert News(result, todo, 0) == {};
  }

  lemma StoringNext(cfg: Config, w: World, prepared: seq<string>, result: seq<Option<Vector>>, todo: seq<nat>,
                    k: nat, n: nat, cache: map<string, Option<Vector>>, n': nat, now: map<string, Option<Vector>>)
    requires |result| == |prepared| && AscendingBelow(todo, |prepared|) && k < |todo|
    requires Storing(cfg, w, prepared, result, todo, k, n, cache, n', now)
    ensures result[todo[k]].None? ==> Storing(cfg, w, prepared, result, todo, k + 1, n, cache, n', now)
    ensures result[todo[k]].Some? && !w.cacheFails(n') ==>
              Storing(cfg, w, prepared, result, todo, k + 1, n, cache, n' + 1,
                      now[cfg.key(prepared[todo[k]]) := result[todo[k]]])
    ensures result[todo[k]].Some? && w.cacheFails(n') ==>
              Stored(cfg, w, prepared, result, todo, n, cache, n' + 1, now)
  {
    NewsSnoc(result, todo, k);
    HoldsSnoc(cfg, prepared, result, todo, k, cache, now);
    if result[todo[k]].Some? && w.cacheFails(n') {
      assert StoredUpTo(cfg, w, prepared, result, todo, k, n, cache, n' + 1, now);
    }
  }

  lemma StoringEnds(cfg: Config, w: World, prepared: seq<string>, result: seq<Option<Vector>>, todo: seq<nat>,
                    n: nat, cache: map<string, Option<Vector>>, n': nat, now: map<string, Option<Vector>>)
    requires |result| == |prepared| && AscendingBelow(todo, |prepared|)
    requires Storing(cfg, w, prepared, result, todo, |todo|, n, cache, n', now)
    ensures Stored(cfg, w, prepared, result, todo, n, cache, n', now)
  {
    assert StoredUpTo(cfg, w, prepared, result, todo, |todo|, n, cache, n', now);
  }

  lemma {:induction false} WrittenLast(cfg: Config, prepared: seq<string>, result: seq<Option<Vector>>,
                                       todo: seq<nat>, s: nat, key: string) returns (k: nat)
    requires |result| == |prepared| && AscendingBelow(todo, |prepared|) && s <= |todo|
    requires Written(cfg, prepared, result, todo, s, key)
    ensures LastWrites(cfg, prepared, result, todo, s, k, key)
  {
    WrittenSnoc(cfg, prepared, result, todo, s - 1, key);
    if Writes(cfg, prepared, result, todo, s - 1, key) {
      k := s - 1;
    } else {
      k := WrittenLast(cfg, prepared, result, todo, s - 1, key);
    }
  }

  /** Storing right vectors keeps the cache right. */
  lemma StoredIsCorrect(cfg: Config, w: World, prepared: seq<string>, result: seq<Option<Vector>>, todo: seq<nat>,
                        n: nat, cache: map<string, Option<Vector>>, n': nat, cache': map<string, Option<Vector>>,
                        embed: string -> Vector)
    requires InjectiveKey(cfg) && CorrectCache(cfg, cache, embed) && |result| == |prepared|
    requires Stored(cfg, w, prepared, result, todo, n, cache, n', cache')
    requires forall k :: 0 <= k < |todo| ==> result[todo[k]] == Some(embed(prepared[todo[k]]))
    ensures CorrectCache(cfg, cache', embed)
  {
    var s: nat :| StoredUpTo(cfg, w, prepared, result, todo, s, n, cache, n', cache');
    forall t | cfg.key(t) in cache'
      ensures cache'[cfg.key(t)] == Some(embed(t))
    {
      if Written(cfg, prepared, result, todo, s, cfg.key(t)) {
        var k := WrittenLast(cfg, prepared, result, todo, s, cfg.key(t));
        assert prepared[todo[k]] == t;
      }
    }
  }

  /** Every position has a vector, or there is no result. */
  ghost predicate Completes(result: seq<Option<Vector>>, r: Result<seq<Vector>>) {
    if None in result then r == Err
    else r.Ok? && |r.value| == |result| && forall i :: 0 <= i < |result| ==> result[i] == Some(r.value[i])
  }

  ghost predicate InputsAre(prepared: seq<string>, todo: seq<nat>, inputs: seq<string>) {
    && |inputs| == |todo| && AscendingBelow(todo, |prepared|)
    && forall k :: 0 <= k < |todo| ==> inputs[k] == prepared[todo[k]]
  }

  function InputsFor(prepared: seq<string>, todo: seq<nat>): (inputs: seq<string>)
    requires AscendingBelow(todo, |prepared|)
    ensures InputsAre(prepared, todo, inputs)
  {
    seq(|todo|, k requires 0 <= k < |todo| => prepared[todo[k]])
  }

  /** The answers are placed and stored. */
  ghost predicate AnswersUsed(cfg: Config, w: World, prepared: seq<string>, looked: seq<Option<Vector>>,
                              todo: seq<nat>, answers: seq<Answer>, n: nat, cache: map<string, Option<Vector>>,
                              r: Result<seq<Vector>>, n': nat, cache': map<string, Option<Vector>>)
    requires |looked| == |prepared| && AscendingBelow(todo, |prepared|) && |answers| == |todo|
  {
    exists placed :: && Placed(answers, |answers|, todo, looked, placed) && Completes(placed, r)
                     && if cfg.cacheUp then Stored(cfg, w, prepared, placed, todo, n, cache, n', cache')
                        else n' == n && cache' == cache
  }

  /** What is not known is asked for in one request, in its order, and the answers fill the gaps. */
  ghost predicate GapsFilled(cfg: Config, w: World, prepared: seq<string>, looked: seq<Option<Vector>>,
                             todo: seq<nat>, inputs: seq<string>, m: nat, cache: map<string, Option<Vector>>,
                             r: Result<seq<Vector>>, n': nat, cache': map<string, Option<Vector>>)
    requires |looked| == |prepared| && AscendingBelow(todo, |prepared|)
  {
    if todo == [] then Completes(looked, r) && n' == m && cache' == cache
    else if !cfg.server then r == Err && n' == m && cache' == cache
    else if w.reply(m, inputs).Refused? || |w.reply(m, inputs).answers| != |todo| then
      r == Err && n' == m + 1 && cache' == cache
    else AnswersUsed(cfg, w, prepared, looked, todo, w.reply(m, inputs).answers, m + 1, cache, r, n', cache')
  }

  ghost predicate AllPrepared(cfg: Config, texts: seq<string>, prepared: seq<string>) {
    |prepared| == |texts| && forall i :: 0 <= i < |texts| ==> IsPrepared(cfg, texts[i], prepared[i])
  }

  ghost predicate BatchDone(cfg: Config, w: World, texts: seq<string>, n: nat, cache: map<string, Option<Vector>>,
                            r: Result<seq<Vector>>, n': nat, cache': map<string, Option<Vector>>) {
    exists prepared, looked, todo, inputs, m: nat ::
      && AllPrepared(cfg, texts, prepared) && Looked(cfg, w, prepared, |prepared|, n, cache, looked, todo, m)
      && InputsAre(prepared, todo, inputs)
      && GapsFilled(cfg, w, prepared, looked, todo, inputs, m, cache, r, n', cache')
  }

  function Complete(result: seq<Option<Vector>>): (r: Result<seq<Vector>>)
    ensures Completes(result, r)
  {
    if None in result then Err
    else Ok(seq(|result|, i requires 0 <= i < |result| => result[i].value))
  }

  ghost predicate RightVectors(cfg: Config, texts: seq<string>, vectors: seq<Vector>, embed: string -> Vector) {
    |vectors| == |texts| && forall i :: 0 <= i < |texts| ==> vectors[i] == embed(Prepare(cfg, texts[i]))
  }

  lemma LookedIsCorrect(cfg: Config, w: World, prepared: seq<string>, n: nat, cache: map<string, Option<Vector>>,
                        looked: seq<Option<Vector>>, todo: seq<nat>, m: nat, embed: string -> Vector)
    requires CorrectCache(cfg, cache, embed) && Looked(cfg, w, prepared, |prepared|, n, cache, looked, todo, m)
    ensures forall i :: 0 <= i < |prepared| && i !in todo ==> looked[i] == Some(embed(prepared[i]))
  {
  }

  lemma {:induction false} LastAnswer(answers: seq<Answer>, n: nat, k: nat) returns (p: nat)
    requires n <= |answers| && !NoneFor(answers, n, k)
    ensures IsLastFor(answers, n, p, k)
  {
    if IsFor(answers, n - 1, k) {
      p := n - 1;
    } else {
      p := LastAnswer(answers, n - 1, k);
    }
  }

  lemma PlacedOnce(answers: seq<Answer>, todo: seq<nat>, before: seq<Option<Vector>>, a: seq<Option<Vector>>,
                   b: seq<Option<Vector>>)
    requires |answers| == |todo| && AscendingBelow(todo, |before|)
    requires Placed(answers, |answers|, todo, before, a) && Placed(answers, |answers|, todo, before, b)
    ensures a == b
  {
    forall i | 0 <= i < |before|
      ensures a[i] == b[i]
    {
      if i in todo {
        var k :| 0 <= k < |todo| && todo[k] == i;
        if !NoneFor(answers, |answers|, k) {
          var p := LastAnswer(answers, |answers|, k);
        }
      }
    }
  }

  lemma AnswersAreRight(cfg: Config, w: World, prepared: seq<string>, looked: seq<Option<Vector>>, todo: seq<nat>,
                        inputs: seq<string>, answers: seq<Answer>, placed: seq<Option<Vector>>,
                        embed: string -> Vector)
    requires |looked| == |prepared| && InputsAre(prepared, todo, inputs) && |answers| == |todo|
    requires forall i :: 0 <= i < |prepared| && i !in todo ==> looked[i] == Some(embed(prepared[i]))
    requires InOrder(inputs, answers, embed) || Tagged(inputs, answers, embed)
    requires Placed(answers, |answers|, todo, looked, placed)
    ensures forall i :: 0 <= i < |prepared| ==> placed[i] == Some(embed(prepared[i]))
  {
    PlaceIsPlaced(answers, todo, looked, |answers|);
    PlacedOnce(answers, todo, looked, placed, Place(answers, todo, looked, |answers|));
    PlaceAll(answers, todo, looked, prepared, inputs, embed);
  }

  lemma CompletesRight(cfg: Config, texts: seq<string>, prepared: seq<string>, result: seq<Option<Vector>>,
                       r: Result<seq<Vector>>, embed: string -> Vector)
    requires AllPrepared(cfg, texts, prepared) && |result| == |prepared| && Completes(result, r)
    requires forall i :: 0 <= i < |prepared| ==> result[i] == Some(embed(prepared[i]))
    ensures r.Ok? && RightVectors(cfg, texts, r.value, embed)
  {
    forall i | 0 <= i < |texts|
      ensures prepared[i] == Prepare(cfg, texts[i])
    {
      PreparedIff(cfg, texts[i], prepared[i]);
    }
  }

  lemma GapsAreRight(cfg: Config, w: World, texts: seq<string>, prepared: seq<string>, n: nat,
                     cache: map<string, Option<Vector>>, looked: seq<Option<Vector>>, todo: seq<nat>,
                     inputs: seq<string>, m: nat, r: Result<seq<Vector>>, n': nat,
                     cache': map<string, Option<Vector>>, embed: string -> Vector)
    requires AllPrepared(cfg, texts, prepared)
    requires Looked(cfg, w, prepared, |prepared|, n, cache, looked, todo, m) && InputsAre(prepared, todo, inputs)
    requires GapsFilled(cfg, w, prepared, looked, todo, inputs, m, cache, r, n', cache')
    requires InjectiveKey(cfg) && CorrectCache(cfg, cache, embed) && Honest(w, embed)
    ensures CorrectCache(cfg, cache', embed) && (r.Ok? ==> RightVectors(cfg, texts, r.value, embed))
    ensures cfg.server && Willing(w) ==> r.Ok?
  {
    LookedIsCorrect(cfg, w, prepared, n, cache, looked, todo, m, embed);
    if todo == [] {
      CompletesRight(cfg, texts, prepared, looked, r, embed);
    } else if cfg.server {
      var reply := w.reply(m, inputs);
      assert HonestReply(inputs, reply, embed);
      if reply.Data? && |reply.answers| == |todo| {
        UsedAreRight(cfg, w, texts, prepared, looked, todo, inputs, reply.answers, m + 1, cache, r, n', cache', embed);
      }
    }
  }

  lemma UsedAreRight(cfg: Config, w: World, texts: seq<string>, prepared: seq<string>, looked: seq<Option<Vector>>,
                     todo: seq<nat>, inputs: seq<string>, answers: seq<Answer>, n: nat,
                     cache: map<string, Option<Vector>>, r: Result<seq<Vector>>, n': nat,
                     cache': map<string, Option<Vector>>, embed: string -> Vector)
    requires AllPrepared(cfg, texts, prepared) && |looked| == |prepared| && InputsAre(prepared, todo, inputs)
    requires |answers| == |todo| && (InOrder(inputs, answers, embed) || Tagged(inputs, answers, embed))
    requires forall i :: 0 <= i < |prepared| && i !in todo ==> looked[i] == Some(embed(prepared[i]))
    requires AnswersUsed(cfg, w, prepared, looked, todo, answers, n, cache, r, n', cache')
    requires InjectiveKey(cfg) && CorrectCache(cfg, cache, embed)
    ensures CorrectCache(cfg, cache', embed) && r.Ok? && RightVectors(cfg, texts, r.value, embed)
  {
    var placed :| && Placed(answers, |answers|, todo, looked, placed) && Completes(placed, r)
                  && if cfg.cacheUp then Stored(cfg, w, prepared, placed, todo, n, cache, n', cache')
                     else n' == n && cache' == cache;
    AnswersAreRight(cfg, w, prepared, looked, todo, inputs, answers, placed, embed);
    CompletesRight(cfg, texts, prepared, placed, r, embed);
    if cfg.cacheUp {
      StoredIsCorrect(cfg, w, prepared, placed, todo, n, cache, n', cache', embed);
    }
  }

  lemma BatchIsRight(cfg: Config, w: World, texts: seq<string>, n: nat, cache: map<string, Option<Vector>>,
                     r: Result<seq<Vector>>, n': nat, cache': map<string, Option<Vector>>, embed: string -> Vector)
    requires BatchDone(cfg, w, texts, n, cache, r, n', cache')
    requires InjectiveKey(cfg) && CorrectCache(cfg, cache, embed) && Honest(w, embed)
    ensures CorrectCache(cfg, cache', embed) && (r.Ok? ==> RightVectors(cfg, texts, r.value, embed))
    ensures cfg.server && Willing(w) ==> r.Ok?
  {
    var prepared, looked, todo, inputs, m: nat :|
      && AllPrepared(cfg, texts, prepared) && Looked(cfg, w, prepared, |prepared|, n, cache, looked, todo, m)
      && InputsAre(prepared, todo, inputs)
      && GapsFilled(cfg, w, prepared, looked, todo, inputs, m, cache, r, n', cache');
    GapsAreRight(cfg, w, texts, prepared, n, cache, looked, todo, inputs, m, r, n', cache', embed);
  }

  lemma AllArePrepared(cfg: Config, texts: seq<string>)
    ensures AllPrepared(cfg, texts, PrepareAll(cfg, texts))
  {
  }

  lemma BatchIsDone(cfg: Config, w: World, texts: seq<string>, prepared: seq<string>, n: nat,
                    cache: map<string, Option<Vector>>, looked: seq<Option<Vector>>, todo: seq<nat>,
                    inputs: seq<string>, m: nat, r: Result<seq<Vector>>, n': nat,
                    cache': map<string, Option<Vector>>)
    requires AllPrepared(cfg, texts, prepared)
    requires Looked(cfg, w, prepared, |prepared|, n, cache, looked, todo, m) && InputsAre(prepared, todo, inputs)
    requires GapsFilled(cfg, w, prepared, looked, todo, inputs, m, cache, r, n', cache')
    ensures BatchDone(cfg, w, texts, n, cache, r, n', cache')
  {
  }
}
