/** Cached and batched text embedding (shared/db.py). */
module Embedding {
  import opened EmbeddingCache
  import opened Text

  class Embedder {
    const world: World
    var cache: map<string, Option<Vector>>
    var contacts: nat  // how often the outside world was contacted
    ghost var log: seq<Asked>  // what callers asked for, and what they got

    /** Everything the caller may rely on is right: keys, cache and server. */
    ghost predicate Sound(cfg: Config, embed: string -> Vector)
      reads this
    {
      InjectiveKey(cfg) && CorrectCache(cfg, cache, embed) && Honest(world, embed)
    }

    /** How often the outside world was contacted, and the cache. */
    ghost function Here(): Moment
      reads this
    {
      Moment(contacts, cache)
    }

    constructor (world: World, cache: map<string, Option<Vector>>)
      ensures this.world == world && this.cache == cache && contacts == 0 && log == []
    {
      this.world, this.cache, this.contacts, this.log := world, cache, 0, [];
    }

    /** A hit, unless the cache is down, fails, or does not know the text. */
    method CacheGet(cfg: Config, text: string) returns (hit: bool, value: Option<Vector>)
      modifies `contacts
      ensures hit ==> cfg.key(text) in cache && value == cache[cfg.key(text)]
      ensures hit <==> Known(cfg, world, text, old(contacts), cache)
      ensures !hit ==> value == None
      ensures contacts == old(contacts) + if cfg.cacheUp then 1 else 0
    {
      hit, value := false, None;
      if cfg.cacheUp {
        if !world.cacheFails(contacts) && cfg.key(text) in cache {
          hit, value := true, cache[cfg.key(text)];
        }
        contacts := contacts + 1;
      }
    }

    method CacheSet(cfg: Config, text: string, value: Option<Vector>) returns (stored: bool)
      modifies `contacts, `cache
      ensures stored <==> !world.cacheFails(old(contacts))
      ensures cache == if stored then old(cache)[cfg.key(text) := value] else old(cache)
      ensures contacts == old(contacts) + 1
    {
      stored := !world.cacheFails(contacts);
      contacts := contacts + 1;
      if stored {
        cache := cache[cfg.key(text) := value];
      }
    }

    /** One text at a time; the server's null is handed on as null. */
    method EmbedText(cfg: Config, text: string, ghost embed: string -> Vector) returns (r: Result<Option<Vector>>)
      modifies this
      ensures old(Sound(cfg, embed)) ==> Sound(cfg, embed)
      ensures old(Sound(cfg, embed)) && r.Ok? ==> r.value == Some(embed(Prepare(cfg, text)))
      ensures old(Sound(cfg, embed)) && cfg.server && Willing(world) ==> r.Ok?
      ensures exists t :: IsPrepared(cfg, text, t)
                          && TextDone(cfg, world, t, old(contacts), old(cache), r, contacts, cache)
      ensures log == old(log) + [One(text, OutcomeOf(r))]
      ensures Did(cfg, world, old(Here()), One(text, OutcomeOf(r)), Here())
    {
      r := Err;
      var t := Prepare(cfg, text);
      PreparedIff(cfg, text, t);
      var hit, cached := CacheGet(cfg, t);
      if hit {
        r := Ok(cached);
      } else if cfg.server {
        var reply := world.reply(contacts, [t]);
        contacts := contacts + 1;
        if reply.Data? && reply.answers != [] {
          var vector := reply.answers[0].vector;
          if cfg.cacheUp {
            var _ := CacheSet(cfg, t, vector);
          }
          r := Ok(vector);
        }
      }
      log := log + [One(text, OutcomeOf(r))];
      assert TextDone(cfg, world, t, old(contacts), old(cache), r, contacts, cache);
      OneIsDone(cfg, world, old(Here()), text, t, r, Here());
    }

    /** What of the batch is in the cache, and which positions are left to ask for. */
    method ReadCache(cfg: Config, prepared: seq<string>) returns (result: seq<Option<Vector>>, todo: seq<nat>)
      modifies `contacts
      ensures Looked(cfg, world, prepared, |prepared|, old(contacts), cache, result, todo, contacts)
    {
      result, todo := [], [];
      for i := 0 to |prepared|
        invariant Looked(cfg, world, prepared, i, old(contacts), cache, result, todo, contacts)
      {
        LookedSnoc(cfg, world, prepared, i, old(contacts), cache, result, todo, contacts);
        var hit, cached := CacheGet(cfg, prepared[i]);
        result := result + [cached];
        if !hit {
          todo := todo + [i];
        }
      }
    }

    /** Storing the new vectors stops at the first failure; nulls are not stored. */
    method WriteCache(cfg: Config, prepared: seq<string>, result: seq<Option<Vector>>, todo: seq<nat>)
      requires |result| == |prepared| && AscendingBelow(todo, |prepared|)
      modifies `contacts, `cache
      ensures Stored(cfg, world, prepared, result, todo, old(contacts), old(cache), contacts, cache)
    {
      var k := 0;
      StoringBegins(cfg, world, prepared, result, todo, contacts, cache);
      while k < |todo|
        invariant k <= |todo|
        invariant Storing(cfg, world, prepared, result, todo, k, old(contacts), old(cache), contacts, cache)
      {
        StoringNext(cfg, world, prepared, result, todo, k, old(contacts), old(cache), contacts, cache);
        if result[todo[k]].Some? {
          var stored := CacheSet(cfg, prepared[todo[k]], result[todo[k]]);
          if !stored {
            return;
          }
        }
        k := k + 1;
      }
      StoringEnds(cfg, world, prepared, result, todo, old(contacts), old(cache), contacts, cache);
    }

    /** Many texts in one request: if nothing lies, the result is the embedding of each text in its place, whatever
        was cached, repeated, or failed in the cache; and it comes whenever the server does not refuse. */
    method EmbedBatch(cfg: Config, texts: seq<string>, ghost embed: string -> Vector) returns (r: Result<seq<Vector>>)
      modifies this
      ensures r.Ok? ==> |r.value| == |texts|
      ensures old(Sound(cfg, embed)) ==> Sound(cfg, embed)
      ensures old(Sound(cfg, embed)) && r.Ok? ==> RightVectors(cfg, texts, r.value, embed)
      ensures old(Sound(cfg, embed)) && cfg.server && Willing(world) ==> r.Ok?
      ensures BatchDone(cfg, world, texts, old(contacts), old(cache), r, contacts, cache)
      ensures log == old(log) + [Batch(texts, if r.Ok? then Some(r.value) else None)]
    {
      r := AskBatch(cfg, texts);
      if old(Sound(cfg, embed)) {
        BatchIsRight(cfg, world, texts, old(contacts), old(cache), r, contacts, cache, embed);
      }
      log := log + [Batch(texts, if r.Ok? then Some(r.value) else None)];
    }

    method AskBatch(cfg: Config, texts: seq<string>) returns (r: Result<seq<Vector>>)
      modifies `contacts, `cache
      ensures BatchDone(cfg, world, texts, old(contacts), old(cache), r, contacts, cache)
    {
      var prepared := PrepareAll(cfg, texts);
      AllArePrepared(cfg, texts);
      var looked, todo := ReadCache(cfg, prepared);
      ghost var m := contacts;
      var inputs := InputsFor(prepared, todo);
      r := Err;
      if todo == [] {
        r := Complete(looked);
      } else if cfg.server {
        var reply := world.reply(contacts, inputs);
        contacts := contacts + 1;
        if reply.Data? && |reply.answers| == |todo| {
          r := UseAnswers(cfg, prepared, looked, todo, reply.answers);
        }
      }
      BatchIsDone(cfg, world, texts, prepared, old(contacts), old(cache), looked, todo, inputs, m, r, contacts, cache);
    }

    /** The answers are put in their places and stored. */
    method UseAnswers(cfg: Config, prepared: seq<string>, looked: seq<Option<Vector>>, todo: seq<nat>,
                      answers: seq<Answer>)
      returns (r: Result<seq<Vector>>)
      requires |looked| == |prepared| && AscendingBelow(todo, |prepared|) && |answers| == |todo|
      modifies `contacts, `cache
      ensures AnswersUsed(cfg, world, prepared, looked, todo, answers, old(contacts), old(cache), r, contacts, cache)
    {
      var result := looked;
      for p := 0 to |answers|
        invariant |result| == |looked| && result == Place(answers, todo, looked, p)
      {
        result := result[todo[Slot(answers, p)] := answers[p].vector];
      }
      PlaceIsPlaced(answers, todo, looked, |answers|);
      if cfg.cacheUp {
        WriteCache(cfg, prepared, result, todo);
      }
      r := Complete(result);
    }

    /** The texts of a batch that failed, one at a time. */
    method EmbedSingly(cfg: Config, batch: seq<string>, ghost os: seq<Outcome>, out0: seq<Option<Vector>>,
                       consecutive0: nat, maxFailures: int, ghost embed: string -> Vector)
      returns (out: seq<Option<Vector>>, consecutive: nat, stopped: bool, ghost got: seq<Outcome>,
               ghost ms: seq<Moment>)
      requires Reached(os, |os|, out0, consecutive0, maxFailures)
      modifies this
      ensures |got| <= |batch| && |out| == |os + got| && log == old(log) + Ones(batch, got)
      ensures Continued(os + got, out, consecutive, maxFailures, stopped) && (!stopped ==> |got| == |batch|)
      ensures Went(cfg, world, old(Here()), Ones(batch, got), ms, Here())
      ensures old(Sound(cfg, embed)) ==> Sound(cfg, embed) && Right(got, batch, cfg, embed)
    {
      out, consecutive, stopped, got, ms := out0, consecutive0, false, [], [];
      ghost var all := os;
      assert os + [] == os;
      for i := 0 to |batch|
        invariant |got| == i && !stopped && all == os + got && log == old(log) + Ones(batch, got)
        invariant Reached(all, |all|, out, consecutive, maxFailures)
        invariant Went(cfg, world, old(Here()), Ones(batch, got), ms, Here())
        invariant old(Sound(cfg, embed)) ==> Sound(cfg, embed) && Right(got, batch, cfg, embed)
      {
        ghost var here := Here();
        var r := EmbedText(cfg, batch[i], embed);
        ghost var o := OutcomeOf(r);
        WentOn(cfg, world, old(Here()), Ones(batch, got), ms, here, One(batch[i], o), Here());
        ms := ms + [Here()];
        OnesSnoc(batch, got, o);
        Associative(old(log), Ones(batch, got), [One(batch[i], o)]);
        RightSnoc(got, o, batch, cfg, embed);
        ReachOne(all, out, consecutive, maxFailures, o);
        Associative(os, got, [o]);
        got, all := got + [o], all + [o];
        match r
        case Ok(vector) =>
          out := out + [vector];
          consecutive := 0;
        case Err =>
          out := out + [None];
          consecutive := consecutive + 1;
          if consecutive >= maxFailures {
            stopped := true;
            return;
          }
      }
    }

    /** A batch, and what is known of it afterwards. */
    method TryBatch(cfg: Config, batch: seq<string>, ghost embed: string -> Vector) returns (b: Result<seq<Vector>>)
      modifies this
      ensures b.Ok? ==> |b.value| == |batch|
      ensures log == old(log) + [Batch(batch, if b.Ok? then Some(b.value) else None)]
      ensures Went(cfg, world, old(Here()), [Batch(batch, if b.Ok? then Some(b.value) else None)], [Here()], Here())
      ensures old(Sound(cfg, embed)) ==>
                Sound(cfg, embed) && (b.Ok? ==> Right(FromBatch(b.value), batch, cfg, embed))
      ensures old(Sound(cfg, embed)) && cfg.server && Willing(world) ==> b.Ok?
    {
      b := EmbedBatch(cfg, batch, embed);
      BatchIsDid(cfg, world, old(Here()), batch, b, Here());
    }

    /** One batch: together, or singly after it failed. */
    method EmbedChunk(cfg: Config, batch: seq<string>, ghost os: seq<Outcome>, out0: seq<Option<Vector>>,
                      consecutive0: nat, maxFailures: int, ghost embed: string -> Vector)
      returns (out: seq<Option<Vector>>, consecutive: nat, stopped: bool, ghost c: Chunk, ghost ms: seq<Moment>)
      requires Reached(os, |os|, out0, consecutive0, maxFailures) && batch != []
      modifies this
      ensures |ChunkOutcomes(c)| <= |batch| && |out| == |os + ChunkOutcomes(c)|
      ensures log == old(log) + ChunkAsked(c, batch)
      ensures Went(cfg, world, old(Here()), ChunkAsked(c, batch), ms, Here())
      ensures Continued(os + ChunkOutcomes(c), out, consecutive, maxFailures, stopped)
      ensures !stopped ==> |ChunkOutcomes(c)| == |batch|
      ensures old(Sound(cfg, embed)) ==> Sound(cfg, embed) && Right(ChunkOutcomes(c), batch, cfg, embed)
      ensures old(Sound(cfg, embed)) && cfg.server && Willing(world) ==> !stopped && NoneRaised(ChunkOutcomes(c))
    {
      var b := TryBatch(cfg, batch, embed);
      ghost var got, here := [], Here();
      ms := [here];
      if b.Ok? {
        c := Together(b.value);
        ReachBatch(os, b.value, out0, consecutive0, maxFailures);
        return out0 + Values(FromBatch(b.value)), 0, false, c, ms;
      }
      out, consecutive, stopped, got, ms := EmbedSingly(cfg, batch, os, out0, consecutive0, maxFailures, embed);
      c := Singly(got);
      WentSingly(cfg, world, old(Here()), batch, here, got, ms, Here());
      ms := [here] + ms;
      Associative(old(log), [Batch(batch, None)], Ones(batch, got));
    }

    /** Batch after batch, a failed one text by text. The failure counter is the length of the failure run at the end of
        the results, across batches: the work is abandoned exactly when that run reaches the limit, and otherwise every
        text has its value in place. If nothing lies, a value is the embedding of its own text. */
    method EmbedTexts(cfg: Config, texts: seq<string>, size: int, maxFailures: int, ghost embed: string -> Vector)
      returns (r: Run, ghost chunks: seq<Chunk>, ghost ms: seq<Moment>)
      modifies this
      ensures Begun(chunks, |texts|, size) && log == old(log) + AskedFor(chunks, texts, size)
      ensures Asks(AskedFor(chunks, texts, size), texts, if size > 1 then size else 1, chunks, |OutcomesOf(chunks)|)
      ensures Went(cfg, world, old(Here()), AskedFor(chunks, texts, size), ms, Here())
      ensures InBatches(chunks, |texts|, size) && RunsRightly(OutcomesOf(chunks), |texts|, maxFailures, r)
      ensures old(Sound(cfg, embed)) ==> Sound(cfg, embed) && Right(OutcomesOf(chunks), texts, cfg, embed)
      ensures old(Sound(cfg, embed)) && cfg.server && Willing(world) ==> r.Completed? && NoneRaised(OutcomesOf(chunks))
    {
      r, chunks, ms := EmbedAll(cfg, texts, size, maxFailures, embed);
      AskedIs(chunks, texts, size, if size > 1 then size else 1);
      RunIsRight(OutcomesOf(chunks), |texts|, maxFailures, r);
      BegunInBatches(chunks, |texts|, size);
    }

    method EmbedAll(cfg: Config, texts: seq<string>, size: int, maxFailures: int, ghost embed: string -> Vector)
      returns (r: Run, ghost chunks: seq<Chunk>, ghost ms: seq<Moment>)
      modifies this
      ensures Begun(chunks, |texts|, size) && log == old(log) + AskedFor(chunks, texts, size)
      ensures RunOf(OutcomesOf(chunks), |texts|, maxFailures, r)
      ensures Went(cfg, world, old(Here()), AskedFor(chunks, texts, size), ms, Here())
      ensures old(Sound(cfg, embed)) ==> Sound(cfg, embed) && Right(OutcomesOf(chunks), texts, cfg, embed)
      ensures old(Sound(cfg, embed)) && cfg.server && Willing(world) ==> r.Completed? && NoneRaised(OutcomesOf(chunks))
    {
      var out: seq<Option<Vector>>, consecutive, start := [], 0, 0;
      chunks, ms := [], [];
      ghost var sound := Sound(cfg, embed);
      ghost var sure := sound && cfg.server && Willing(world);
      while start < |texts|
        invariant Progressed(chunks, start, texts, size, out, consecutive, maxFailures)
        invariant log == old(log) + AskedFor(chunks, texts, size)
        invariant Went(cfg, world, old(Here()), AskedFor(chunks, texts, size), ms, Here())
        invariant sound ==> Sound(cfg, embed)
        invariant Trusted(chunks, texts, cfg, embed, sound, sure)
        decreases |texts| - start
      {
        var end := ChunkEnd(start, |texts|, size);
        ghost var before, c := chunks, Singly([]);
        ghost var more, here := [], Here();
        var stopped: bool;
        out, consecutive, stopped, c, more :=
          EmbedChunk(cfg, texts[start..end], OutcomesOf(before), out, consecutive, maxFailures, embed);
        chunks := before + [c];
        ChunkDone(before, c, start, end, texts, size, out, consecutive, maxFailures, stopped);
        Associative(old(log), AskedFor(before, texts, size), ChunkAsked(c, texts[start..end]));
        WentBoth(cfg, world, old(Here()), AskedFor(before, texts, size), ms, here, ChunkAsked(c, texts[start..end]),
                 more, Here());
        ms := ms + more;
        TrustedSnoc(before, c, start, end, texts, cfg, embed, sound, sure);
        if stopped {
          return Aborted(|out|), chunks, ms;
        }
        start := end;
      }
      r := Completed(out);
    }
  }

  /** What is known of the results when nothing lies, and when nothing refuses either. */
  ghost predicate Trusted(chunks: seq<Chunk>, texts: seq<string>, cfg: Config, embed: string -> Vector, sound: bool,
                          sure: bool) {
    && (sound ==> Right(OutcomesOf(chunks), texts, cfg, embed)) && (sure ==> NoneRaised(OutcomesOf(chunks)))
  }

  lemma TrustedSnoc(before: seq<Chunk>, c: Chunk, start: nat, end: nat, texts: seq<string>, cfg: Config,
                    embed: string -> Vector, sound: bool, sure: bool)
    requires Trusted(before, texts, cfg, embed, sound, sure) && start == |OutcomesOf(before)| < end <= |texts|
    requires |ChunkOutcomes(c)| <= end - start && OutcomesOf(before + [c]) == OutcomesOf(before) + ChunkOutcomes(c)
    requires sound ==> Right(ChunkOutcomes(c), texts[start..end], cfg, embed)
    requires sure ==> NoneRaised(ChunkOutcomes(c))
    ensures Trusted(before + [c], texts, cfg, embed, sound, sure)
  {
    RightAppend(OutcomesOf(before), ChunkOutcomes(c), texts, end, cfg, embed);
  }

  // ---- what embed_texts did ----

  /** What one call of `embed_text` did. */
  datatype Outcome = Raised | Returned(vector: Option<Vector>)

  function OutcomeOf(r: Result<Option<Vector>>): Outcome {
    match r case Ok(v) => Returned(v) case Err => Raised
  }

  /** One question to the embedder and its answer. */
  datatype Asked = Batch(texts: seq<string>, answer: Option<seq<Vector>>) | One(text: string, outcome: Outcome)

  /** The contacts so far and the cache. */
  datatype Moment = Moment(contacts: nat, cache: map<string, Option<Vector>>)

  /** The question was put between these moments and got this answer. */
  ghost predicate Did(cfg: Config, w: World, from: Moment, asked: Asked, to: Moment) {
    match asked
    case One(text, outcome) =>
      exists t, r ::
        && IsPrepared(cfg, text, t) && TextDone(cfg, w, t, from.contacts, from.cache, r, to.contacts, to.cache)
        && outcome == (match r case Ok(vector) => Returned(vector) case Err => Raised)
    case Batch(texts, answer) =>
      exists r :: && BatchDone(cfg, w, texts, from.contacts, from.cache, r, to.contacts, to.cache)
                  && answer == if r.Ok? then Some(r.value) else None
  }

  function After(from: Moment, ms: seq<Moment>): Moment {
    if ms == [] then from else ms[|ms| - 1]
  }

  /** The questions were put one after the other and nothing else happened; `ms` are the moments behind each. */
  ghost predicate Went(cfg: Config, w: World, from: Moment, asked: seq<Asked>, ms: seq<Moment>, to: Moment) {
    && |ms| == |asked| && to == After(from, ms)
    && forall i :: 0 <= i < |asked| ==> Did(cfg, w, After(from, ms[..i]), asked[i], ms[i])
  }

  lemma OneIsDone(cfg: Config, w: World, from: Moment, text: string, t: string, r: Result<Option<Vector>>, to: Moment)
    requires IsPrepared(cfg, text, t) && TextDone(cfg, w, t, from.contacts, from.cache, r, to.contacts, to.cache)
    ensures Did(cfg, w, from, One(text, OutcomeOf(r)), to)
  {
  }

  lemma WentFirst(cfg: Config, w: World, from: Moment, asked: Asked, to: Moment)
    requires Did(cfg, w, from, asked, to)
    ensures Went(cfg, w, from, [asked], [to], to)
  {
    assert [to][..0] == [];
  }

  lemma AfterBoth(from: Moment, ms: seq<Moment>, ns: seq<Moment>, i: nat)
    requires i <= |ms| + |ns|
    ensures After(from, (ms + ns)[..i])
         == if i <= |ms| then After(from, ms[..i]) else After(After(from, ms), ns[..i - |ms|])
  {
    if i <= |ms| {
      assert (ms + ns)[..i] == ms[..i];
    } else {
      assert (ms + ns)[..i] == ms + ns[..i - |ms|];
    }
  }

  lemma WentBoth(cfg: Config, w: World, from: Moment, a: seq<Asked>, ms: seq<Moment>, mid: Moment, b: seq<Asked>,
                 ns: seq<Moment>, to: Moment)
    requires Went(cfg, w, from, a, ms, mid) && Went(cfg, w, mid, b, ns, to)
    ensures Went(cfg, w, from, a + b, ms + ns, to)
  {
    var asked, all := a + b, ms + ns;
    assert ms[..|ms|] == ms;
    forall i | 0 <= i < |asked|
      ensures Did(cfg, w, After(from, all[..i]), asked[i], all[i])
    {
      AfterBoth(from, ms, ns, i);
      if i < |a| {
        assert asked[i] == a[i] && all[i] == ms[i];
      } else {
        assert asked[i] == b[i - |a|] && all[i] == ns[i - |a|];
      }
    }
  }

  lemma WentOn(cfg: Config, w: World, from: Moment, a: seq<Asked>, ms: seq<Moment>, mid: Moment, asked: Asked,
               to: Moment)
    requires Went(cfg, w, from, a, ms, mid) && Did(cfg, w, mid, asked, to)
    ensures Went(cfg, w, from, a + [asked], ms + [to], to)
  {
    WentFirst(cfg, w, mid, asked, to);
    WentBoth(cfg, w, from, a, ms, mid, [asked], [to], to);
  }

  lemma BatchIsDid(cfg: Config, w: World, from: Moment, texts: seq<string>, r: Result<seq<Vector>>, to: Moment)
    requires BatchDone(cfg, w, texts, from.contacts, from.cache, r, to.contacts, to.cache)
    ensures var asked := Batch(texts, if r.Ok? then Some(r.value) else None); Went(cfg, w, from, [asked], [to], to)
  {
    WentFirst(cfg, w, from, Batch(texts, if r.Ok? then Some(r.value) else None), to);
  }

  lemma WentSingly(cfg: Config, w: World, from: Moment, batch: seq<string>, mid: Moment, got: seq<Outcome>,
                   ms: seq<Moment>, to: Moment)
    requires |got| <= |batch| && Went(cfg, w, from, [Batch(batch, None)], [mid], mid)
    requires Went(cfg, w, mid, Ones(batch, got), ms, to)
    ensures Went(cfg, w, from, ChunkAsked(Singly(got), batch), [mid] + ms, to)
  {
    WentBoth(cfg, w, from, [Batch(batch, None)], [mid], mid, Ones(batch, got), ms, to);
  }

  /** A batch that went through, or one that failed and whose texts were tried on their own. */
  datatype Chunk = Together(vs: seq<Vector>) | Singly(os: seq<Outcome>)

  function ChunkEnd(start: nat, n: nat, size: int): (end: nat)
    requires start < n
    ensures start < end <= n
  {
    var step := if size > 1 then size else 1;
    if start + step <= n then start + step else n
  }

  function FromBatch(vs: seq<Vector>): (os: seq<Outcome>)
    ensures |os| == |vs| && forall i :: 0 <= i < |os| ==> os[i] == Returned(Some(vs[i]))
  {
    seq(|vs|, i requires 0 <= i < |vs| => Returned(Some(vs[i])))
  }

  function ChunkOutcomes(c: Chunk): seq<Outcome> {
    match c case Together(vs) => FromBatch(vs) case Singly(os) => os
  }

  /** What happened to each text, in order. */
  function OutcomesOf(chunks: seq<Chunk>): seq<Outcome> {
    if chunks == [] then [] else OutcomesOf(chunks[..|chunks| - 1]) + ChunkOutcomes(chunks[|chunks| - 1])
  }

  /** The chunks cover the texts in steps of the batch size. */
  predicate Full(chunks: seq<Chunk>, n: nat, size: int) {
    chunks == [] ||
    var before, start := chunks[..|chunks| - 1], |OutcomesOf(chunks[..|chunks| - 1])|;
    && Full(before, n, size) && start < n
    && |ChunkOutcomes(chunks[|chunks| - 1])| == ChunkEnd(start, n, size) - start
  }

  /** The last one may have been broken off. */
  predicate Begun(chunks: seq<Chunk>, n: nat, size: int) {
    chunks == [] ||
    var before, start := chunks[..|chunks| - 1], |OutcomesOf(chunks[..|chunks| - 1])|;
    && Full(before, n, size) && start < n
    && |ChunkOutcomes(chunks[|chunks| - 1])| <= ChunkEnd(start, n, size) - start
  }

  function Ones(texts: seq<string>, os: seq<Outcome>): seq<Asked>
    requires |os| <= |texts|
  {
    seq(|os|, i requires 0 <= i < |os| => One(texts[i], os[i]))
  }

  function ChunkAsked(c: Chunk, batch: seq<string>): seq<Asked>
    requires |ChunkOutcomes(c)| <= |batch|
  {
    match c
    case Together(vs) => [Batch(batch, Some(vs))]
    case Singly(os) => [Batch(batch, None)] + Ones(batch, os)
  }

  /** The questions behind the chunks. */
  function AskedFor(chunks: seq<Chunk>, texts: seq<string>, size: int): seq<Asked>
    requires Begun(chunks, |texts|, size)
  {
    if chunks == [] then []
    else
      var before, start := chunks[..|chunks| - 1], |OutcomesOf(chunks[..|chunks| - 1])|;
      AskedFor(before, texts, size) + ChunkAsked(chunks[|chunks| - 1], texts[start..ChunkEnd(start, |texts|, size)])
  }

  lemma AskedSnoc(chunks: seq<Chunk>, c: Chunk, texts: seq<string>, size: int)
    requires Full(chunks, |texts|, size) && |OutcomesOf(chunks)| < |texts|
    requires var start := |OutcomesOf(chunks)|; |ChunkOutcomes(c)| <= ChunkEnd(start, |texts|, size) - start
    ensures OutcomesOf(chunks + [c]) == OutcomesOf(chunks) + ChunkOutcomes(c)
    ensures Begun(chunks + [c], |texts|, size)
    ensures var start := |OutcomesOf(chunks)|;
            && (|ChunkOutcomes(c)| == ChunkEnd(start, |texts|, size) - start ==> Full(chunks + [c], |texts|, size))
            && AskedFor(chunks + [c], texts, size)
               == AskedFor(chunks, texts, size) + ChunkAsked(c, texts[start..ChunkEnd(start, |texts|, size)])
  {
    assert (chunks + [c])[..|chunks|] == chunks;
  }

  lemma OnesSnoc(texts: seq<string>, os: seq<Outcome>, o: Outcome)
    requires |os| < |texts|
    ensures Ones(texts, os + [o]) == Ones(texts, os) + [One(texts[|os|], o)]
  {
  }

  /** Every value that came back is the embedding of its own text. */
  ghost predicate Right(os: seq<Outcome>, texts: seq<string>, cfg: Config, embed: string -> Vector) {
    && |os| <= |texts|
    && forall i :: 0 <= i < |os| && os[i].Returned? ==> os[i].vector == Some(embed(Prepare(cfg, texts[i])))
  }

  lemma RightSnoc(os: seq<Outcome>, o: Outcome, texts: seq<string>, cfg: Config, embed: string -> Vector)
    requires |os| < |texts|
    ensures Right(os, texts, cfg, embed) && (o.Returned? ==> o.vector == Some(embed(Prepare(cfg, texts[|os|])))) ==>
              Right(os + [o], texts, cfg, embed)
  {
  }

  lemma RightAppend(os: seq<Outcome>, more: seq<Outcome>, texts: seq<string>, end: nat, cfg: Config,
                    embed: string -> Vector)
    requires |os| + |more| <= end <= |texts|
    ensures Right(os, texts, cfg, embed) && Right(more, texts[|os|..end], cfg, embed) ==>
              Right(os + more, texts, cfg, embed)
  {
  }

  predicate NoneRaised(os: seq<Outcome>) {
    forall i :: 0 <= i < |os| ==> os[i].Returned?
  }

  /** The number of failures at the end of a list of outcomes. */
  function Streak(os: seq<Outcome>): (k: nat)
    ensures k <= |os|
  {
    if os == [] || !os[|os| - 1].Raised? then 0 else 1 + Streak(os[..|os| - 1])
  }

  function Values(os: seq<Outcome>): (vs: seq<Option<Vector>>)
    ensures |vs| == |os|
    ensures forall i :: 0 <= i < |os| ==> vs[i] == if os[i].Raised? then None else os[i].vector
  {
    seq(|os|, i requires 0 <= i < |os| => if os[i].Raised? then None else os[i].vector)
  }

  /** Either every text has its value, or the run stopped after `processed` texts. */
  datatype Run = Completed(values: seq<Option<Vector>>) | Aborted(processed: nat)

  function Limit(maxFailures: int): nat {
    if maxFailures > 1 then maxFailures else 1
  }

  /** Before the `n`-th outcome the failure run never reached the limit. */
  ghost predicate BelowLimit(os: seq<Outcome>, n: nat, maxFailures: int)
    requires n <= |os| + 1
  {
    forall k :: 0 <= k < n ==> Streak(os[..k]) < Limit(maxFailures)
  }

  /** The state after the first `i` texts. */
  ghost predicate Reached(os: seq<Outcome>, i: nat, out: seq<Option<Vector>>, consecutive: nat, maxFailures: int) {
    && i == |os| && out == Values(os) && consecutive == Streak(os)
    && BelowLimit(os, i + 1, maxFailures)
  }

  /** The state after more texts, or the limit was reached with the last of them. */
  ghost predicate Continued(os: seq<Outcome>, out: seq<Option<Vector>>, consecutive: nat, maxFailures: int,
                            stopped: bool)
  {
    if stopped then Streak(os) == Limit(maxFailures) && BelowLimit(os, |os|, maxFailures)
    else Reached(os, |os|, out, consecutive, maxFailures)
  }

  /** The result that belongs to the outcomes: all values, or broken off at the first failure run of the limit. */
  ghost predicate RunOf(os: seq<Outcome>, n: nat, maxFailures: int, r: Run) {
    match r
    case Completed(values) => |os| == n && values == Values(os) && BelowLimit(os, n + 1, maxFailures)
    case Aborted(k) => k == |os| && Streak(os) == Limit(maxFailures) && BelowLimit(os, k, maxFailures)
  }

  /** The state between two batches. */
  ghost predicate Progressed(chunks: seq<Chunk>, start: nat, texts: seq<string>, size: int,
                             out: seq<Option<Vector>>, consecutive: nat, maxFailures: int)
  {
    && start == |OutcomesOf(chunks)| <= |texts| && Full(chunks, |texts|, size)
    && Reached(OutcomesOf(chunks), start, out, consecutive, maxFailures)
  }

  lemma ChunkDone(before: seq<Chunk>, c: Chunk, start: nat, end: nat, texts: seq<string>, size: int,
                  out: seq<Option<Vector>>, consecutive: nat, maxFailures: int, stopped: bool)
    requires Full(before, |texts|, size) && start == |OutcomesOf(before)| < |texts|
    requires end == ChunkEnd(start, |texts|, size) && |ChunkOutcomes(c)| <= end - start
    requires Continued(OutcomesOf(before) + ChunkOutcomes(c), out, consecutive, maxFailures, stopped)
    requires !stopped ==> |ChunkOutcomes(c)| == end - start
    ensures Begun(before + [c], |texts|, size)
    ensures OutcomesOf(before + [c]) == OutcomesOf(before) + ChunkOutcomes(c)
    ensures AskedFor(before + [c], texts, size) == AskedFor(before, texts, size) + ChunkAsked(c, texts[start..end])
    ensures !stopped ==> Progressed(before + [c], end, texts, size, out, consecutive, maxFailures)
    ensures stopped ==> RunOf(OutcomesOf(before + [c]), |texts|, maxFailures, Aborted(|OutcomesOf(before + [c])|))
  {
    AskedSnoc(before, c, texts, size);
  }

  lemma BelowSnoc(os: seq<Outcome>, o: Outcome, maxFailures: int)
    requires BelowLimit(os, |os| + 1, maxFailures)
    ensures BelowLimit(os + [o], |os| + 1, maxFailures)
    ensures Streak(os + [o]) < Limit(maxFailures) ==> BelowLimit(os + [o], |os| + 2, maxFailures)
  {
    forall k | 0 <= k < |os| + 1
      ensures Streak((os + [o])[..k]) < Limit(maxFailures)
    {
      assert (os + [o])[..k] == os[..k];
    }
    assert (os + [o])[..|os| + 1] == os + [o];
  }

  lemma ReachOne(os: seq<Outcome>, out: seq<Option<Vector>>, consecutive: nat, maxFailures: int, o: Outcome)
    requires Reached(os, |os|, out, consecutive, maxFailures)
    ensures match o
            case Returned(vector) => Reached(os + [o], |os| + 1, out + [vector], 0, maxFailures)
            case Raised =>
              if consecutive + 1 >= maxFailures then
                Streak(os + [o]) == Limit(maxFailures) && BelowLimit(os + [o], |os| + 1, maxFailures)
              else Reached(os + [o], |os| + 1, out + [None], consecutive + 1, maxFailures)
  {
    assert (os + [o])[..|os|] == os && os[..|os|] == os;
    var value := if o.Raised? then None else o.vector;
    assert Values(os + [o]) == Values(os) + [value];
    BelowSnoc(os, o, maxFailures);
  }

  /** A batch that came back has no failures. */
  lemma {:induction false} ReachBatch(os: seq<Outcome>, vs: seq<Vector>, out: seq<Option<Vector>>, consecutive: nat,
                                      maxFailures: int)
    requires Reached(os, |os|, out, consecutive, maxFailures) && vs != []
    ensures Reached(os + FromBatch(vs), |os| + |vs|, out + Values(FromBatch(vs)), 0, maxFailures)
  {
    var n := |vs| - 1;
    var before, o := os + FromBatch(vs[..n]), Returned(Some(vs[n]));
    assert FromBatch(vs) == FromBatch(vs[..n]) + [o] && os + FromBatch(vs) == before + [o];
    assert out + Values(FromBatch(vs)) == (out + Values(FromBatch(vs[..n]))) + [Some(vs[n])];
    if n == 0 {
      assert vs[..n] == [] && before == os && out + Values(FromBatch(vs[..n])) == out;
      ReachOne(os, out, consecutive, maxFailures, o);
    } else {
      ReachBatch(os, vs[..n], out, consecutive, maxFailures);
      ReachOne(before, out + Values(FromBatch(vs[..n])), 0, maxFailures, o);
    }
  }

  // ---- the same without the counting functions ----

  predicate AllRaised(os: seq<Outcome>, i: nat, j: nat) {
    i <= j <= |os| && forall k :: i <= k < j ==> os[k].Raised?
  }

  /** The first `j` results end with as many failures as the limit, at least one. */
  predicate EndsFailing(os: seq<Outcome>, j: nat, maxFailures: int) {
    j >= 1 && j >= maxFailures && AllRaised(os, if maxFailures > 1 then j - maxFailures else j - 1, j)
  }

  predicate NoLongFailure(os: seq<Outcome>, n: nat, maxFailures: int) {
    forall j :: 0 <= j <= n ==> !EndsFailing(os, j, maxFailures)
  }

  /** Every text has its value and failures never came in such a number one after the other; or the last results are
      the first such stretch. */
  predicate RunsRightly(os: seq<Outcome>, n: nat, maxFailures: int, r: Run) {
    match r
    case Completed(values) =>
      && |os| == n && |values| == n && NoLongFailure(os, n, maxFailures)
      && forall i :: 0 <= i < n ==>
           values[i] == (match os[i] case Raised => None case Returned(vector) => vector)
    case Aborted(processed) =>
      && processed == |os| && EndsFailing(os, processed, maxFailures)
      && NoLongFailure(os, processed - 1, maxFailures)
  }

  lemma {:induction false} StreakIs(os: seq<Outcome>, j: nat, k: nat)
    requires j <= k <= |os|
    ensures Streak(os[..k]) >= k - j <==> AllRaised(os, j, k)
    decreases k
  {
    if j < k {
      assert os[..k][..k - 1] == os[..k - 1];
      StreakIs(os, j, k - 1);
    }
  }

  lemma BelowIs(os: seq<Outcome>, n: nat, maxFailures: int)
    requires n <= |os| && BelowLimit(os, n + 1, maxFailures)
    ensures NoLongFailure(os, n, maxFailures)
  {
    forall j | 0 <= j <= n
      ensures !EndsFailing(os, j, maxFailures)
    {
      assert Streak(os[..j]) < Limit(maxFailures);
      if j >= Limit(maxFailures) {
        StreakIs(os, j - Limit(maxFailures), j);
      }
    }
  }

  lemma RunIsRight(os: seq<Outcome>, n: nat, maxFailures: int, r: Run)
    requires RunOf(os, n, maxFailures, r)
    ensures RunsRightly(os, n, maxFailures, r)
  {
    match r
    case Completed(values) => BelowIs(os, n, maxFailures);
    case Aborted(processed) =>
      assert os[..|os|] == os;
      StreakIs(os, |os| - Limit(maxFailures), |os|);
      BelowIs(os, |os| - 1, maxFailures);
  }

  /** All batches but the last have the batch size, at least one; the last one is no longer. */
  predicate InBatches(chunks: seq<Chunk>, n: nat, size: int) {
    && |OutcomesOf(chunks)| <= n
    && (forall i :: 0 <= i < |chunks| - 1 ==> |ChunkOutcomes(chunks[i])| == if size > 1 then size else 1)
    && (forall i :: 0 <= i < |chunks| ==> |ChunkOutcomes(chunks[i])| <= if size > 1 then size else 1)
  }

  lemma {:induction false} FullInBatches(chunks: seq<Chunk>, n: nat, size: int)
    requires Full(chunks, n, size) && |OutcomesOf(chunks)| < n
    ensures forall i :: 0 <= i < |chunks| ==> |ChunkOutcomes(chunks[i])| == if size > 1 then size else 1
  {
    if chunks != [] {
      var before := chunks[..|chunks| - 1];
      FullInBatches(before, n, size);
      assert forall i :: 0 <= i < |before| ==> before[i] == chunks[i];
    }
  }

  lemma BegunInBatches(chunks: seq<Chunk>, n: nat, size: int)
    requires Begun(chunks, n, size)
    ensures InBatches(chunks, n, size)
  {
    if chunks != [] {
      var before := chunks[..|chunks| - 1];
      FullInBatches(before, n, size);
      assert forall i :: 0 <= i < |before| ==> before[i] == chunks[i];
    }
  }

  /** The questions of one chunk of the texts from `from` on: the batch, and after it failed its texts one by one. */
  predicate AsksFor(part: seq<Asked>, texts: seq<string>, from: nat, to: nat, step: nat, c: Chunk) {
    && from < |texts|
    && var end := if from + step <= |texts| then from + step else |texts|;
    match c
    case Together(vs) => to == from + |vs| <= end && part == [Batch(texts[from..end], Some(vs))]
    case Singly(os) =>
      && to == from + |os| <= end && |part| == 1 + |os| && part[0] == Batch(texts[from..end], None)
      && forall j :: 0 <= j < |os| ==> part[1 + j] == One(texts[from + j], os[j])
  }

  /** Chunk after chunk, and the first `to` texts have their outcomes. */
  ghost predicate Asks(asked: seq<Asked>, texts: seq<string>, step: nat, chunks: seq<Chunk>, to: nat)
    decreases |chunks|
  {
    if chunks == [] then asked == [] && to == 0
    else
      var shorter, last := chunks[..|chunks| - 1], chunks[|chunks| - 1];
      exists before, part, from: nat ::
        asked == before + part && Asks(before, texts, step, shorter, from) && AsksFor(part, texts, from, to, step, last)
  }

  lemma LastAsks(texts: seq<string>, from: nat, end: nat, step: nat, c: Chunk)
    requires from < |texts| && end == (if from + step <= |texts| then from + step else |texts|)
    requires |ChunkOutcomes(c)| <= end - from
    ensures AsksFor(ChunkAsked(c, texts[from..end]), texts, from, from + |ChunkOutcomes(c)|, step, c)
  {
  }

  lemma AskedLast(chunks: seq<Chunk>, texts: seq<string>, size: int) returns (start: nat, end: nat)
    requires chunks != [] && Begun(chunks, |texts|, size)
    ensures var before, last := chunks[..|chunks| - 1], chunks[|chunks| - 1];
            var step := if size > 1 then size else 1;
            && start == |OutcomesOf(before)| < |texts| && Begun(before, |texts|, size)
            && end == (if start + step <= |texts| then start + step else |texts|)
            && |ChunkOutcomes(last)| <= end - start
            && |OutcomesOf(chunks)| == start + |ChunkOutcomes(last)|
            && AskedFor(chunks, texts, size) == AskedFor(before, texts, size) + ChunkAsked(last, texts[start..end])
  {
    start := |OutcomesOf(chunks[..|chunks| - 1])|;
    end := ChunkEnd(start, |texts|, size);
  }

  lemma AsksSnoc(asked: seq<Asked>, before: seq<Asked>, part: seq<Asked>, texts: seq<string>, step: nat,
                 chunks: seq<Chunk>, from: nat, to: nat)
    requires chunks != [] && asked == before + part
    requires Asks(before, texts, step, chunks[..|chunks| - 1], from)
    requires AsksFor(part, texts, from, to, step, chunks[|chunks| - 1])
    ensures Asks(asked, texts, step, chunks, to)
  {
  }

  lemma {:induction false} AskedIs(chunks: seq<Chunk>, texts: seq<string>, size: int, step: nat)
    requires Begun(chunks, |texts|, size) && step == if size > 1 then size else 1
    ensures Asks(AskedFor(chunks, texts, size), texts, step, chunks, |OutcomesOf(chunks)|)
  {
    if chunks != [] {
      var start, end := AskedLast(chunks, texts, size);
      LastAsks(texts, start, end, step, chunks[|chunks| - 1]);
      AskedIs(chunks[..|chunks| - 1], texts, size, step);
      AsksSnoc(AskedFor(chunks, texts, size), AskedFor(chunks[..|chunks| - 1], texts, size),
               ChunkAsked(chunks[|chunks| - 1], texts[start..end]), texts, step, chunks, start, |OutcomesOf(chunks)|);
    }
  }
}
