/** The retry loop of a remote execution and what it learns for later ones (shared/ssh_exec.py). */
module PrivilegeDrop {
  import opened Text
  import opened RemoteCommand

  /** A command: the program and its arguments. */
  type Argv = argv: seq<string> | argv != [] witness ["true"]

  /** One ssh attempt: it raised (timeout, no client), or it ended with a code and a lower-cased error text. */
  datatype Reply = Raised | Done(code: int, err: string)

  /** The configured mode, Python's lower case, and a server that may answer the n-th attempt in any way. */
  datatype World = World(configured: DropMode, lower: string -> string, server: (nat, Argv, DropMode) -> Reply)

  /** What is remembered across calls; `attempts` counts the ssh connections made. */
  datatype Memory = Memory(downgraded: bool, names: set<string>, attempts: nat)

  const FRESH := Memory(false, {}, 0)

  function BaseName(argv: Argv): string
  {
    AfterLast(argv[0], '/')
  }

  function EffectiveMode(w: World, m: Memory, argv: Argv): DropMode
  {
    var mode := if m.downgraded then Su else w.configured;
    if mode != SuLogin && BaseName(argv) in m.names then SuLogin else mode
  }

  predicate NotFoundCode(code: int) { code == 126 || code == 127 }

  predicate NotFoundText(err: string) {
    Contains(err, "command not found") || Contains(err, "no such file or directory") || Contains(err, "not found")
  }

  predicate LooksMissing(w: World, reply: Reply, argv: Argv)
  {
    reply.Done? && NotFoundCode(reply.code) && NotFoundText(reply.err) && Contains(reply.err, w.lower(BaseName(argv)))
  }

  predicate LacksRunuser(mode: DropMode, reply: Reply) {
    reply.Done? && mode == Runuser && Contains(reply.err, "runuser") && NotFoundText(reply.err)
  }

  /** What an unsuccessful attempt teaches, and the mode to try next. */
  function Learn(w: World, m: Memory, argv: Argv, mode: DropMode, reply: Reply): (Memory, Option<DropMode>)
  {
    if mode == SuLogin || reply.Raised? || !NotFoundCode(reply.code) then (m, None)
    else if LacksRunuser(mode, reply) then
      (m.(downgraded := true), Some(if BaseName(argv) in m.names then SuLogin else Su))
    else if LooksMissing(w, reply, argv) then
      (m.(names := m.names + {BaseName(argv)}), Some(SuLogin))
    else (m, None)
  }

  function Attempt(w: World, m: Memory, argv: Argv, mode: DropMode): (Memory, Reply) {
    (m.(attempts := m.attempts + 1), w.server(m.attempts, argv, mode))
  }

  /** The modes tried in one call, last one last, when at most `rounds` retries are left. */
  function Retry(w: World, m: Memory, argv: Argv, tried: seq<DropMode>, reply: Reply, rounds: nat)
    : (Memory, seq<DropMode>)
    requires tried != []
    decreases rounds
  {
    var mode := tried[|tried| - 1];
    var (m1, next) := Learn(w, m, argv, mode, reply);
    if rounds == 0 || next == None || next.value == mode then (if rounds == 0 then m else m1, tried)
    else
      var (m2, reply2) := Attempt(w, m1, argv, next.value);
      Retry(w, m2, argv, tried + [next.value], reply2, rounds - 1)
  }

  function Call(w: World, m: Memory, argv: Argv): (Memory, seq<DropMode>)
  {
    var mode := EffectiveMode(w, m, argv);
    var (m1, reply) := Attempt(w, m, argv, mode);
    Retry(w, m1, argv, [mode], reply, 2)
  }

  // ---- when a call tries again, said from the replies ----

  /** The reply to attempt `i` of the call. */
  function Answer(w: World, m: Memory, argv: Argv, tried: seq<DropMode>, i: nat): Reply
    requires i < |tried|
  {
    w.server(m.attempts + i, argv, tried[i])
  }

  /** The command was not found, by exit code and error text. */
  predicate NotFound(reply: Reply) {
    && reply.Done? && (reply.code == 126 || reply.code == 127)
    && (Contains(reply.err, "command not found") || Contains(reply.err, "no such file or directory")
        || Contains(reply.err, "not found"))
  }

  /** The server has no `runuser`. */
  predicate RunuserMissing(mode: DropMode, reply: Reply) {
    mode == Runuser && NotFound(reply) && Contains(reply.err, "runuser")
  }

  /** The program itself is not found outside a login shell: its name, the part behind the last slash, is mentioned. */
  predicate ProgramMissing(w: World, name: string, mode: DropMode, reply: Reply) {
    mode != SuLogin && !RunuserMissing(mode, reply) && NotFound(reply) && Contains(reply.err, w.lower(name))
  }

  ghost predicate SomeRunuserMissing(w: World, m: Memory, argv: Argv, tried: seq<DropMode>) {
    exists i :: 0 <= i < |tried| && RunuserMissing(tried[i], Answer(w, m, argv, tried, i))
  }

  ghost predicate SomeProgramMissing(w: World, m: Memory, argv: Argv, name: string, tried: seq<DropMode>) {
    exists i :: 0 <= i < |tried| && ProgramMissing(w, name, tried[i], Answer(w, m, argv, tried, i))
  }

  /** Attempt `i` is followed by another one exactly when `runuser` or the program is missing, and by which. */
  predicate FollowedRightly(w: World, m: Memory, argv: Argv, name: string, tried: seq<DropMode>, i: nat)
    requires i < |tried|
  {
    var reply := Answer(w, m, argv, tried, i);
    if RunuserMissing(tried[i], reply) then i + 1 < |tried| && tried[i + 1] == Su
    else if ProgramMissing(w, name, tried[i], reply) then i + 1 < |tried| && tried[i + 1] == SuLogin
    else i + 1 == |tried|
  }

  /** The first mode, what follows each attempt, and what is remembered. */
  ghost predicate Tried(w: World, m: Memory, argv: Argv, after: Memory, tried: seq<DropMode>) {
    exists dir: string, name: string ::
      && argv[0] == dir + name && '/' !in name && (dir == "" || dir[|dir| - 1] == '/')
      && TriedNamed(w, m, argv, name, after, tried)
  }

  ghost predicate TriedNamed(w: World, m: Memory, argv: Argv, name: string, after: Memory, tried: seq<DropMode>) {
    && tried != []
    && tried[0] == (if name in m.names then SuLogin else if m.downgraded then Su else w.configured)
    && (forall i :: 0 <= i < |tried| ==> FollowedRightly(w, m, argv, name, tried, i))
    && (after.downgraded <==> m.downgraded || SomeRunuserMissing(w, m, argv, tried))
    && after.names == m.names + (if SomeProgramMissing(w, m, argv, name, tried) then {name} else {})
    && after.attempts == m.attempts + |tried|
  }

  class SshRunner {
    const world: World
    var downgraded: bool
    var needsLoginShell: set<string>
    var attempts: nat

    function Abs(): Memory
      reads this
    {
      Memory(downgraded, needsLoginShell, attempts)
    }

    constructor (world: World)
      ensures this.world == world && Abs() == FRESH
    {
      this.world := world;
      downgraded, needsLoginShell, attempts := false, {}, 0;
    }

    method AttemptOnce(argv: Argv, mode: DropMode) returns (reply: Reply)
      modifies this
      ensures (Abs(), reply) == Attempt(world, old(Abs()), argv, mode)
    {
      reply := world.server(attempts, argv, mode);
      attempts := attempts + 1;
    }

    method Run(argv: Argv) returns (tried: seq<DropMode>, reply: Reply)
      modifies this
      ensures (Abs(), tried) == Call(world, old(Abs()), argv)
      ensures Tried(world, old(Abs()), argv, Abs(), tried)
      ensures reply == Answer(world, old(Abs()), argv, tried, |tried| - 1)
    {
      tried, reply := TryModes(argv);
      CallIsTried(world, old(Abs()), argv);
    }

    method TryModes(argv: Argv) returns (tried: seq<DropMode>, reply: Reply)
      modifies this
      ensures (Abs(), tried) == Call(world, old(Abs()), argv)
      ensures tried != [] && reply == Answer(world, old(Abs()), argv, tried, |tried| - 1)
    {
      var mode := EffectiveMode(world, Abs(), argv);
      tried := [mode];
      reply := AttemptOnce(argv, mode);
      var name := BaseName(argv);
      var rounds := 2;
      while rounds > 0
        invariant 0 <= rounds <= 2 && tried != [] && mode == tried[|tried| - 1]
        invariant Retry(world, Abs(), argv, tried, reply, rounds) == Call(world, old(Abs()), argv)
        invariant attempts == old(attempts) + |tried|
        invariant reply == Answer(world, old(Abs()), argv, tried, |tried| - 1)
      {
        if mode == SuLogin || reply.Raised? || !NotFoundCode(reply.code) {
          break;
        }
        var next;
        if LacksRunuser(mode, reply) {
          next := if name !in needsLoginShell then Su else SuLogin;
          downgraded := true;
        } else if LooksMissing(world, reply, argv) {
          needsLoginShell := needsLoginShell + {name};
          next := SuLogin;
        } else {
          break;
        }
        if next == mode {
          break;
        }
        mode := next;
        tried := tried + [mode];
        reply := AttemptOnce(argv, mode);
        rounds := rounds - 1;
      }
    }
  }

  // ---- within one call ----

  function Rank(mode: DropMode): nat {
    match mode case Runuser => 2 case Su => 1 case SuLogin => 0
  }

  ghost predicate Descending(tried: seq<DropMode>) {
    forall i, j :: 0 <= i < j < |tried| ==> Rank(tried[i]) > Rank(tried[j])
  }

  /** Nothing learned is forgotten, and nothing but this command's name is learned. */
  ghost predicate Grows(before: Memory, after: Memory, name: string) {
    && (before.downgraded ==> after.downgraded)
    && before.names <= after.names <= before.names + {name}
  }

  function Flips(before: Memory, after: Memory): nat {
    if after.downgraded && !before.downgraded then 1 else 0
  }

  /** What is true whenever a mode is about to be tried or has just been tried. */
  ghost predicate Coherent(m: Memory, argv: Argv, mode: DropMode)
  {
    && (mode != SuLogin ==> BaseName(argv) !in m.names)
    && (mode == Runuser ==> !m.downgraded)
  }

  /** A lesson that leads to another attempt is exactly one new fact, and the next mode is lower. */
  lemma LearnOneFact(w: World, m: Memory, argv: Argv, mode: DropMode, reply: Reply)
    requires Coherent(m, argv, mode)
    ensures var (m1, next) := Learn(w, m, argv, mode, reply);
            if next == None then m1 == m
            else
              && Rank(next.value) < Rank(mode) && Coherent(m1, argv, next.value)
              && Grows(m, m1, BaseName(argv)) && m1.attempts == m.attempts
              && Flips(m, m1) + |m1.names| == |m.names| + 1
  {
  }

  lemma DescendingExtends(tried: seq<DropMode>, next: DropMode)
    requires tried != [] && Descending(tried) && Rank(next) < Rank(tried[|tried| - 1])
    ensures Descending(tried + [next])
  {
  }

  lemma GrowsOn(m: Memory, m1: Memory, m2: Memory, after: Memory, name: string)
    requires Grows(m, m1, name) && Grows(m2, after, name) && m2.names == m1.names && m2.downgraded == m1.downgraded
    ensures Grows(m, after, name) && Flips(m, after) == Flips(m, m1) + Flips(m2, after)
  {
  }

  lemma {:induction false} RetryLearns(w: World, m: Memory, argv: Argv, tried: seq<DropMode>, reply: Reply, rounds: nat)
    requires tried != [] && Descending(tried)
    requires Coherent(m, argv, tried[|tried| - 1])
    ensures var (m', all) := Retry(w, m, argv, tried, reply, rounds);
            && tried <= all && |all| <= |tried| + rounds && Descending(all)
            && Grows(m, m', BaseName(argv))
            && m'.attempts == m.attempts + (|all| - |tried|)
            && |all| - |tried| == Flips(m, m') + |m'.names| - |m.names|
    decreases rounds
  {
    var mode := tried[|tried| - 1];
    var (m1, next) := Learn(w, m, argv, mode, reply);
    LearnOneFact(w, m, argv, mode, reply);
    if rounds > 0 && next.Some? {
      DescendingExtends(tried, next.value);
      var (m2, reply2) := Attempt(w, m1, argv, next.value);
      RetryLearns(w, m2, argv, tried + [next.value], reply2, rounds - 1);
      GrowsOn(m, m1, m2, Retry(w, m2, argv, tried + [next.value], reply2, rounds - 1).0, BaseName(argv));
    }
  }

  /** One call: modes go strictly down, at most three attempts are made, learned facts only grow, and every attempt
      after the first is paid for by a new fact. */
  lemma {:induction false} CallLearns(w: World, m: Memory, argv: Argv)
    ensures var (m', tried) := Call(w, m, argv);
            && 1 <= |tried| <= 3 && Descending(tried) && tried[0] == EffectiveMode(w, m, argv)
            && Grows(m, m', BaseName(argv))
            && m'.attempts == m.attempts + |tried|
            && |tried| == 1 + Flips(m, m') + |m'.names| - |m.names|
  {
    var mode := EffectiveMode(w, m, argv);
    var (m1, reply) := Attempt(w, m, argv, mode);
    RetryLearns(w, m1, argv, [mode], reply, 2);
  }

  /** A command known to need a login shell is tried once, there. */
  lemma LearnedCommandTriedOnce(w: World, m: Memory, argv: Argv)
    requires BaseName(argv) in m.names
    ensures Call(w, m, argv).1 == [SuLogin]
  {
  }

  /** After the downgrade `runuser` is never tried again. */
  lemma DowngradedNeverRunuser(w: World, m: Memory, argv: Argv)
    requires m.downgraded
    ensures Runuser !in Call(w, m, argv).1
  {
    CallLearns(w, m, argv);
    var tried := Call(w, m, argv).1;
    assert Rank(tried[0]) <= 1;
  }

  // ---- the replies decide ----

  lemma LearnFollows(w: World, m: Memory, argv: Argv, mode: DropMode, reply: Reply)
    requires Coherent(m, argv, mode)
    ensures var (m1, next) := Learn(w, m, argv, mode, reply);
            var name := BaseName(argv);
            && m1.attempts == m.attempts
            && next == (if RunuserMissing(mode, reply) then Some(Su)
                        else if ProgramMissing(w, name, mode, reply) then Some(SuLogin) else None)
            && m1.downgraded == (m.downgraded || RunuserMissing(mode, reply))
            && m1.names == m.names + (if ProgramMissing(w, name, mode, reply) then {name} else {})
  {
  }

  /** Attempt `i` was followed by the right one. */
  predicate Led(w: World, m: Memory, argv: Argv, name: string, tried: seq<DropMode>, i: nat)
    requires i + 1 < |tried|
  {
    var reply := Answer(w, m, argv, tried, i);
    if RunuserMissing(tried[i], reply) then tried[i + 1] == Su
    else ProgramMissing(w, name, tried[i], reply) && tried[i + 1] == SuLogin
  }

  /** A call under way: `now` is what is remembered when the last attempt of `tried` has been made. */
  ghost predicate UnderWay(w: World, m: Memory, argv: Argv, now: Memory, tried: seq<DropMode>, reply: Reply) {
    var name := BaseName(argv);
    && tried != [] && now.attempts == m.attempts + |tried| && reply == Answer(w, m, argv, tried, |tried| - 1)
    && (forall i :: 0 <= i < |tried| - 1 ==> Led(w, m, argv, name, tried, i))
    && var before := tried[..|tried| - 1];
       && (now.downgraded <==> m.downgraded || SomeRunuserMissing(w, m, argv, before))
       && now.names == m.names + (if SomeProgramMissing(w, m, argv, name, before) then {name} else {})
  }

  /** One more attempt seen. */
  lemma SomeSnoc(w: World, m: Memory, argv: Argv, name: string, tried: seq<DropMode>)
    requires tried != []
    ensures var n := |tried| - 1;
            var reply := Answer(w, m, argv, tried, n);
            && (SomeRunuserMissing(w, m, argv, tried)
                <==> SomeRunuserMissing(w, m, argv, tried[..n]) || RunuserMissing(tried[n], reply))
            && (SomeProgramMissing(w, m, argv, name, tried)
                <==> SomeProgramMissing(w, m, argv, name, tried[..n]) || ProgramMissing(w, name, tried[n], reply))
  {
    var n := |tried| - 1;
    forall i | 0 <= i < n
      ensures tried[..n][i] == tried[i] && Answer(w, m, argv, tried[..n], i) == Answer(w, m, argv, tried, i)
    {
    }
  }

  lemma LearnUnderWay(w: World, m: Memory, argv: Argv, now: Memory, tried: seq<DropMode>, reply: Reply)
    requires UnderWay(w, m, argv, now, tried, reply) && Coherent(now, argv, tried[|tried| - 1])
    ensures var m1, name := Learn(w, now, argv, tried[|tried| - 1], reply).0, BaseName(argv);
            && m1.attempts == now.attempts
            && (m1.downgraded <==> m.downgraded || SomeRunuserMissing(w, m, argv, tried))
            && m1.names == m.names + (if SomeProgramMissing(w, m, argv, name, tried) then {name} else {})
  {
    LearnFollows(w, now, argv, tried[|tried| - 1], reply);
    SomeSnoc(w, m, argv, BaseName(argv), tried);
  }

  ghost predicate GoneRightly(w: World, m: Memory, argv: Argv, after: Memory, all: seq<DropMode>) {
    && after.attempts == m.attempts + |all|
    && (forall i :: 0 <= i < |all| ==> FollowedRightly(w, m, argv, BaseName(argv), all, i))
    && (after.downgraded <==> m.downgraded || SomeRunuserMissing(w, m, argv, all))
    && after.names == m.names + if SomeProgramMissing(w, m, argv, BaseName(argv), all) then {BaseName(argv)} else {}
  }

  lemma StopsRightly(w: World, m: Memory, argv: Argv, now: Memory, tried: seq<DropMode>, reply: Reply)
    requires UnderWay(w, m, argv, now, tried, reply) && Coherent(now, argv, tried[|tried| - 1])
    requires Learn(w, now, argv, tried[|tried| - 1], reply).1 == None
    ensures GoneRightly(w, m, argv, Learn(w, now, argv, tried[|tried| - 1], reply).0, tried)
  {
    LearnFollows(w, now, argv, tried[|tried| - 1], reply);
    LearnUnderWay(w, m, argv, now, tried, reply);
    forall i | 0 <= i < |tried|
      ensures FollowedRightly(w, m, argv, BaseName(argv), tried, i)
    {
      assert i < |tried| - 1 ==> Led(w, m, argv, BaseName(argv), tried, i);
    }
  }

  lemma GoesOn(w: World, m: Memory, argv: Argv, now: Memory, tried: seq<DropMode>, reply: Reply)
    requires UnderWay(w, m, argv, now, tried, reply) && Coherent(now, argv, tried[|tried| - 1])
    requires Learn(w, now, argv, tried[|tried| - 1], reply).1.Some?
    ensures var (m1, next) := Learn(w, now, argv, tried[|tried| - 1], reply);
            var (m2, reply2) := Attempt(w, m1, argv, next.value);
            UnderWay(w, m, argv, m2, tried + [next.value], reply2)
  {
    var (m1, next) := Learn(w, now, argv, tried[|tried| - 1], reply);
    var all := tried + [next.value];
    LearnFollows(w, now, argv, tried[|tried| - 1], reply);
    LearnUnderWay(w, m, argv, now, tried, reply);
    assert all[..|all| - 1] == tried;
    forall i | 0 <= i < |all| - 1
      ensures Led(w, m, argv, BaseName(argv), all, i)
    {
      assert Answer(w, m, argv, all, i) == Answer(w, m, argv, tried, i);
      assert i < |tried| - 1 ==> Led(w, m, argv, BaseName(argv), tried, i);
    }
  }

  lemma {:induction false} RetryIsTried(w: World, m: Memory, argv: Argv, now: Memory, tried: seq<DropMode>,
                                        reply: Reply, rounds: nat)
    requires UnderWay(w, m, argv, now, tried, reply) && Coherent(now, argv, tried[|tried| - 1])
    requires Rank(tried[|tried| - 1]) <= rounds
    ensures var (after, all) := Retry(w, now, argv, tried, reply, rounds);
            all != [] && all[0] == tried[0] && GoneRightly(w, m, argv, after, all)
    decreases rounds
  {
    var mode := tried[|tried| - 1];
    var (m1, next) := Learn(w, now, argv, mode, reply);
    LearnOneFact(w, now, argv, mode, reply);
    if next == None {
      StopsRightly(w, m, argv, now, tried, reply);
      RetryStops(w, now, argv, tried, reply, rounds);
    } else {
      GoesOn(w, m, argv, now, tried, reply);
      RetryGoesOn(w, now, argv, tried, reply, rounds);
      var (m2, reply2) := Attempt(w, m1, argv, next.value);
      RetryIsTried(w, m, argv, m2, tried + [next.value], reply2, rounds - 1);
    }
  }

  lemma RetryStops(w: World, now: Memory, argv: Argv, tried: seq<DropMode>, reply: Reply, rounds: nat)
    requires tried != [] && Learn(w, now, argv, tried[|tried| - 1], reply) == (now, None)
    ensures Retry(w, now, argv, tried, reply, rounds) == (now, tried)
  {
  }

  lemma RetryGoesOn(w: World, now: Memory, argv: Argv, tried: seq<DropMode>, reply: Reply, rounds: nat)
    requires tried != [] && rounds > 0
    requires var next := Learn(w, now, argv, tried[|tried| - 1], reply).1;
             next.Some? && next.value != tried[|tried| - 1]
    ensures var (m1, next) := Learn(w, now, argv, tried[|tried| - 1], reply);
            var (m2, reply2) := Attempt(w, m1, argv, next.value);
            Retry(w, now, argv, tried, reply, rounds)
            == Retry(w, m2, argv, tried + [next.value], reply2, rounds - 1)
  {
  }

  lemma FirstUnderWay(w: World, m: Memory, argv: Argv)
    ensures var mode := EffectiveMode(w, m, argv);
            var (m1, reply) := Attempt(w, m, argv, mode);
            UnderWay(w, m, argv, m1, [mode], reply) && Coherent(m1, argv, mode) && Rank(mode) <= 2
  {
    assert [EffectiveMode(w, m, argv)][..0] == [];
  }

  lemma NameBehindSlash(argv: Argv)
    ensures var name := BaseName(argv);
            |name| <= |argv[0]| && argv[0] == argv[0][..|argv[0]| - |name|] + name && BehindLast(argv[0], '/', name)
  {
    AfterLastIs(argv[0], '/');
    EndSplits(argv[0], BaseName(argv));
  }

  lemma EndSplits(s: string, end: string)
    requires EndsWith(s, end)
    ensures s == s[..|s| - |end|] + end
  {
  }

  /** When a call tries again, in which mode, and what it remembers: exactly what the replies say. */
  lemma CallIsTried(w: World, m: Memory, argv: Argv)
    ensures var (after, tried) := Call(w, m, argv); Tried(w, m, argv, after, tried)
  {
    var mode := EffectiveMode(w, m, argv);
    var (m1, reply) := Attempt(w, m, argv, mode);
    FirstUnderWay(w, m, argv);
    RetryIsTried(w, m, argv, m1, [mode], reply, 2);
    NameBehindSlash(argv);
    var (after, tried) := Call(w, m, argv);
    assert TriedNamed(w, m, argv, BaseName(argv), after, tried);
  }

  // ---- over any sequence of calls ----

  function Serve(w: World, calls: seq<Argv>): Memory
    decreases |calls|
  {
    if calls == [] then FRESH else Call(w, Serve(w, calls[..|calls| - 1]), calls[|calls| - 1]).0
  }

  /** The amortised cost, exactly: one attempt per call, one for the downgrade if it happened, and one per distinct
      command name learned. */
  lemma {:induction false} TotalAttempts(w: World, calls: seq<Argv>)
    ensures var m := Serve(w, calls);
            && m.attempts == |calls| + (if m.downgraded then 1 else 0) + |m.names|
            && m.attempts <= |calls| + 1 + |m.names|
            && m.attempts <= 3 * |calls|
    decreases |calls|
  {
    if calls != [] {
      var before := calls[..|calls| - 1];
      TotalAttempts(w, before);
      CallLearns(w, Serve(w, before), calls[|calls| - 1]);
    }
  }

  /** What is known after some calls is still known after more of them. */
  lemma {:induction false} LearningPersists(w: World, calls: seq<Argv>, more: seq<Argv>)
    ensures Serve(w, calls).names <= Serve(w, calls + more).names
    ensures Serve(w, calls).downgraded ==> Serve(w, calls + more).downgraded
    decreases |more|
  {
    if more == [] {
      assert calls + more == calls;
    } else {
      var n := |more| - 1;
      assert (calls + more)[..|calls + more| - 1] == calls + more[..n];
      LearningPersists(w, calls, more[..n]);
      CallLearns(w, Serve(w, calls + more[..n]), more[n]);
    }
  }
}
