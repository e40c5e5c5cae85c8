/** From a registered or free command to the argument list that is executed (shared/execution_exec.py). */
module ExecutionArgv {
  import opened ArgumentValues
  import opened ArgvScreens
  import opened Text
  import opened TextLaws
  import Shlex
  import ShellWords
  import PosixShell
  import RemoteCommand

  const MAX_ARGS := 32
  const USER_SLOT := "{user_id}"

  // ---- tokens ----

  function CheckAll(py: Python, tokens: seq<string>): Result<seq<string>> {
    if AllValid(py, tokens) then Ok(tokens) else Err
  }

  function SplitCommand(py: Python, text: string): Result<seq<string>> {
    match Shlex.SplitWords(text)
    case Err => Err
    case Ok(argv) => if argv == [] then Err else CheckAll(py, argv)
  }

  /** The extra arguments come as one line or as a list. */
  datatype Extra = Line(line: string) | Items(items: seq<string>)

  function NormalizeExtra(py: Python, extra: Extra): Result<seq<string>> {
    var split := match extra
      case Line(line) => Shlex.SplitWords(line)
      case Items(items) => Ok(items);
    if split == Err || |split.value| > MAX_ARGS then Err else CheckAll(py, split.value)
  }

  ghost predicate AllSound(py: Python, tokens: seq<string>) {
    forall i :: 0 <= i < |tokens| ==> Sound(py, tokens[i])
  }

  lemma AllValidIff(py: Python, tokens: seq<string>)
    ensures AllValid(py, tokens) <==> AllSound(py, tokens)
  {
    forall i | 0 <= i < |tokens|
      ensures ValidToken(py, tokens[i]) <==> Sound(py, tokens[i])
    {
      ValidTokenIff(py, tokens[i]);
    }
  }

  /** A command is its words, at least one; extra arguments are at most 32; every word has to be sound. */
  lemma AcceptedIff(py: Python, text: string, extra: Extra, argv: seq<string>)
    ensures SplitCommand(py, text) == Ok(argv) <==> ShellWords.Reads(text, argv) && argv != [] && AllSound(py, argv)
    ensures NormalizeExtra(py, extra) == Ok(argv) <==>
              && (extra == Items(argv) || (extra.Line? && ShellWords.Reads(extra.line, argv)))
              && |argv| <= 32 && AllSound(py, argv)
  {
    AllValidIff(py, argv);
    ShellWords.SplitIff(text, argv);
    if extra.Line? {
      ShellWords.SplitIff(extra.line, argv);
    }
  }

  // ---- placeholders ----

  /** Length of the longest run of name characters at `p`. */
  function NameRun(s: string, p: nat): (n: nat)
    requires p <= |s|
    ensures p + n <= |s|
    decreases |s| - p
  {
    if p < |s| && PosixShell.NameChar(s[p]) then 1 + NameRun(s, p + 1) else 0
  }

  /** The pattern `\{([a-zA-Z_][a-zA-Z0-9_]*)\}` anchored at `p`: length of the match, 0 for none. */
  function SlotLen(s: string, p: nat): (n: nat)
    requires p < |s|
    ensures p + n <= |s| && (n == 0 || n > 2)
  {
    if s[p] != '{' || p + 1 == |s| || !PosixShell.NameStart(s[p + 1]) then 0
    else
      var n := NameRun(s, p + 1);
      if p + 1 + n < |s| && s[p + 1 + n] == '}' then n + 2 else 0
  }

  /** A name: a letter or `_`, then letters, digits and `_`. */
  predicate IsName(name: string) {
    && name != "" && !('0' <= name[0] <= '9')
    && forall i :: 0 <= i < |name| ==>
         'a' <= name[i] <= 'z' || 'A' <= name[i] <= 'Z' || name[i] == '_' || '0' <= name[i] <= '9'
  }

  lemma {:induction false} NameRunMaximal(s: string, p: nat)
    requires p <= |s|
    ensures var n := NameRun(s, p);
            && (forall i :: p <= i < p + n ==> PosixShell.NameChar(s[i]))
            && (p + n < |s| ==> !PosixShell.NameChar(s[p + n]))
    decreases |s| - p
  {
    if p < |s| && PosixShell.NameChar(s[p]) {
      NameRunMaximal(s, p + 1);
    }
  }

  lemma {:induction false} NameRunAll(s: string, p: nat, n: nat)
    requires p + n < |s| && !PosixShell.NameChar(s[p + n])
    requires forall i :: p <= i < p + n ==> PosixShell.NameChar(s[i])
    ensures NameRun(s, p) == n
    decreases n
  {
    if n > 0 {
      NameRunAll(s, p + 1, n - 1);
    }
  }

  lemma SlotReads(s: string, p: nat, name: string)
    requires At(s, p, "{" + name + "}")
    ensures p + |name| + 2 <= |s| && s[p] == '{' && s[p + 1 + |name|] == '}' && s[p + 1..p + 1 + |name|] == name
  {
    var slot, read := "{" + name + "}", s[p + 1..p + 1 + |name|];
    assert forall k :: 0 <= k < |slot| ==> s[p..p + |slot|][k] == slot[k] && s[p + k] == s[p..p + |slot|][k];
    forall k | 0 <= k < |name|
      ensures read[k] == name[k]
    {
      assert s[p + (k + 1)] == slot[k + 1];
    }
    assert s[p + (|name| + 1)] == slot[|name| + 1];
  }

  lemma NamedSlot(s: string, p: nat, name: string)
    requires IsName(name) && At(s, p, "{" + name + "}")
    ensures p < |s| && SlotLen(s, p) == |name| + 2 && SlotName(s, p) == name
  {
    SlotReads(s, p, name);
    var read := s[p + 1..p + 1 + |name|];
    forall i | p + 1 <= i < p + 1 + |name|
      ensures PosixShell.NameChar(s[i])
    {
      assert s[i] == read[i - p - 1];
    }
    assert s[p + 1] == read[0];
    NameRunAll(s, p + 1, |name|);
  }

  lemma SlotIsNamed(s: string, p: nat)
    requires p < |s| && SlotLen(s, p) > 0
    ensures IsName(SlotName(s, p)) && At(s, p, "{" + SlotName(s, p) + "}")
  {
    NameRunMaximal(s, p + 1);
    var name := SlotName(s, p);
    forall i | 0 <= i < |name|
      ensures PosixShell.NameChar(name[i])
    {
      assert name[i] == s[p + 1 + i];
    }
    assert s[p..p + SlotLen(s, p)] == "{" + name + "}";
  }

  /** A placeholder is a name in braces, and nothing else is one. */
  lemma SlotIff(s: string, p: nat, name: string)
    requires p < |s|
    ensures SlotLen(s, p) > 0 && SlotName(s, p) == name <==> IsName(name) && At(s, p, "{" + name + "}")
  {
    if SlotLen(s, p) > 0 {
      SlotIsNamed(s, p);
    }
    if IsName(name) && At(s, p, "{" + name + "}") {
      NamedSlot(s, p, name);
    }
  }

  function SlotName(s: string, p: nat): string
    requires p < |s| && SlotLen(s, p) > 0
  {
    s[p + 1..p + SlotLen(s, p) - 1]
  }

  /** `PLACEHOLDER_RE.sub` from position `p` on: unknown names stay as they are. */
  function Render(s: string, p: nat, values: map<string, string>): string
    requires p <= |s|
    decreases |s| - p
  {
    if p == |s| then ""
    else
      var n := SlotLen(s, p);
      if n > 0 then
        var name := SlotName(s, p);
        (if name in values then values[name] else s[p..p + n]) + Render(s, p + n, values)
      else [s[p]] + Render(s, p + 1, values)
  }

  function RenderAll(tokens: seq<string>, values: map<string, string>): (out: seq<string>)
    ensures |out| == |tokens|
    ensures forall i :: 0 <= i < |out| ==> out[i] == Render(tokens[i], 0, values)
  {
    seq(|tokens|, i requires 0 <= i < |tokens| => Render(tokens[i], 0, values))
  }

  /** Token boundaries are fixed before substitution: one token out for each token in. */
  method RenderArgv(py: Python, execCommand: string, values: map<string, string>) returns (r: Result<seq<string>>)
    ensures r == match SplitCommand(py, execCommand)
                 case Err => Err
                 case Ok(tokens) => CheckAll(py, RenderAll(tokens, values))
  {
    var tokens := SplitCommand(py, execCommand);
    if tokens == Err {
      return Err;
    }
    var out: seq<string> := [];
    for i := 0 to |tokens.value|
      invariant out == RenderAll(tokens.value, values)[..i] && AllValid(py, out)
    {
      var rendered := Render(tokens.value[i], 0, values);
      if !ValidToken(py, rendered) {
        assert RenderAll(tokens.value, values)[i] == rendered;
        return Err;
      }
      out := out + [rendered];
    }
    assert RenderAll(tokens.value, values)[..|tokens.value|] == RenderAll(tokens.value, values);
    return Ok(out);
  }

  // ---- guards ----

  method ScanDenied(py: Python, tokens: seq<string>, deny: set<string>, strict: bool) returns (hit: bool)
    ensures hit <==> deny != {} && exists i :: 0 <= i < |tokens| && Denied(py, tokens[i], deny, strict)
    ensures hit <==> deny != {} && exists i :: 0 <= i < |tokens| && OnList(py, tokens[i], deny, strict)
  {
    forall i | 0 <= i < |tokens|
      ensures Denied(py, tokens[i], deny, strict) <==> OnList(py, tokens[i], deny, strict)
    {
      DeniedIff(py, tokens[i], deny, strict);
    }
    if deny == {} {
      return false;
    }
    for i := 0 to |tokens|
      invariant forall j :: 0 <= j < i ==> !Denied(py, tokens[j], deny, strict)
    {
      if Denied(py, tokens[i], deny, strict) {
        return true;
      }
    }
    return false;
  }

  method RejectOtherUser(py: Python, argv: seq<string>, user: string, flags: set<string>) returns (ok: bool)
    ensures ok == OnlyOwnAccount(py, argv, user, flags)
    ensures ok <==> StaysOwn(py, argv, user, flags)
  {
    OnlyOwnIff(py, argv, user, flags);
    if flags == {} {
      return true;
    }
    var me, words := py.lower(Strip(py.space, user)), AllWords(py, argv);
    for i := 0 to |words|
      invariant forall j :: 0 <= j < i ==> !NamesOther(py, words, j, me, flags)
    {
      if NamesOther(py, words, i, me, flags) {
        return false;
      }
    }
    return true;
  }

  // ---- building ----

  /** What the administrator and the console decided about one registered command. */
  datatype Policy = Policy(deny: set<string>, allowExtra: bool, userFlags: set<string>, selfNames: set<string>)

  method BuildRegisteredArgv(py: Python, execCommand: string, specs: seq<ArgSpec>, values: map<string, string>,
                             extra: Extra, user: string, policy: Policy) returns (r: Result<seq<string>>)
    ensures r.Ok? ==>
      && SplitCommand(py, execCommand).Ok? && Filled(py, specs, values, user).Ok? && NormalizeExtra(py, extra).Ok?
      && r.value == NonEmpty(RenderAll(SplitCommand(py, execCommand).value, Filled(py, specs, values, user).value))
                    + NormalizeExtra(py, extra).value
    ensures r.Ok? <==> Buildable(py, execCommand, specs, values, extra, user, policy)
    ensures !py.space(':') ==>
              forall argv :: r == Ok(argv) <==> Builds(py, execCommand, specs, values, extra, user, policy, argv)
  {
    if !py.space(':') {
      forall argv {
        BuildsIff(py, execCommand, specs, values, extra, user, policy, argv);
      }
    }
    var filled := FillValues(py, specs, values, user);
    if filled == Err {
      return Err;
    }
    var rendered := RenderArgv(py, execCommand, filled.value);
    if rendered == Err {
      return Err;
    }
    var argv := NonEmpty(rendered.value);
    var more := NormalizeExtra(py, extra);
    if more == Err {
      return Err;
    }
    var refused := ExtraRefused(py, execCommand, SplitCommand(py, execCommand).value, more.value, policy);
    if refused {
      return Err;
    }
    var out := argv + more.value;
    if exists i :: 0 <= i < |out| && NamesAgent(py, out[i], user, policy.selfNames) {
      return Err;
    }
    var own := RejectOtherUser(py, out, user, policy.userFlags);
    if !own {
      return Err;
    }
    return Ok(out);
  }

  method FillValues(py: Python, specs: seq<ArgSpec>, values: map<string, string>, user: string)
    returns (r: Result<map<string, string>>)
    ensures r == Filled(py, specs, values, user)
    ensures !py.space(':') ==> FilledRightly(py, specs, values, user, r)
  {
    if !py.space(':') {
      FilledIsRight(py, specs, values, user);
    }
    var filled := map[USER_ID := user];
    for i := 0 to |specs|
      invariant Filled(py, specs[..i], values, user) == Ok(filled)
    {
      assert specs[..i + 1][..i] == specs[..i];
      var text := ArgValue(py, specs[i], values);
      if text == Err {
        FilledFails(py, specs, i + 1, values, user);
        return Err;
      }
      filled := filled[specs[i].name := text.value];
    }
    assert specs[..|specs|] == specs;
    return Ok(filled);
  }

  /** Extra tokens must be allowed, not be denied, and not override an option the template has already fixed. */
  predicate ExtraAllowed(py: Python, execCommand: string, template: seq<string>, more: seq<string>, policy: Policy) {
    && (more != [] ==> policy.allowExtra)
    && (policy.deny != {} ==> forall i :: 0 <= i < |more| ==> !Denied(py, more[i], policy.deny, false))
    && (Contains(execCommand, USER_SLOT) ==> forall i :: 0 <= i < |more| ==> !IsFixed(template, more[i]))
  }

  method ExtraRefused(py: Python, execCommand: string, template: seq<string>, more: seq<string>, policy: Policy)
    returns (refused: bool)
    ensures refused <==> !ExtraAllowed(py, execCommand, template, more, policy)
  {
    if more == [] {
      return false;
    }
    if !policy.allowExtra {
      return true;
    }
    var hit := ScanDenied(py, more, policy.deny, false);
    if hit {
      return true;
    }
    if Contains(execCommand, USER_SLOT) {
      for i := 0 to |more|
        invariant forall j :: 0 <= j < i ==> !IsFixed(template, more[j])
      {
        if IsFixed(template, more[i]) {
          return true;
        }
      }
    }
    return false;
  }

  lemma {:induction false} FilledFails(py: Python, specs: seq<ArgSpec>, i: nat, values: map<string, string>,
                                       user: string)
    requires i <= |specs| && Filled(py, specs[..i], values, user) == Err
    ensures Filled(py, specs, values, user) == Err
    decreases |specs| - i
  {
    if i < |specs| {
      assert specs[..i + 1][..i] == specs[..i];
      FilledFails(py, specs, i + 1, values, user);
    } else {
      assert specs[..i] == specs;
    }
  }

  /** The conditions under which a registered command is built. */
  predicate Buildable(py: Python, execCommand: string, specs: seq<ArgSpec>, values: map<string, string>,
                      extra: Extra, user: string, policy: Policy)
  {
    var template, filled, more :=
      SplitCommand(py, execCommand), Filled(py, specs, values, user), NormalizeExtra(py, extra);
    && template.Ok? && filled.Ok? && more.Ok?
    && AllValid(py, RenderAll(template.value, filled.value))
    && ExtraAllowed(py, execCommand, template.value, more.value, policy)
    && var out := NonEmpty(RenderAll(template.value, filled.value)) + more.value;
       && (forall i :: 0 <= i < |out| ==> !NamesAgent(py, out[i], user, policy.selfNames))
       && OnlyOwnAccount(py, out, user, policy.userFlags)
  }

  /** The extra arguments as words. */
  ghost predicate ReadsExtra(extra: Extra, more: seq<string>) {
    extra == Items(more) || (extra.Line? && ShellWords.Reads(extra.line, more))
  }

  predicate NoAgentName(py: Python, argv: seq<string>, user: string, selfNames: set<string>) {
    forall i, name :: 0 <= i < |argv| && name in selfNames && name != "" && name != py.lower(user) ==>
      !Contains(py.lower(argv[i]), name)
  }

  ghost predicate Unrefused(py: Python, execCommand: string, template: seq<string>, more: seq<string>,
                            argv: seq<string>, user: string, policy: Policy) {
    && (more != [] ==> policy.allowExtra)
    && (policy.deny != {} ==> forall i :: 0 <= i < |more| ==> !BareOnList(py, more[i], policy.deny))
    && (Contains(execCommand, "{user_id}") ==> forall i :: 0 <= i < |more| ==> !FixedByTemplate(template, more[i]))
    && NoAgentName(py, argv, user, policy.selfNames) && StaysOwn(py, argv, user, policy.userFlags)
  }

  /** A registered command of the words `template`, its slots filled by `filled`, with `more` behind. */
  ghost predicate BuiltOf(py: Python, execCommand: string, specs: seq<ArgSpec>, values: map<string, string>,
                          extra: Extra, user: string, policy: Policy, argv: seq<string>, template: seq<string>,
                          filled: map<string, string>, more: seq<string>) {
    && ShellWords.Reads(execCommand, template) && template != [] && AllSound(py, template)
    && AllFitting(py, specs, values) && FillsSlots(py, specs, values, user, filled)
    && ReadsExtra(extra, more) && |more| <= 32 && AllSound(py, more)
    && AllSound(py, RenderAll(template, filled)) && argv == NonEmpty(RenderAll(template, filled)) + more
    && Unrefused(py, execCommand, template, more, argv, user, policy)
  }

  ghost predicate Builds(py: Python, execCommand: string, specs: seq<ArgSpec>, values: map<string, string>,
                         extra: Extra, user: string, policy: Policy, argv: seq<string>) {
    exists template, filled, more ::
      BuiltOf(py, execCommand, specs, values, extra, user, policy, argv, template, filled, more)
  }

  lemma UnrefusedIff(py: Python, execCommand: string, template: seq<string>, more: seq<string>, argv: seq<string>,
                     user: string, policy: Policy)
    ensures Unrefused(py, execCommand, template, more, argv, user, policy)
       <==> && ExtraAllowed(py, execCommand, template, more, policy)
            && (forall i :: 0 <= i < |argv| ==> !NamesAgent(py, argv[i], user, policy.selfNames))
            && OnlyOwnAccount(py, argv, user, policy.userFlags)
  {
    OnlyOwnIff(py, argv, user, policy.userFlags);
    forall i | 0 <= i < |more|
      ensures BareOnList(py, more[i], policy.deny) <==> Denied(py, more[i], policy.deny, false)
      ensures FixedByTemplate(template, more[i]) <==> IsFixed(template, more[i])
    {
      DeniedIff(py, more[i], policy.deny, false);
      IsFixedIff(template, more[i]);
    }
  }

  lemma BuildableIsBuilt(py: Python, execCommand: string, specs: seq<ArgSpec>, values: map<string, string>,
                         extra: Extra, user: string, policy: Policy)
    requires !py.space(':') && Buildable(py, execCommand, specs, values, extra, user, policy)
    ensures var template, filled := SplitCommand(py, execCommand).value, Filled(py, specs, values, user).value;
            var more := NormalizeExtra(py, extra).value;
            BuiltOf(py, execCommand, specs, values, extra, user, policy,
                    NonEmpty(RenderAll(template, filled)) + more, template, filled, more)
  {
    var template, filled, more :=
      SplitCommand(py, execCommand).value, Filled(py, specs, values, user).value, NormalizeExtra(py, extra).value;
    AcceptedIff(py, execCommand, extra, template);
    AcceptedIff(py, execCommand, extra, more);
    FilledIsRight(py, specs, values, user);
    AllValidIff(py, RenderAll(template, filled));
    UnrefusedIff(py, execCommand, template, more, NonEmpty(RenderAll(template, filled)) + more, user, policy);
  }

  lemma BuiltIsBuildable(py: Python, execCommand: string, specs: seq<ArgSpec>, values: map<string, string>,
                         extra: Extra, user: string, policy: Policy, argv: seq<string>, template: seq<string>,
                         filled: map<string, string>, more: seq<string>)
    requires !py.space(':')
    requires BuiltOf(py, execCommand, specs, values, extra, user, policy, argv, template, filled, more)
    ensures Buildable(py, execCommand, specs, values, extra, user, policy)
    ensures SplitCommand(py, execCommand) == Ok(template) && Filled(py, specs, values, user) == Ok(filled)
    ensures NormalizeExtra(py, extra) == Ok(more)
  {
    AcceptedIff(py, execCommand, extra, template);
    AcceptedIff(py, execCommand, extra, more);
    FilledIsRight(py, specs, values, user);
    FillsOneWay(py, specs, values, user, filled, Filled(py, specs, values, user).value);
    AllValidIff(py, RenderAll(template, filled));
    UnrefusedIff(py, execCommand, template, more, argv, user, policy);
  }

  /** When a registered command is built and what comes out, without the screening and filling functions. */
  lemma BuildsIff(py: Python, execCommand: string, specs: seq<ArgSpec>, values: map<string, string>, extra: Extra,
                  user: string, policy: Policy, argv: seq<string>)
    requires !py.space(':')
    ensures Builds(py, execCommand, specs, values, extra, user, policy, argv)
       <==> && Buildable(py, execCommand, specs, values, extra, user, policy)
            && argv == NonEmpty(RenderAll(SplitCommand(py, execCommand).value, Filled(py, specs, values, user).value))
                       + NormalizeExtra(py, extra).value
  {
    if Buildable(py, execCommand, specs, values, extra, user, policy) {
      BuildableIsBuilt(py, execCommand, specs, values, extra, user, policy);
    }
    if Builds(py, execCommand, specs, values, extra, user, policy, argv) {
      var template, filled, more :|
        BuiltOf(py, execCommand, specs, values, extra, user, policy, argv, template, filled, more);
      BuiltIsBuildable(py, execCommand, specs, values, extra, user, policy, argv, template, filled, more);
    }
  }

  // ---- what rendering guarantees ----

  datatype Part = Char(c: char) | Slot(name: string)

  /** How a part was written, and what it becomes. */
  function Written(part: Part): string {
    match part case Char(c) => [c] case Slot(name) => "{" + name + "}"
  }

  function Becomes(part: Part, values: map<string, string>): string {
    if part.Slot? && part.name in values then values[part.name] else Written(part)
  }

  function WrittenAll(parts: seq<Part>): string {
    if parts == [] then "" else Written(parts[0]) + WrittenAll(parts[1..])
  }

  function BecomesAll(parts: seq<Part>, values: map<string, string>): string {
    if parts == [] then "" else Becomes(parts[0], values) + BecomesAll(parts[1..], values)
  }

  /** The placeholder or the character at `p`, and where it ends. */
  function NextPart(s: string, p: nat): (r: (Part, nat))
    requires p < |s|
    ensures p < r.1 <= |s|
    ensures Written(r.0) == s[p..r.1]
  {
    var n := SlotLen(s, p);
    if n > 0 then (Slot(SlotName(s, p)), p + n) else (Char(s[p]), p + 1)
  }

  /** The placeholders of a token and the characters around them. */
  function Parts(s: string, p: nat): seq<Part>
    requires p <= |s|
    decreases |s| - p
  {
    if p == |s| then [] else [NextPart(s, p).0] + Parts(s, NextPart(s, p).1)
  }

  lemma Halves(s: string, p: nat, q: nat)
    requires p <= q <= |s|
    ensures s[p..] == s[p..q] + s[q..]
  {
  }

  lemma WrittenCons(part: Part, parts: seq<Part>)
    ensures WrittenAll([part] + parts) == Written(part) + WrittenAll(parts)
  {
    assert ([part] + parts)[1..] == parts;
  }

  lemma {:induction false} PartsAreWritten(s: string, p: nat)
    requires p <= |s|
    ensures WrittenAll(Parts(s, p)) == s[p..]
    decreases |s| - p
  {
    if p < |s| {
      var (part, q) := NextPart(s, p);
      PartsAreWritten(s, q);
      WrittenCons(part, Parts(s, q));
      Halves(s, p, q);
    }
  }

  lemma RenderSlot(s: string, p: nat, values: map<string, string>)
    requires p < |s| && SlotLen(s, p) > 0
    ensures var n, name := SlotLen(s, p), SlotName(s, p);
            Render(s, p, values) == (if name in values then values[name] else s[p..p + n]) + Render(s, p + n, values)
  {
  }

  lemma RenderChar(s: string, p: nat, values: map<string, string>)
    requires p < |s| && SlotLen(s, p) == 0
    ensures Render(s, p, values) == [s[p]] + Render(s, p + 1, values)
  {
  }

  lemma OneMore(s: string, p: nat, q: nat, rest: string)
    requires p < q <= |s|
    ensures [s[p]] + (s[p + 1..q] + rest) == s[p..q] + rest
  {
    assert s[p..q] == [s[p]] + s[p + 1..q];
  }

  /** Text without an opening brace stays. */
  lemma {:induction false} RenderUpTo(s: string, p: nat, q: nat, values: map<string, string>)
    requires p <= q <= |s| && forall i :: p <= i < q ==> s[i] != '{'
    ensures Render(s, p, values) == s[p..q] + Render(s, q, values)
    decreases q - p
  {
    if p < q {
      RenderChar(s, p, values);
      RenderUpTo(s, p + 1, q, values);
      OneMore(s, p, q, Render(s, q, values));
    } else {
      assert s[p..q] == "";
    }
  }

  /** A placeholder becomes its value, or stays when it has none; an opening brace of no placeholder stays. */
  lemma RenderAt(s: string, p: nat, name: string, values: map<string, string>)
    requires p < |s|
    ensures IsName(name) && At(s, p, "{" + name + "}") ==>
              p + |name| + 2 <= |s| && Render(s, p, values)
                == (if name in values then values[name] else "{" + name + "}") + Render(s, p + |name| + 2, values)
    ensures (forall other :: IsName(other) ==> !At(s, p, "{" + other + "}")) ==>
              Render(s, p, values) == [s[p]] + Render(s, p + 1, values)
  {
    if IsName(name) && At(s, p, "{" + name + "}") {
      NamedSlot(s, p, name);
      RenderSlot(s, p, values);
    }
    if SlotLen(s, p) > 0 {
      SlotIsNamed(s, p);
    } else {
      RenderChar(s, p, values);
    }
  }

  lemma RenderNext(s: string, p: nat, values: map<string, string>)
    requires p < |s|
    ensures var (part, q) := NextPart(s, p);
            Render(s, p, values) == Becomes(part, values) + Render(s, q, values)
  {
    var (part, q) := NextPart(s, p);
    if part.Slot? {
      assert Written(part) == s[p..q];
      RenderSlot(s, p, values);
    } else {
      RenderChar(s, p, values);
    }
  }

  lemma {:induction false} RenderIsPartwise(s: string, p: nat, values: map<string, string>)
    requires p <= |s|
    ensures Render(s, p, values) == BecomesAll(Parts(s, p), values)
    decreases |s| - p
  {
    if p < |s| {
      RenderNext(s, p, values);
      RenderIsPartwise(s, NextPart(s, p).1, values);
    }
  }

  /** One pass: a token is a sequence of parts, and each part is replaced on its own. The text of a value is never
      looked at again. */
  lemma RenderReplacesParts(s: string, values: map<string, string>)
    ensures WrittenAll(Parts(s, 0)) == s
    ensures Render(s, 0, values) == BecomesAll(Parts(s, 0), values)
  {
    PartsAreWritten(s, 0);
    RenderIsPartwise(s, 0, values);
  }

  /** A token depends only on the values of the names it mentions. */
  lemma {:induction false} BecomesUsesOwnNames(parts: seq<Part>, v1: map<string, string>, v2: map<string, string>)
    requires forall name :: Slot(name) in parts ==>
               (name in v1 <==> name in v2) && (name in v1 ==> v1[name] == v2[name])
    ensures BecomesAll(parts, v1) == BecomesAll(parts, v2)
  {
    if parts != [] {
      assert parts[0] in parts;
      BecomesUsesOwnNames(parts[1..], v1, v2);
    }
  }

  lemma RenderUsesOwnNames(s: string, v1: map<string, string>, v2: map<string, string>)
    requires forall name :: Slot(name) in Parts(s, 0) ==>
               (name in v1 <==> name in v2) && (name in v1 ==> v1[name] == v2[name])
    ensures Render(s, 0, v1) == Render(s, 0, v2)
  {
    RenderIsPartwise(s, 0, v1);
    RenderIsPartwise(s, 0, v2);
    BecomesUsesOwnNames(Parts(s, 0), v1, v2);
  }

  /** A token that is one placeholder becomes exactly the value, whatever blanks, quotes or braces that holds. */
  lemma WholeSlotIsVerbatim(name: string, values: map<string, string>)
    requires name != "" && PosixShell.NameStart(name[0])
    requires forall i :: 0 <= i < |name| ==> PosixShell.NameChar(name[i])
    requires name in values
    ensures Render("{" + name + "}", 0, values) == values[name]
  {
    var s := "{" + name + "}";
    NameRunAll(s, 1, |name|);
    assert SlotName(s, 0) == name;
    assert Render(s, |s|, values) == "";
    assert values[name] + "" == values[name];
  }

  /** Dropping empty tokens leaves the others, all of them, in their order. */
  lemma {:induction false} NonEmptyKeepsOrder(a: seq<string>, b: seq<string>)
    ensures NonEmpty(a + b) == NonEmpty(a) + NonEmpty(b)
  {
    if a == [] {
      assert a + b == b && [] + NonEmpty(b) == NonEmpty(b);
    } else {
      assert (a + b)[1..] == a[1..] + b;
      NonEmptyKeepsOrder(a[1..], b);
      Associative(if a[0] == "" then [] else [a[0]], NonEmpty(a[1..]), NonEmpty(b));
    }
  }

  lemma {:induction false} NonEmptyDropsOnlyEmpty(a: seq<string>)
    ensures forall t :: t in NonEmpty(a) <==> t in a && t != ""
    ensures "" !in a ==> NonEmpty(a) == a
  {
    if a != [] {
      NonEmptyDropsOnlyEmpty(a[1..]);
      assert a == [a[0]] + a[1..];
    }
  }

  /** Nothing is left exactly when every token was empty. */
  lemma NothingLeftIff(rendered: seq<string>, more: seq<string>)
    ensures NonEmpty(rendered) + more == [] <==> more == [] && forall i :: 0 <= i < |rendered| ==> rendered[i] == ""
  {
    NonEmptyDropsOnlyEmpty(rendered);
    if NonEmpty(rendered) == [] {
      forall i | 0 <= i < |rendered|
        ensures rendered[i] == ""
      {
        assert rendered[i] in rendered;
      }
    } else {
      assert NonEmpty(rendered)[0] in NonEmpty(rendered);
    }
  }

  /** From the console to the remote program: whenever a registered command is built for a valid account, the program
      started there receives exactly the rendered template tokens followed by the extra tokens. The list is empty
      exactly when all tokens render to nothing and there are no extra ones; then there is no program to start. */
  method RunRegistered(py: Python, execCommand: string, specs: seq<ArgSpec>, values: map<string, string>,
                       extra: Extra, user: string, policy: Policy, mode: RemoteCommand.DropMode)
    returns (argv: Result<seq<string>>, line: string)
    requires RemoteCommand.ValidUser(user)
    ensures argv.Ok? <==> Buildable(py, execCommand, specs, values, extra, user, policy)
    ensures !py.space(':') ==>
              forall words :: argv == Ok(words) <==> Builds(py, execCommand, specs, values, extra, user, policy, words)
    ensures argv.Ok? ==>
      && argv.value == NonEmpty(RenderAll(SplitCommand(py, execCommand).value, Filled(py, specs, values, user).value))
                       + NormalizeExtra(py, extra).value
      && line == RemoteCommand.RemoteLine(user, argv.value, mode)
      && (argv.value == [] <==>
           && NormalizeExtra(py, extra).value == []
           && forall i :: 0 <= i < |SplitCommand(py, execCommand).value| ==>
                Render(SplitCommand(py, execCommand).value[i], 0, Filled(py, specs, values, user).value) == "")
      && (argv.value != [] ==>
           (RemoteCommand.Received(user, argv.value, mode) == Some([PosixShell.Runs(argv.value)]) <==>
            mode == RemoteCommand.Runuser
            || (!RemoteCommand.AssignmentWord(argv.value[0]) && !RemoteCommand.ReservedWord(argv.value[0]))))
  {
    argv := BuildRegisteredArgv(py, execCommand, specs, values, extra, user, policy);
    line := "";
    if argv.Ok? {
      line := RemoteCommand.RemoteLine(user, argv.value, mode);
      NothingLeftIff(RenderAll(SplitCommand(py, execCommand).value, Filled(py, specs, values, user).value),
                     NormalizeExtra(py, extra).value);
      if argv.value != [] {
        RemoteCommand.ArgvArrives(user, argv.value, mode);
      }
    }
  }

  // ---- free commands ----

  /** `t.replace("{user_id}", user)` */
  function ReplaceUser(s: string, user: string): string {
    if s == "" then ""
    else if At(s, 0, USER_SLOT) then user + ReplaceUser(s[|USER_SLOT|..], user)
    else [s[0]] + ReplaceUser(s[1..], user)
  }

  lemma SlotInFront(b: string)
    ensures var s := "" + USER_SLOT + b; At(s, 0, USER_SLOT) && s[|USER_SLOT|..] == b
  {
  }

  lemma CharOfSlot(s: string, n: nat)
    requires At(s, 0, USER_SLOT) && n < |USER_SLOT|
    ensures s[n] == USER_SLOT[n]
  {
    assert s[..|USER_SLOT|][n] == USER_SLOT[n];
  }

  /** The slot does not overlap with itself: none begins in front of it and ends in it. */
  lemma NotAcross(a: string, b: string)
    requires a != "" && !At(a, 0, USER_SLOT)
    ensures !At(a + USER_SLOT + b, 0, USER_SLOT)
  {
    var s, n := a + USER_SLOT + b, |a|;
    if n < |USER_SLOT| {
      assert s[n] == USER_SLOT[0];
      assert forall k :: 0 < k < |USER_SLOT| ==> USER_SLOT[k] != USER_SLOT[0];
      if At(s, 0, USER_SLOT) {
        CharOfSlot(s, n);
      }
    } else {
      assert s[..|USER_SLOT|] == a[..|USER_SLOT|];
    }
  }

  lemma FirstNotSlot(a: string)
    requires a != "" && !Contains(a, USER_SLOT)
    ensures !At(a, 0, USER_SLOT) && !Contains(a[1..], USER_SLOT)
  {
    if Contains(a[1..], USER_SLOT) {
      ContainsTail(a, USER_SLOT);
    }
  }

  /** Up to the first slot the text stays; the slot becomes the caller, and the rest is replaced in the same way. */
  lemma {:induction false} ReplaceUserFirst(a: string, b: string, user: string)
    requires !Contains(a, "{user_id}")
    ensures ReplaceUser(a + "{user_id}" + b, user) == a + user + ReplaceUser(b, user)
  {
    var s := a + USER_SLOT + b;
    if a == "" {
      SlotInFront(b);
    } else {
      NotAcross(a, b);
      FirstNotSlot(a);
      assert s[1..] == a[1..] + USER_SLOT + b;
      ReplaceUserFirst(a[1..], b, user);
    }
  }

  lemma {:induction false} ReplaceUserNone(a: string, user: string)
    requires !Contains(a, "{user_id}")
    ensures ReplaceUser(a, user) == a
  {
    if a != "" {
      FirstNotSlot(a);
      ReplaceUserNone(a[1..], user);
      assert a == [a[0]] + a[1..];
    }
  }

  function ReplaceUserAll(tokens: seq<string>, user: string): (out: seq<string>)
    ensures |out| == |tokens| && forall i :: 0 <= i < |out| ==> out[i] == ReplaceUser(tokens[i], user)
  {
    seq(|tokens|, i requires 0 <= i < |tokens| => ReplaceUser(tokens[i], user))
  }

  /** What a free command comes to: the same slot is filled everywhere, and nothing is dropped. */
  function FreeArgv(py: Python, command: string, extra: Extra, user: string): Result<seq<string>> {
    var argv, more := SplitCommand(py, command), NormalizeExtra(py, extra);
    if argv == Err || more == Err then Err else Ok(ReplaceUserAll(argv.value, user) + more.value)
  }

  /** A free command has no approved template, so every word of every token is screened. */
  predicate FreeAllowed(py: Python, argv: seq<string>, user: string, policy: Policy) {
    && (policy.deny != {} ==> forall i :: 0 <= i < |argv| ==> !Denied(py, argv[i], policy.deny, true))
    && (forall i :: 0 <= i < |argv| ==> !NamesAgent(py, argv[i], user, policy.selfNames))
    && OnlyOwnAccount(py, argv, user, policy.userFlags)
  }

  ghost predicate FreeOf(py: Python, command: string, extra: Extra, user: string, policy: Policy, argv: seq<string>,
                         words: seq<string>, more: seq<string>) {
    && ShellWords.Reads(command, words) && words != [] && AllSound(py, words)
    && ReadsExtra(extra, more) && |more| <= 32 && AllSound(py, more)
    && argv == ReplaceUserAll(words, user) + more
    && (policy.deny != {} ==> forall i :: 0 <= i < |argv| ==> !PieceOnList(py, argv[i], policy.deny))
    && NoAgentName(py, argv, user, policy.selfNames) && StaysOwn(py, argv, user, policy.userFlags)
  }

  ghost predicate BuildsFree(py: Python, command: string, extra: Extra, user: string, policy: Policy,
                             argv: seq<string>) {
    exists words, more :: FreeOf(py, command, extra, user, policy, argv, words, more)
  }

  lemma FreeAllowedIff(py: Python, argv: seq<string>, user: string, policy: Policy)
    ensures FreeAllowed(py, argv, user, policy)
       <==> && (policy.deny != {} ==> forall i :: 0 <= i < |argv| ==> !PieceOnList(py, argv[i], policy.deny))
            && NoAgentName(py, argv, user, policy.selfNames) && StaysOwn(py, argv, user, policy.userFlags)
  {
    OnlyOwnIff(py, argv, user, policy.userFlags);
    forall i | 0 <= i < |argv|
      ensures PieceOnList(py, argv[i], policy.deny) <==> Denied(py, argv[i], policy.deny, true)
    {
      DeniedIff(py, argv[i], policy.deny, true);
    }
  }

  lemma BuildsFreeIff(py: Python, command: string, extra: Extra, user: string, policy: Policy, argv: seq<string>)
    ensures BuildsFree(py, command, extra, user, policy, argv)
       <==> FreeArgv(py, command, extra, user) == Ok(argv) && FreeAllowed(py, argv, user, policy)
  {
    FreeAllowedIff(py, argv, user, policy);
    var template, rest := SplitCommand(py, command), NormalizeExtra(py, extra);
    if template.Ok? && rest.Ok? {
      AcceptedIff(py, command, extra, template.value);
      AcceptedIff(py, command, extra, rest.value);
      if FreeArgv(py, command, extra, user) == Ok(argv) && FreeAllowed(py, argv, user, policy) {
        assert FreeOf(py, command, extra, user, policy, argv, template.value, rest.value);
      }
    }
    if BuildsFree(py, command, extra, user, policy, argv) {
      var words, more :| FreeOf(py, command, extra, user, policy, argv, words, more);
      AcceptedIff(py, command, extra, words);
      AcceptedIff(py, command, extra, more);
    }
  }

  method BuildFreeArgv(py: Python, command: string, extra: Extra, user: string, policy: Policy)
    returns (r: Result<seq<string>>)
    ensures r == match FreeArgv(py, command, extra, user)
                 case Err => Err
                 case Ok(argv) => if FreeAllowed(py, argv, user, policy) then Ok(argv) else Err
    ensures forall argv :: r == Ok(argv) <==> BuildsFree(py, command, extra, user, policy, argv)
  {
    forall argv {
      BuildsFreeIff(py, command, extra, user, policy, argv);
    }
    var argv, more := SplitCommand(py, command), NormalizeExtra(py, extra);
    if argv == Err || more == Err {
      return Err;
    }
    var out := ReplaceUserAll(argv.value, user) + more.value;
    var hit := ScanDenied(py, out, policy.deny, true);
    if hit || exists i :: 0 <= i < |out| && NamesAgent(py, out[i], user, policy.selfNames) {
      return Err;
    }
    var own := RejectOtherUser(py, out, user, policy.userFlags);
    return if own then Ok(out) else Err;
  }
}
