/** What fills the slots of a registered command (shared/execution_exec.py). */
module ArgumentValues {
  import opened Text
  import opened TextLaws

  /** The parts of Python the code calls: white space, lower case, and `str(int(text))`. */
  datatype Python = Python(space: char -> bool, lower: string -> string, castInt: string -> Option<string>)

  const USER_ID := "user_id"

  datatype Kind = Str | Int | Enum

  /** An argument as defined in the console; "" stands for a missing default. */
  datatype ArgSpec = ArgSpec(name: string, kind: Kind, choices: seq<string>, default: string, required: bool)

  function WordLen(py: Python, s: string): (n: nat)
    ensures n <= |s|
  {
    if s == "" || py.space(s[0]) then 0 else 1 + WordLen(py, s[1..])
  }

  /** `"-j: as JSON"` offers the value `-j`; without the colon and a blank the whole text is the value. */
  function ChoiceValue(py: Python, choice: string): string {
    var text := Strip(py.space, choice);
    var n := WordLen(py, text);
    if 2 <= n < |text| && text[n - 1] == ':' then text[..n - 1] else text
  }

  function CastArg(py: Python, spec: ArgSpec, raw: string): Result<string> {
    match spec.kind
    case Int => (match py.castInt(raw) case Some(text) => Ok(text) case None => Err)
    case Enum =>
      if exists i :: 0 <= i < |spec.choices| && ChoiceValue(py, spec.choices[i]) == raw then Ok(raw) else Err
    case Str => Ok(raw)
  }

  /** The value for one argument: given, else default, else empty unless required. */
  function ArgValue(py: Python, spec: ArgSpec, values: map<string, string>): Result<string> {
    if spec.name in values && values[spec.name] != "" then CastArg(py, spec, values[spec.name])
    else if spec.default != "" then CastArg(py, spec, spec.default)
    else if spec.required then Err
    else Ok("")
  }

  function Filled(py: Python, specs: seq<ArgSpec>, values: map<string, string>, user: string)
    : Result<map<string, string>>
  {
    if specs == [] then Ok(map[USER_ID := user])
    else
      var before, spec := Filled(py, specs[..|specs| - 1], values, user), specs[|specs| - 1];
      if before == Err then Err
      else
        match ArgValue(py, spec, values)
        case Err => Err
        case Ok(text) => Ok(before.value[spec.name := text])
  }

  // ---- which value fills an argument, said from its definition ----

  /** A choice text of a value, a colon, white space and a description. */
  predicate DescribedBy(py: Python, body: string, word: string, gap: string, more: string) {
    && body == word + [':'] + gap + more && word != "" && gap != "" && more != ""
    && (forall i :: 0 <= i < |word| ==> !py.space(word[i])) && AllSpace(py.space, gap) && !py.space(more[0])
  }

  ghost predicate Described(py: Python, body: string, word: string) {
    exists gap: string, more: string :: DescribedBy(py, body, word, gap, more)
  }

  /** Without the white space around it the choice text is the value, or a description of the value. */
  ghost predicate Offers(py: Python, choice: string, value: string) {
    exists body: string :: Trims(py.space, choice, body) && OffersBody(py, body, value)
  }

  ghost predicate OffersBody(py: Python, body: string, value: string) {
    Described(py, body, value) || (value == body && forall word: string :: !Described(py, body, word))
  }

  /** `raw` is taken for this argument, as `text`. */
  ghost predicate Accepts(py: Python, spec: ArgSpec, raw: string, text: string) {
    match spec.kind
    case Str => text == raw
    case Int => py.castInt(raw) == Some(text)
    case Enum => text == raw && exists i :: 0 <= i < |spec.choices| && Offers(py, spec.choices[i], raw)
  }

  predicate IsGiven(spec: ArgSpec, values: map<string, string>) {
    spec.name in values && values[spec.name] != ""
  }

  /** A given value decides; without one the default; without both the text is empty, unless one is required. */
  ghost predicate FitsSpec(py: Python, spec: ArgSpec, values: map<string, string>, text: string) {
    && (IsGiven(spec, values) ==> Accepts(py, spec, values[spec.name], text))
    && (!IsGiven(spec, values) && spec.default != "" ==> Accepts(py, spec, spec.default, text))
    && (!IsGiven(spec, values) && spec.default == "" ==> !spec.required && text == "")
  }

  ghost predicate HasFitting(py: Python, spec: ArgSpec, values: map<string, string>) {
    exists text: string :: FitsSpec(py, spec, values, text)
  }

  /** The last definition of its name. */
  predicate LastOfName(specs: seq<ArgSpec>, i: nat)
    requires i < |specs|
  {
    forall j :: i < j < |specs| ==> specs[j].name != specs[i].name
  }

  predicate Defines(specs: seq<ArgSpec>, name: string) {
    exists i :: 0 <= i < |specs| && specs[i].name == name
  }

  ghost predicate LastDecides(py: Python, specs: seq<ArgSpec>, values: map<string, string>, filled: map<string, string>,
                              i: nat)
    requires i < |specs|
  {
    LastOfName(specs, i) ==> specs[i].name in filled && FitsSpec(py, specs[i], values, filled[specs[i].name])
  }

  /** The slots and what fills them: `user_id` is the caller, and the last definition of each name decides. */
  ghost predicate FillsSlots(py: Python, specs: seq<ArgSpec>, values: map<string, string>, user: string,
                             filled: map<string, string>)
  {
    && (forall name :: name in filled <==> name == "user_id" || Defines(specs, name))
    && (forall i :: 0 <= i < |specs| ==> LastDecides(py, specs, values, filled, i))
    && (!Defines(specs, "user_id") ==> filled["user_id"] == user)
  }

  ghost predicate AllFitting(py: Python, specs: seq<ArgSpec>, values: map<string, string>) {
    forall i :: 0 <= i < |specs| ==> HasFitting(py, specs[i], values)
  }

  ghost predicate FilledRightly(py: Python, specs: seq<ArgSpec>, values: map<string, string>, user: string,
                                r: Result<map<string, string>>)
  {
    && (r.Ok? <==> AllFitting(py, specs, values))
    && (r.Ok? ==> FillsSlots(py, specs, values, user, r.value))
  }

  lemma {:induction false} WordLenIs(py: Python, s: string)
    ensures var n := WordLen(py, s);
            (forall i :: 0 <= i < n ==> !py.space(s[i])) && (n < |s| ==> py.space(s[n]))
  {
    if s != "" && !py.space(s[0]) {
      WordLenIs(py, s[1..]);
    }
  }

  lemma {:induction false} GapOf(py: Python, s: string) returns (gap: string, more: string)
    ensures s == gap + more && AllSpace(py.space, gap) && (more != "" ==> !py.space(more[0]))
    ensures s != "" && py.space(s[0]) ==> gap != ""
  {
    if s != "" && py.space(s[0]) {
      gap, more := GapOf(py, s[1..]);
      gap := [s[0]] + gap;
    } else {
      gap, more := "", s;
    }
  }

  /** A description is found by the length of the first word. */
  lemma DescribedIff(py: Python, body: string, word: string)
    requires !py.space(':') && Trimmed(py.space, body)
    ensures var n := WordLen(py, body);
            Described(py, body, word) <==> 2 <= n < |body| && body[n - 1] == ':' && word == body[..n - 1]
  {
    var n := WordLen(py, body);
    WordLenIs(py, body);
    if gap: string, more: string :| DescribedBy(py, body, word, gap, more) {
      DescribedWord(py, body, word, gap, more);
    }
    if 2 <= n < |body| && body[n - 1] == ':' && word == body[..n - 1] {
      FirstWordDescribed(py, body, word);
    }
  }

  lemma FirstWordDescribed(py: Python, body: string, word: string)
    requires Trimmed(py.space, body) && 2 <= WordLen(py, body) < |body|
    requires var n := WordLen(py, body); body[n - 1] == ':' && word == body[..n - 1]
    ensures Described(py, body, word)
  {
    var n := WordLen(py, body);
    WordLenIs(py, body);
    var gap, more := GapOf(py, body[n..]);
    RestIsGap(py, body, n, gap, more);
    WordAndRest(body, word, n);
    Associative(word + [':'], gap, more);
    assert DescribedBy(py, body, word, gap, more);
  }

  lemma RestIsGap(py: Python, body: string, n: nat, gap: string, more: string)
    requires Trimmed(py.space, body) && n < |body| && py.space(body[n]) && body[n..] == gap + more
    requires AllSpace(py.space, gap) && (more != "" ==> !py.space(more[0]))
    ensures gap != "" && more != ""
  {
    var rest := body[n..];
    assert rest[0] == body[n] && rest[|rest| - 1] == body[|body| - 1];
    LastOfGap(gap, more);
  }

  lemma LastOfGap(gap: string, more: string)
    requires gap + more != ""
    ensures more == "" ==> (gap + more)[|gap + more| - 1] == gap[|gap| - 1]
  {
  }

  lemma WordAndRest(body: string, word: string, n: nat)
    requires 1 <= n <= |body| && word == body[..n - 1] && body[n - 1] == ':'
    ensures body == word + [':'] + body[n..]
  {
  }

  lemma DescribedWord(py: Python, body: string, word: string, gap: string, more: string)
    requires !py.space(':') && DescribedBy(py, body, word, gap, more)
    ensures WordLen(py, body) == |word| + 1 < |body| && body[|word|] == ':' && word == body[..|word|]
  {
    WordLenIs(py, body);
    assert forall i :: 0 <= i < |word| ==> body[i] == word[i];
    assert body[|word| + 1] == gap[0];
  }

  lemma ChoiceValueIff(py: Python, choice: string, value: string)
    requires !py.space(':')
    ensures Offers(py, choice, value) <==> value == ChoiceValue(py, choice)
  {
    var text := Strip(py.space, choice);
    StripTrims(py.space, choice);
    StripIff(py.space, choice, text);
    var left, right :| TrimmedBy(py.space, choice, left, text, right);
    forall word: string
      ensures var n := WordLen(py, text);
              Described(py, text, word) <==> 2 <= n < |text| && text[n - 1] == ':' && word == text[..n - 1]
    {
      DescribedIff(py, text, word);
    }
    OffersBodyIff(py, text, value);
    if body: string :| Trims(py.space, choice, body) && OffersBody(py, body, value) {
      StripIff(py.space, choice, body);
    }
  }

  lemma OffersBodyIff(py: Python, text: string, value: string)
    requires !py.space(':') && Trimmed(py.space, text)
    ensures var n := WordLen(py, text);
            OffersBody(py, text, value) <==>
              value == if 2 <= n < |text| && text[n - 1] == ':' then text[..n - 1] else text
  {
    var n := WordLen(py, text);
    DescribedIff(py, text, value);
    if 2 <= n < |text| && text[n - 1] == ':' {
      DescribedIff(py, text, text[..n - 1]);
    } else {
      forall word: string
        ensures !Described(py, text, word)
      {
        DescribedIff(py, text, word);
      }
    }
  }

  lemma CastIff(py: Python, spec: ArgSpec, raw: string, text: string)
    requires !py.space(':')
    ensures CastArg(py, spec, raw) == Ok(text) <==> Accepts(py, spec, raw, text)
  {
    forall i | 0 <= i < |spec.choices|
      ensures Offers(py, spec.choices[i], raw) <==> ChoiceValue(py, spec.choices[i]) == raw
    {
      ChoiceValueIff(py, spec.choices[i], raw);
    }
  }

  lemma ArgValueIff(py: Python, spec: ArgSpec, values: map<string, string>, text: string)
    requires !py.space(':')
    ensures ArgValue(py, spec, values) == Ok(text) <==> FitsSpec(py, spec, values, text)
  {
    if IsGiven(spec, values) {
      CastIff(py, spec, values[spec.name], text);
    } else {
      CastIff(py, spec, spec.default, text);
    }
  }

  lemma HasFittingIff(py: Python, spec: ArgSpec, values: map<string, string>)
    requires !py.space(':')
    ensures ArgValue(py, spec, values).Ok? <==> HasFitting(py, spec, values)
  {
    if ArgValue(py, spec, values).Ok? {
      ArgValueIff(py, spec, values, ArgValue(py, spec, values).value);
    }
    if text: string :| FitsSpec(py, spec, values, text) {
      ArgValueIff(py, spec, values, text);
    }
  }

  /** One more definition. */
  lemma FillsSnoc(py: Python, specs: seq<ArgSpec>, values: map<string, string>, user: string,
                  filled: map<string, string>, spec: ArgSpec, text: string)
    requires FillsSlots(py, specs, values, user, filled) && FitsSpec(py, spec, values, text)
    ensures FillsSlots(py, specs + [spec], values, user, filled[spec.name := text])
  {
    forall name
      ensures Defines(specs + [spec], name) <==> Defines(specs, name) || name == spec.name
    {
      DefinesSnoc(specs, spec, name);
    }
    var all, now := specs + [spec], filled[spec.name := text];
    forall i | 0 <= i < |all|
      ensures LastDecides(py, all, values, now, i)
    {
      if i < |specs| {
        assert LastDecides(py, specs, values, filled, i);
        LastStays(specs, spec, i);
      }
    }
  }

  lemma DefinesSnoc(specs: seq<ArgSpec>, spec: ArgSpec, name: string)
    ensures Defines(specs + [spec], name) <==> Defines(specs, name) || name == spec.name
  {
    if i :| 0 <= i < |specs| && specs[i].name == name {
      assert (specs + [spec])[i].name == name;
    }
    assert (specs + [spec])[|specs|] == spec;
  }

  lemma LastStays(specs: seq<ArgSpec>, spec: ArgSpec, i: nat)
    requires i < |specs|
    ensures LastOfName(specs + [spec], i) ==> LastOfName(specs, i) && specs[i].name != spec.name
  {
    var all := specs + [spec];
    assert all[|specs|] == spec && all[i] == specs[i];
    assert forall j :: i < j < |specs| ==> all[j] == specs[j];
  }

  lemma {:induction false} FilledIsRight(py: Python, specs: seq<ArgSpec>, values: map<string, string>, user: string)
    requires !py.space(':')
    ensures FilledRightly(py, specs, values, user, Filled(py, specs, values, user))
  {
    if specs != [] {
      var n := |specs| - 1;
      var before, spec := Filled(py, specs[..n], values, user), specs[n];
      FilledIsRight(py, specs[..n], values, user);
      HasFittingIff(py, spec, values);
      assert specs == specs[..n] + [spec];
      AllFit(py, specs, values);
      if before.Ok? && ArgValue(py, spec, values).Ok? {
        ArgValueIff(py, spec, values, ArgValue(py, spec, values).value);
        FillsSnoc(py, specs[..n], values, user, before.value, spec, ArgValue(py, spec, values).value);
      }
    }
  }

  lemma AllFit(py: Python, specs: seq<ArgSpec>, values: map<string, string>)
    requires specs != []
    ensures AllFitting(py, specs, values)
       <==> AllFitting(py, specs[..|specs| - 1], values) && HasFitting(py, specs[|specs| - 1], values)
  {
    forall i | 0 <= i < |specs| - 1
      ensures specs[..|specs| - 1][i] == specs[i]
    {
    }
  }

  lemma LastDefinition(specs: seq<ArgSpec>, name: string) returns (i: nat)
    requires Defines(specs, name)
    ensures i < |specs| && specs[i].name == name && LastOfName(specs, i)
  {
    i := |specs| - 1;
    while specs[i].name != name
      invariant i < |specs| && forall j :: i < j < |specs| ==> specs[j].name != name
      decreases i
    {
      DefinedBelow(specs, name, i);
      i := i - 1;
    }
  }

  lemma DefinedBelow(specs: seq<ArgSpec>, name: string, i: nat)
    requires Defines(specs, name) && i < |specs| && specs[i].name != name
    requires forall j :: i < j < |specs| ==> specs[j].name != name
    ensures i > 0
  {
  }

  /** The slots can be filled in only one way. */
  lemma FillsOneWay(py: Python, specs: seq<ArgSpec>, values: map<string, string>, user: string,
                    a: map<string, string>, b: map<string, string>)
    requires !py.space(':') && FillsSlots(py, specs, values, user, a) && FillsSlots(py, specs, values, user, b)
    ensures a == b
  {
    forall name | name in a
      ensures a[name] == b[name]
    {
      if Defines(specs, name) {
        var i := LastDefinition(specs, name);
        assert LastDecides(py, specs, values, a, i) && LastDecides(py, specs, values, b, i);
        ArgValueIff(py, specs[i], values, a[name]);
        ArgValueIff(py, specs[i], values, b[name]);
      }
    }
  }
}
