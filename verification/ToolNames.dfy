/** Tool names made from the titles and commands an administrator registers (shared/execution_exec.py). */
module ToolNames {
  import opened Text

  /** `hexdigest()` of the SHA-1 of a text. */
  datatype Digest = Digest(hex: string -> string)

  /** Forty lower-case hexadecimal digits. */
  ghost predicate Hexadecimal(d: Digest) {
    forall text :: |d.hex(text)| == 40 && forall i :: 0 <= i < 40 ==> IsHex(d.hex(text)[i])
  }

  predicate IsLower(c: char) { 'a' <= c <= 'z' }

  predicate IsUpper(c: char) { 'A' <= c <= 'Z' }

  /** `[A-Za-z0-9_]` */
  predicate Kept(c: char) { IsLower(c) || IsUpper(c) || IsDigit(c) || c == '_' }

  /** `[a-z0-9_]` */
  predicate NameChar(c: char) { IsLower(c) || IsDigit(c) || c == '_' }

  predicate NameChars(s: string) {
    forall i :: 0 <= i < |s| ==> NameChar(s[i])
  }

  /** The pattern `^[a-z][a-z0-9_]{0,63}$`. */
  predicate IsToolName(s: string) {
    1 <= |s| <= 64 && IsLower(s[0]) && NameChars(s)
  }

  function LowerChar(c: char): char {
    if IsUpper(c) then 'a' + (c - 'A') else c
  }

  function Lower(s: string): (r: string)
    ensures |r| == |s| && forall i :: 0 <= i < |s| ==> r[i] == LowerChar(s[i])
  {
    seq(|s|, i requires 0 <= i < |s| => LowerChar(s[i]))
  }

  /** Distance from `p` to the next closing brace, if there is one. */
  function ClosingBrace(s: string): (r: Option<nat>)
    ensures r.Some? ==> r.value < |s|
  {
    if s == "" then None
    else if s[0] == '}' then Some(0)
    else match ClosingBrace(s[1..]) case None => None case Some(n) => Some(n + 1)
  }

  /** `re.sub(r"\{[^}]*\}", " ", s)` */
  function BlankBraces(s: string): string
    decreases |s|
  {
    if s == "" then ""
    else if s[0] == '{' && ClosingBrace(s[1..]).Some? then " " + BlankBraces(s[ClosingBrace(s[1..]).value + 2..])
    else [s[0]] + BlankBraces(s[1..])
  }

  /** The stretches of kept characters, in order. */
  function Pieces(s: string): (ps: seq<string>)
    ensures |ps| >= 1
    ensures forall p :: p in ps ==> forall i :: 0 <= i < |p| ==> Kept(p[i])
  {
    if s == "" then [""]
    else
      var rest := Pieces(s[1..]);
      if Kept(s[0]) then
        assert forall i :: 0 <= i < |rest[0]| ==> Kept(rest[0][i]) by { assert rest[0] in rest; }
        [[s[0]] + rest[0]] + rest[1..]
      else [""] + rest
  }

  predicate AllDigits(s: string) {
    s != "" && forall i :: 0 <= i < |s| ==> IsDigit(s[i])
  }

  /** The pieces that are neither empty nor plain numbers. */
  function Useful(ps: seq<string>): (us: seq<string>)
    ensures forall u :: u in us ==> u in ps && u != ""
  {
    if ps == [] then []
    else (if ps[0] == "" || AllDigits(ps[0]) then [] else [ps[0]]) + Useful(ps[1..])
  }

  function Ascii(text: string): (r: string)
    ensures NameChars(r)
  {
    var us := Useful(Pieces(BlankBraces(text)));
    if us == [] then ""
    else if |us| == 1 then
      assert us[0] in us;
      Lower(us[0])
    else
      assert us[0] in us && us[1] in us;
      Lower(us[0] + "_" + us[1])
  }

  function Prefixed(base: string): (r: string)
    requires NameChars(base)
    ensures r != "" && IsLower(r[0]) && NameChars(r)
  {
    "c_" + base
  }

  function Hashed(d: Digest, title: string): (r: string)
    requires Hexadecimal(d)
    ensures r != "" && NameChars(r)
  {
    "k" + d.hex(title)[..6]
  }

  function Base(d: Digest, title: string, command: string): (r: string)
    requires Hexadecimal(d)
    ensures r != "" && IsLower(r[0]) && NameChars(r)
  {
    var base :=
      if Ascii(title) != "" then Ascii(title)
      else if Ascii(command) != "" then Ascii(command)
      else Hashed(d, title);
    if IsLower(base[0]) then base else Prefixed(base)
  }

  function Take(s: string, n: nat): string {
    if |s| <= n then s else s[..n]
  }

  function Numeral(i: nat): string
    requires i < 100
  {
    if i < 10 then ['0' + i as char] else ['0' + (i / 10) as char, '0' + (i % 10) as char]
  }

  /** The `i`-th alternative when the name itself is taken. */
  function Alternative(name: string, i: nat): string
    requires i < 100
  {
    Take(name, 57) + "_" + Numeral(i)
  }

  /** `name` is the plain name or the alternative with the least number that is not taken. */
  ghost predicate FirstFree(plain: string, taken: set<string>, name: string) {
    name !in taken &&
    (name == plain ||
     (plain in taken && exists i :: 2 <= i < 100 && name == Alternative(plain, i) && TakenUpTo(plain, taken, i)))
  }

  ghost predicate TakenUpTo(plain: string, taken: set<string>, n: nat)
    requires n <= 100
  {
    forall i :: 2 <= i < n ==> Alternative(plain, i) in taken
  }

  ghost predicate AllTaken(plain: string, taken: set<string>) {
    plain in taken && TakenUpTo(plain, taken, 100)
  }

  lemma TakeIsToolName(base: string, n: nat)
    requires base != "" && IsLower(base[0]) && NameChars(base) && 1 <= n <= 60
    ensures IsToolName(Take(base, n)) && |Take(base, n)| <= n
  {
  }

  lemma SuffixedIsToolName(stem: string, suffix: string)
    requires IsToolName(stem) && NameChars(suffix) && |stem| + 1 + |suffix| <= 60
    ensures IsToolName(stem + "_" + suffix) && |stem + "_" + suffix| <= 60
  {
  }

  lemma AlternativeIsToolName(name: string, i: nat)
    requires IsToolName(name) && i < 100
    ensures IsToolName(Alternative(name, i)) && |Alternative(name, i)| <= 60
  {
    TakeIsToolName(name, 57);
    SuffixedIsToolName(Take(name, 57), Numeral(i));
  }

  function PlainName(d: Digest, title: string, command: string): (name: string)
    requires Hexadecimal(d)
    ensures IsToolName(name) && |name| <= 60
  {
    TakeIsToolName(Base(d, title, command), 60);
    Take(Base(d, title, command), 60)
  }

  /** The name when everything else is taken; it may be taken as well. */
  function LastResort(d: Digest, title: string, plain: string): (name: string)
    requires Hexadecimal(d) && IsToolName(plain)
    ensures IsToolName(name) && |name| <= 60
  {
    TakeIsToolName(plain, 52);
    SuffixedIsToolName(Take(plain, 52), d.hex(title)[..4]);
    Take(plain, 52) + "_" + d.hex(title)[..4]
  }

  /** What the naming promises: the plain name or its first free alternative, and the last resort only when all are
      taken. */
  ghost predicate NameChosen(d: Digest, title: string, plain: string, taken: set<string>, name: string)
    requires Hexadecimal(d) && IsToolName(plain)
  {
    && IsToolName(name) && |name| <= 60
    && (if AllTaken(plain, taken) then name == LastResort(d, title, plain) else FirstFree(plain, taken, name))
    && (|taken| < 98 ==> name !in taken)
  }

  lemma AlternativeChosen(d: Digest, title: string, plain: string, taken: set<string>, i: nat)
    requires Hexadecimal(d) && IsToolName(plain) && 2 <= i < 100
    requires plain in taken && TakenUpTo(plain, taken, i) && Alternative(plain, i) !in taken
    ensures NameChosen(d, title, plain, taken, Alternative(plain, i))
  {
    AlternativeIsToolName(plain, i);
  }

  lemma LastResortChosen(d: Digest, title: string, plain: string, taken: set<string>)
    requires Hexadecimal(d) && IsToolName(plain) && AllTaken(plain, taken)
    ensures NameChosen(d, title, plain, taken, LastResort(d, title, plain))
  {
    TooManyTaken(plain, taken);
  }

  method Unclaimed(d: Digest, title: string, plain: string, taken: set<string>) returns (name: string)
    requires Hexadecimal(d) && IsToolName(plain) && |plain| <= 60
    ensures NameChosen(d, title, plain, taken, name)
  {
    if plain !in taken {
      return plain;
    }
    for i := 2 to 100
      invariant TakenUpTo(plain, taken, i)
    {
      var alt := Alternative(plain, i);
      if alt !in taken {
        AlternativeChosen(d, title, plain, taken, i);
        return alt;
      }
    }
    LastResortChosen(d, title, plain, taken);
    return LastResort(d, title, plain);
  }

  method ToolNameFor(d: Digest, title: string, taken: set<string>, command: string) returns (name: string)
    requires Hexadecimal(d)
    ensures NameChosen(d, title, PlainName(d, title, command), taken, name)
  {
    name := Unclaimed(d, title, PlainName(d, title, command), taken);
  }

  // ---- freshness ----

  function DigitValue(c: char): int { c as int - '0' as int }

  function NumeralValue(s: string): int {
    if |s| == 1 then DigitValue(s[0]) else if |s| == 2 then 10 * DigitValue(s[0]) + DigitValue(s[1]) else -1
  }

  lemma NumeralRoundTrip(i: nat)
    requires i < 100
    ensures NumeralValue(Numeral(i)) == i
  {
  }

  lemma AlternativeInjective(name: string, i: nat, j: nat)
    requires i < 100 && j < 100 && i != j
    ensures Alternative(name, i) != Alternative(name, j)
  {
    NumeralRoundTrip(i);
    NumeralRoundTrip(j);
    var p := Take(name, 57) + "_";
    assert Alternative(name, i)[|p|..] == Numeral(i) && Alternative(name, j)[|p|..] == Numeral(j);
  }

  function Alternatives(name: string, n: nat): set<string>
    requires 2 <= n <= 100
  {
    set i | 2 <= i < n :: Alternative(name, i)
  }

  lemma {:induction false} AlternativesCount(name: string, n: nat)
    requires 2 <= n <= 100
    ensures |Alternatives(name, n)| == n - 2
  {
    if n > 2 {
      AlternativesCount(name, n - 1);
      forall i | 2 <= i < n - 1
        ensures Alternative(name, i) != Alternative(name, n - 1)
      {
        AlternativeInjective(name, i, n - 1);
      }
      assert Alternatives(name, n) == Alternatives(name, n - 1) + {Alternative(name, n - 1)};
    } else {
      assert Alternatives(name, n) == {};
    }
  }

  lemma {:induction false} SubsetSize(small: set<string>, large: set<string>)
    requires small <= large
    ensures |small| <= |large|
  {
    if small != {} {
      var x :| x in small;
      SubsetSize(small - {x}, large - {x});
    }
  }

  /** Pigeonhole: only 98 or more taken names can use up the 98 numbered alternatives. */
  lemma TooManyTaken(name: string, taken: set<string>)
    requires TakenUpTo(name, taken, 100)
    ensures |taken| >= 98
  {
    AlternativesCount(name, 100);
    SubsetSize(Alternatives(name, 100), taken);
  }

  // ---- registering a batch (admin_console/backend/routers/execution.py) ----

  /** One row of the upload; `sound` is the outcome of the checks that do not concern the tool name. */
  datatype Registration = Registration(title: string, command: string, sound: bool)

  /** Names that no command may have. */
  const RESERVED := {"run_command"}

  function Taken(names: map<string, string>): set<string> {
    names.Values + RESERVED
  }

  /** The table of titles and tool names: every name is valid, none is reserved, no two titles share one. */
  ghost predicate NamesInv(names: map<string, string>) {
    && (forall t :: t in names ==> IsToolName(names[t]) && names[t] !in RESERVED)
    && forall t, u :: t in names && u in names && t != u ==> names[t] != names[u]
  }

  lemma OneIsChosen(d: Digest, title: string, plain: string, taken: set<string>, a: string, b: string)
    requires Hexadecimal(d) && IsToolName(plain)
    requires NameChosen(d, title, plain, taken, a) && NameChosen(d, title, plain, taken, b)
    ensures a == b
  {
    if !AllTaken(plain, taken) && plain in taken {
      var i :| 2 <= i < 100 && a == Alternative(plain, i) && TakenUpTo(plain, taken, i);
      var j :| 2 <= j < 100 && b == Alternative(plain, j) && TakenUpTo(plain, taken, j);
      assert !(i < j) && !(j < i);
    }
  }

  /** The table after one row: a new title gets `name` unless the row is refused; a known title keeps its name. */
  ghost predicate RowDone(d: Digest, names: map<string, string>, row: Registration, after: map<string, string>)
    requires Hexadecimal(d)
  {
    if row.title in names then after == names
    else exists name :: NewRow(d, names, row, name) && after == WithName(names, row, name)
  }

  /** The name made for a new title. */
  ghost predicate NewRow(d: Digest, names: map<string, string>, row: Registration, name: string)
    requires Hexadecimal(d)
  {
    NameChosen(d, row.title, PlainName(d, row.title, row.command), Taken(names), name)
  }

  /** The row is refused when another check fails or when even the last resort is taken. */
  function WithName(names: map<string, string>, row: Registration, name: string): map<string, string> {
    if row.sound && name !in Taken(names) then names[row.title := name] else names
  }

  /** A run of the loop: the tables before each row and after the last. */
  ghost predicate RowsDone(d: Digest, batch: seq<Registration>, tables: seq<map<string, string>>)
    requires Hexadecimal(d)
  {
    && |tables| == |batch| + 1
    && forall k :: 0 <= k < |batch| ==> RowDone(d, tables[k], batch[k], tables[k + 1])
  }

  /** Titles and names of `before` are all in `after`. */
  ghost predicate Keeps(before: map<string, string>, after: map<string, string>) {
    forall t :: t in before ==> t in after && after[t] == before[t]
  }

  lemma NameAdded(names: map<string, string>, title: string, name: string)
    requires NamesInv(names) && title !in names && IsToolName(name) && name !in Taken(names)
    ensures NamesInv(names[title := name]) && Keeps(names, names[title := name])
  {
    assert forall t :: t in names ==> names[t] in names.Values;
  }

  /** One row keeps the table sound and every name in it, whatever is taken. */
  lemma RowKeepsInv(d: Digest, names: map<string, string>, row: Registration, after: map<string, string>)
    requires Hexadecimal(d) && NamesInv(names) && RowDone(d, names, row, after)
    ensures NamesInv(after) && Keeps(names, after)
  {
    if row.title !in names {
      var name :| NewRow(d, names, row, name) && after == WithName(names, row, name);
      if row.sound && name !in Taken(names) {
        NameAdded(names, row.title, name);
      }
    }
  }

  /** Whatever a batch holds and however many names are taken, after every row each title has one valid name, no two
      titles share one, and nobody has lost theirs. */
  lemma {:induction false} BatchKeepsInv(d: Digest, batch: seq<Registration>, tables: seq<map<string, string>>, k: nat)
    requires Hexadecimal(d) && RowsDone(d, batch, tables) && NamesInv(tables[0])
    requires k <= |batch|
    ensures NamesInv(tables[k]) && Keeps(tables[0], tables[k])
  {
    if k > 0 {
      BatchKeepsInv(d, batch, tables, k - 1);
      RowKeepsInv(d, tables[k - 1], batch[k - 1], tables[k]);
    }
  }

  function Sound(batch: seq<Registration>): set<string> {
    set row | row in batch && row.sound :: row.title
  }

  lemma ValuesCount(names: map<string, string>)
    ensures |names.Values| <= |names|
    decreases |names|
  {
    if names.Keys == {} {
      assert names.Values == {};
    } else {
      var t :| t in names;
      var rest := names - {t};
      ValuesCount(rest);
      forall v | v in names.Values
        ensures v in rest.Values + {names[t]}
      {
        var u :| u in names && names[u] == v;
        assert u != t ==> u in rest && rest[u] == v;
      }
      SubsetSize(names.Values, rest.Values + {names[t]});
      assert rest.Keys == names.Keys - {t};
    }
  }

  lemma TakenCount(names: map<string, string>)
    ensures |Taken(names)| <= |names| + 1
  {
    ValuesCount(names);
  }

  lemma AddedSize(names: map<string, string>, title: string, name: string)
    requires title !in names
    ensures names[title := name].Keys == names.Keys + {title} && |names[title := name]| == |names| + 1
  {
  }

  lemma RowName(d: Digest, names: map<string, string>, row: Registration, after: map<string, string>)
    returns (name: string)
    requires Hexadecimal(d) && RowDone(d, names, row, after) && row.title !in names
    ensures after == WithName(names, row, name) && (|names| < 97 ==> name !in Taken(names))
  {
    TakenCount(names);
    name :| NewRow(d, names, row, name) && after == WithName(names, row, name);
  }

  lemma RowGrows(d: Digest, names: map<string, string>, row: Registration, after: map<string, string>)
    requires Hexadecimal(d) && RowDone(d, names, row, after) && |names| < 97
    ensures after.Keys == names.Keys + (if row.sound then {row.title} else {})
    ensures |after| <= |names| + 1
  {
    if row.title in names {
      KnownTitle(names, row);
    } else {
      var name := RowName(d, names, row, after);
      NewTitle(names, row, name);
    }
  }

  lemma KnownTitle(names: map<string, string>, row: Registration)
    requires row.title in names
    ensures names.Keys == names.Keys + if row.sound then {row.title} else {}
  {
  }

  lemma NewTitle(names: map<string, string>, row: Registration, name: string)
    requires row.title !in names && name !in Taken(names)
    ensures WithName(names, row, name).Keys == names.Keys + if row.sound then {row.title} else {}
    ensures |WithName(names, row, name)| <= |names| + 1
  {
    AddedSize(names, row.title, name);
  }

  lemma SoundNext(batch: seq<Registration>, k: nat)
    requires k < |batch|
    ensures Sound(batch[..k + 1]) == Sound(batch[..k]) + if batch[k].sound then {batch[k].title} else {}
  {
    assert batch[..k + 1] == batch[..k] + [batch[k]];
  }

  /** As long as the table has room for the batch, exactly the sound rows are registered. */
  lemma {:induction false} SoundRowsRegistered(d: Digest, batch: seq<Registration>, tables: seq<map<string, string>>,
        k: nat)
    requires Hexadecimal(d) && RowsDone(d, batch, tables) && |tables[0]| + |batch| <= 97
    requires k <= |batch|
    ensures tables[k].Keys == tables[0].Keys + Sound(batch[..k]) && |tables[k]| <= |tables[0]| + k
  {
    if k > 0 {
      SoundRowsRegistered(d, batch, tables, k - 1);
      RowGrows(d, tables[k - 1], batch[k - 1], tables[k]);
      SoundNext(batch, k - 1);
      Associative3(tables[0].Keys, Sound(batch[..k - 1]), if batch[k - 1].sound then {batch[k - 1].title} else {});
    } else {
      assert Sound(batch[..0]) == {};
    }
  }

  lemma Associative3(a: set<string>, b: set<string>, c: set<string>)
    ensures (a + b) + c == a + (b + c)
  {
  }

  lemma BatchDone(d: Digest, batch: seq<Registration>, tables: seq<map<string, string>>)
    requires Hexadecimal(d) && RowsDone(d, batch, tables) && NamesInv(tables[0])
    ensures NamesInv(tables[|batch|]) && Keeps(tables[0], tables[|batch|])
    ensures |tables[0]| + |batch| <= 97 ==> tables[|batch|].Keys == tables[0].Keys + Sound(batch)
  {
    BatchKeepsInv(d, batch, tables, |batch|);
    if |tables[0]| + |batch| <= 97 {
      SoundRowsRegistered(d, batch, tables, |batch|);
      assert batch[..|batch|] == batch;
    }
  }

  /** The first `k` rows led from table `first` to table `last`. */
  ghost predicate PartDone(d: Digest, batch: seq<Registration>, k: nat, tables: seq<map<string, string>>,
        first: map<string, string>, last: map<string, string>)
    requires Hexadecimal(d) && k <= |batch|
  {
    RowsDone(d, batch[..k], tables) && tables[0] == first && tables[k] == last
  }

  lemma RowsNext(d: Digest, batch: seq<Registration>, k: nat, tables: seq<map<string, string>>,
        first: map<string, string>, after: map<string, string>)
    requires Hexadecimal(d) && k < |batch| && |tables| == k + 1
    requires PartDone(d, batch, k, tables, first, tables[k]) && RowDone(d, tables[k], batch[k], after)
    ensures PartDone(d, batch, k + 1, tables + [after], first, after)
  {
    var next := tables + [after];
    forall j | 0 <= j < k + 1
      ensures RowDone(d, next[j], batch[..k + 1][j], next[j + 1])
    {
      if j < k {
        assert RowDone(d, tables[j], batch[..k][j], tables[j + 1]);
      }
    }
  }

  /** What became of a row. */
  datatype Outcome = Inserted | Updated | Skipped

  /** The table of registered commands, reduced to titles and tool names. */
  class Commands {
    var names: map<string, string>

    constructor (names: map<string, string>)
      ensures this.names == names
    {
      this.names := names;
    }

    /** `taken` holds the names in use, before and after the row. */
    method RegisterRow(d: Digest, row: Registration, taken: set<string>)
      returns (outcome: Outcome, nowTaken: set<string>)
      requires Hexadecimal(d) && taken == Taken(names)
      modifies this
      ensures RowDone(d, old(names), row, names) && nowTaken == Taken(names)
      ensures |names| == |old(names)| + if outcome == Inserted then 1 else 0
      ensures outcome == Inserted ==> row.title in names && row.title !in old(names)
      ensures outcome == Skipped <==> row.title !in names || !row.sound
    {
      if row.title in names {
        return if row.sound then Updated else Skipped, taken;
      }
      var name := ToolNameFor(d, row.title, taken, row.command);
      RowIsDone(d, names, row, name);
      AddedSize(names, row.title, name);
      AddedTaken(names, row.title, name);
      if !row.sound || name in taken {
        return Skipped, taken;
      }
      names := names[row.title := name];
      return Inserted, taken + {name};
    }

    /** The upload of a batch; `tables` records the table before each row and after the last. */
    method Register(d: Digest, batch: seq<Registration>)
      returns (inserted: nat, updated: nat, skipped: nat, ghost tables: seq<map<string, string>>)
      requires Hexadecimal(d) && NamesInv(names)
      modifies this
      ensures RowsDone(d, batch, tables) && tables[0] == old(names) && tables[|batch|] == names
      ensures NamesInv(names) && Keeps(old(names), names)
      ensures inserted + updated + skipped == |batch| && |names| == |old(names)| + inserted
      ensures |old(names)| + |batch| <= 97 ==> names.Keys == old(names).Keys + Sound(batch)
    {
      var taken := Taken(names);
      inserted, updated, skipped, tables := 0, 0, 0, [names];
      for k := 0 to |batch|
        invariant PartDone(d, batch, k, tables, old(names), names) && taken == Taken(names)
        invariant inserted + updated + skipped == k && |names| == |old(names)| + inserted
      {
        var outcome: Outcome;
        outcome, taken := RegisterRow(d, batch[k], taken);
        match outcome {
          case Inserted => inserted := inserted + 1;
          case Updated => updated := updated + 1;
          case Skipped => skipped := skipped + 1;
        }
        RowsNext(d, batch, k, tables, old(names), names);
        tables := tables + [names];
      }
      assert batch[..|batch|] == batch;
      BatchDone(d, batch, tables);
    }
  }

  lemma RowIsDone(d: Digest, names: map<string, string>, row: Registration, name: string)
    requires Hexadecimal(d) && row.title !in names && NewRow(d, names, row, name)
    ensures RowDone(d, names, row, WithName(names, row, name))
  {
  }

  lemma AddedTaken(names: map<string, string>, title: string, name: string)
    requires title !in names
    ensures Taken(names[title := name]) == Taken(names) + {name}
  {
    var after := names[title := name];
    forall v | v in names.Values
      ensures v in after.Values
    {
      var t :| t in names && names[t] == v;
      assert after[t] == v;
    }
    assert title in after && after[title] == name;
  }
}
