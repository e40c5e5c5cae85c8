/** Removing lines with ungrounded addresses and paths from an answer (agent_server/main.py). */
module AnswerGuard {
  import opened Text

  /** The Unicode classes the patterns use, and Python's lower case. */
  datatype Chars = Chars(word: char -> bool, digit: char -> bool, space: char -> bool, lower: string -> string)

  const NOT_CONFIRMED := "문의하신 내용은 매뉴얼과 과거 사례에서 확인되지 않았습니다."
  const NO_ANSWER := "정확하지 않은 정보를 드리지 않기 위해 답변을 드리지 않습니다."
  const ASK_STAFF := "운영팀에 문의해 주세요."
  const FALLBACK := NOT_CONFIRMED + "\n" + NO_ANSWER + " " + ASK_STAFF
  const REMOVED := "확인되지 않은 내용은 제외했습니다. 더 필요하시면 운영팀에 문의해 주세요."
  const INTAKE := "접수 경로:"
  const MARKERS := ["자세한 내용은 다음 문서", "가이드 문서:", "가이드 위치:"]

  /** Digits are word characters; white space and the punctuation of the patterns are neither; the fixed texts hold
      no digits. */
  ghost predicate Proper(x: Chars) {
    && (forall c :: x.digit(c) ==> x.word(c))
    && (forall c :: x.space(c) ==> !x.word(c) && c !in ".@+-/")
    && (forall c :: c in "./@+-" ==> !x.word(c))
    && x.space('\n') && x.space(' ')
    && (forall c :: c in FALLBACK || c in REMOVED || c in INTAKE ==> !x.digit(c))
  }

  // ---- the two patterns ----

  datatype Kind = Address | Path

  predicate WordAt(x: Chars, s: string, p: nat) {
    p < |s| && x.word(s[p])
  }

  predicate PathChar(x: Chars, c: char) {
    x.word(c) || c in ".@+-"
  }

  function DigitRun(x: Chars, s: string, p: nat): (n: nat)
    requires p <= |s|
    ensures p + n <= |s|
    decreases |s| - p
  {
    if p < |s| && x.digit(s[p]) then 1 + DigitRun(x, s, p + 1) else 0
  }

  function PathRun(x: Chars, s: string, p: nat): (n: nat)
    requires p <= |s|
    ensures p + n <= |s|
    decreases |s| - p
  {
    if p < |s| && PathChar(x, s[p]) then 1 + PathRun(x, s, p + 1) else 0
  }

  /** `(?:\d{1,3}\.){dots}\d{1,3}\b` at `p`: length, 0 for no match. */
  function Octets(x: Chars, s: string, p: nat, dots: nat): (n: nat)
    requires p <= |s|
    ensures p + n <= |s|
    decreases |s| - p
  {
    var d := DigitRun(x, s, p);
    if d < 1 || d > 3 then 0
    else if dots == 0 then (if WordAt(x, s, p + d) then 0 else d)
    else if p + d < |s| && s[p + d] == '.' then
      var rest := Octets(x, s, p + d + 1, dots - 1);
      if rest == 0 then 0 else d + 1 + rest
    else 0
  }

  /** `(?:[\w.@+-]+/)*[\w.@+-]*` at `p`, as long as possible. */
  function Segments(x: Chars, s: string, p: nat): (n: nat)
    requires p <= |s|
    ensures p + n <= |s|
    decreases |s| - p
  {
    var r := PathRun(x, s, p);
    if r > 0 && p + r < |s| && s[p + r] == '/' then r + 1 + Segments(x, s, p + r + 1) else r
  }

  /** Length of the match of the address or the path pattern at `p`, 0 for none. */
  function MatchLen(x: Chars, kind: Kind, s: string, p: nat): (n: nat)
    requires p <= |s|
    ensures p + n <= |s|
  {
    match kind
    case Address =>
      if p > 0 && x.word(s[p - 1]) then 0 else Octets(x, s, p, 3)
    case Path =>
      if p == |s| || s[p] != '/' || (p > 0 && (x.word(s[p - 1]) || s[p - 1] == '.')) then 0
      else
        var r := PathRun(x, s, p + 1);
        if r > 0 && p + 1 + r < |s| && s[p + 1 + r] == '/' then 1 + Segments(x, s, p + 1) else 0
  }

  /** `pattern.findall(s)` from `p` on. */
  function FindAll(x: Chars, kind: Kind, s: string, p: nat): seq<string>
    requires p <= |s|
    decreases |s| - p
  {
    if p == |s| then []
    else
      var n := MatchLen(x, kind, s, p);
      if n > 0 then [s[p..p + n]] + FindAll(x, kind, s, p + n) else FindAll(x, kind, s, p + 1)
  }

  function Found(x: Chars, s: string): seq<string> {
    FindAll(x, Address, s, 0) + FindAll(x, Path, s, 0)
  }

  // ---- the guard ----

  datatype Guard = Guard(enabled: bool, intake: string, searchedManual: bool, corpus: seq<string>)

  function Haystack(g: Guard): string {
    Join(g.corpus, "\n")
  }

  /** What the answer mentions without support in the corpus. */
  function Ungrounded(x: Chars, g: Guard, answer: string): set<string> {
    set m | m in Found(x, answer) && !Contains(Haystack(g), m)
  }

  predicate Blank(x: Chars, s: string) {
    forall i :: 0 <= i < |s| ==> x.space(s[i])
  }

  predicate HasMarker(s: string) {
    exists k :: 0 <= k < |MARKERS| && Contains(s, MARKERS[k])
  }

  predicate Tainted(line: string, bad: set<string>) {
    exists b :: b in bad && Contains(line, b)
  }

  function KeptLines(lines: seq<string>, bad: set<string>): seq<string> {
    if lines == [] then []
    else (if Tainted(lines[0], bad) then [] else [lines[0]]) + KeptLines(lines[1..], bad)
  }

  /** Characters that count as content: not white space, list marks, quotes or digits. */
  function Substance(x: Chars, s: string): nat {
    if s == "" then 0
    else Substance(x, s[..|s| - 1])
         + (if x.space(s[|s| - 1]) || s[|s| - 1] in "#-*>|`0123456789." then 0 else 1)
  }

  function IntakeLine(g: Guard): string {
    if g.intake == "" then "" else "\n" + "\n" + (INTAKE + " " + g.intake)
  }

  function Fallback(g: Guard): string {
    FALLBACK + IntakeLine(g)
  }

  function KeptBody(x: Chars, g: Guard, answer: string): string {
    Strip(x.space, Join(KeptLines(Split(answer, '\n'), Ungrounded(x, g, answer)), "\n"))
  }

  /** The kept lines with the remark that something was left out. */
  function Cleaned(x: Chars, g: Guard, answer: string): string {
    KeptBody(x, g, answer) + (("\n" + "\n" + REMOVED) + IntakeLine(g))
  }

  /** The reviewed answer is the fallback. */
  predicate Blocked(x: Chars, g: Guard, answer: string) {
    && g.enabled && !Blank(x, answer)
    && ((!g.searchedManual && HasMarker(answer))
        || (Ungrounded(x, g, answer) != {} && Substance(x, KeptBody(x, g, answer)) < 20))
  }

  function Review(x: Chars, g: Guard, answer: string): string {
    if !g.enabled || Blank(x, answer) then answer
    else if !g.searchedManual && HasMarker(answer) then Fallback(g)
    else if Ungrounded(x, g, answer) == {} then answer
    else
      var body := KeptBody(x, g, answer);
      if Substance(x, body) < 20 then Fallback(g) else Cleaned(x, g, answer)
  }

  /** An event of the run: the tools called and the responses, already serialised. */
  datatype Event = Event(calls: seq<string>, responses: seq<string>)

  /** Some tool with "manual" in its name was called. */
  predicate CallsManual(x: Chars, calls: seq<string>) {
    calls != [] && (CallsManual(x, calls[..|calls| - 1]) || Contains(x.lower(calls[|calls| - 1]), "manual"))
  }
}
